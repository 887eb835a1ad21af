/** What trust scores mean: when they are positive, and when cycles inflate them. */
module TrustMeaning {
  import opened Wrappers
  import opened TrustGraph
  import opened TrustScore

  ghost predicate Positive(f: Flow) {
    f.damping > 0.0 && forall u, i :: 0 <= i < |Out(f.g, u)| ==> Out(f.g, u)[i].confidence > 0.0
  }

  lemma {:induction false} WalkWeighs(f: Flow, w: Walk)
    requires Positive(f) && Follows(f.g, w.start, w.picks)
    ensures Weight(f, w) > 0.0
    decreases |w.picks|
  {
    if w.picks != [] {
      var e := Out(f.g, w.start)[w.picks[0]];
      var rest := Walk(e.to, w.picks[1..]);
      WalkWeighs(f, rest);
      ProductPositive(f.damping, e.confidence);
      ProductPositive(Gain(f, e), Weight(f, rest));
    }
  }

  lemma ProductPositive(a: real, b: real)
    requires a > 0.0 && b > 0.0
    ensures a * b > 0.0
  {}

  lemma {:induction false} SumPositive(f: Flow, s: set<Walk>)
    requires Positive(f) && forall w <- s :: Follows(f.g, w.start, w.picks)
    ensures WalkSum(f, s) >= 0.0
    ensures WalkSum(f, s) > 0.0 <==> s != {}
    decreases s
  {
    if s == {} {
      NoWalks(f);
    } else {
      var w :| w in s;
      SumRemove(f, s, w);
      WalkWeighs(f, w);
      SumPositive(f, s - {w});
    }
  }

  // ---------------------------------------------------------------- walks and paths

  lemma {:induction false} VisitsIsPath(g: Graph, u: Fp, picks: seq<nat>)
    requires Follows(g, u, picks)
    ensures IsPath(g, Visits(g, u, picks))
    decreases |picks|
  {
    if picks != [] {
      var e := Out(g, u)[picks[0]];
      VisitsIsPath(g, e.to, picks[1..]);
      var vs := Visits(g, e.to, picks[1..]);
      assert e in Out(g, u) && HasEdge(g, u, e.to);
      PrependEdge(g, u, e.to, vs[|vs| - 1], vs);
    }
  }

  lemma {:induction false} PathHasPicks(g: Graph, p: seq<Fp>) returns (picks: seq<nat>)
    requires IsPath(g, p)
    ensures Follows(g, p[0], picks) && Visits(g, p[0], picks) == p
    decreases |p|
  {
    if |p| == 1 {
      picks := [];
    } else {
      assert HasEdge(g, p[0], p[1]);
      var e :| e in Out(g, p[0]) && e.to == p[1];
      var i: nat :| i < |Out(g, p[0])| && Out(g, p[0])[i] == e;
      var tail := p[1..];
      forall j | 0 <= j < |tail| - 1 ensures HasEdge(g, tail[j], tail[j + 1]) {
        assert tail[j] == p[j + 1] && tail[j + 1] == p[j + 2];
      }
      var rest := PathHasPicks(g, tail);
      picks := [i] + rest;
      assert picks[1..] == rest && p == [p[0]] + tail;
    }
  }

  /** Cutting out loops leaves a path without repeats that is no longer. */
  lemma {:induction false} CutLoops(g: Graph, from: Fp, to: Fp, p: seq<Fp>) returns (q: seq<Fp>)
    requires Connects(g, from, to, p)
    ensures Connects(g, from, to, q) && Distinct(q) && |q| <= |p|
    decreases |p|
  {
    if i, j :| 0 <= i < j < |p| && p[i] == p[j] {
      var short := p[..i] + p[j..];
      SpliceIsPath(g, p, i, j);
      q := CutLoops(g, from, to, short);
    } else {
      q := p;
    }
  }

  lemma SpliceIsPath(g: Graph, p: seq<Fp>, i: nat, j: nat)
    requires IsPath(g, p) && i < j < |p| && p[i] == p[j]
    ensures Connects(g, p[0], p[|p| - 1], p[..i] + p[j..])
  {
    var s := p[..i] + p[j..];
    forall k | 0 <= k < |s| - 1 ensures HasEdge(g, s[k], s[k + 1]) {
      if k + 1 < i {
        assert s[k] == p[k] && s[k + 1] == p[k + 1];
      } else if k + 1 == i {
        assert s[k] == p[k] && s[k + 1] == p[j] == p[i];
      } else {
        assert s[k] == p[k - i + j] && s[k + 1] == p[k - i + j + 1];
      }
    }
  }

  /** Some walk counts exactly when some seed has a path of at most `maxHops` edges. */
  lemma SomeWalkIffPath(f: Flow, seeds: set<Fp>, maxHops: nat)
    requires f.target !in seeds
    ensures AllWalks(f, seeds, maxHops) != {}
       <==> exists s, p :: s in seeds && Connects(f.g, s, f.target, p) && |p| - 1 <= maxHops
  {
    if w :| w in AllWalks(f, seeds, maxHops) {
      AllWalksCount(f, seeds, maxHops, w);
      VisitsIsPath(f.g, w.start, w.picks);
      assert Connects(f.g, w.start, f.target, Visits(f.g, w.start, w.picks));
    }
    if s, p :| s in seeds && Connects(f.g, s, f.target, p) && |p| - 1 <= maxHops {
      var q := CutLoops(f.g, s, f.target, p);
      var picks := PathHasPicks(f.g, q);
      assert Visits(f.g, s, picks) == q;
      AllWalksCount(f, seeds, maxHops, Walk(s, picks));
    }
  }

  lemma RawPositiveIffPath(f: Flow, seeds: set<Fp>, maxHops: nat)
    requires f.target !in seeds && Positive(f)
    ensures WalkSum(f, AllWalks(f, seeds, maxHops)) >= 0.0
    ensures WalkSum(f, AllWalks(f, seeds, maxHops)) > 0.0
       <==> exists s, p :: s in seeds && Connects(f.g, s, f.target, p) && |p| - 1 <= maxHops
  {
    forall w <- AllWalks(f, seeds, maxHops) ensures Follows(f.g, w.start, w.picks) {
      AllWalksCount(f, seeds, maxHops, w);
    }
    SumPositive(f, AllWalks(f, seeds, maxHops));
    SomeWalkIffPath(f, seeds, maxHops);
  }

  // ---------------------------------------------------------------- cycles

  /** A counting walk that comes to the target only at its end: a path without repeats. */
  predicate IsSimple(f: Flow, w: Walk) {
    Follows(f.g, w.start, w.picks) && Distinct(Visits(f.g, w.start, w.picks))
  }

  ghost function SimpleWalks(f: Flow, seeds: set<Fp>, maxHops: nat): set<Walk> {
    set w | w in AllWalks(f, seeds, maxHops) && IsSimple(f, w)
  }

  /** A path `p` from a seed to the target, then a cycle `c` through the target that `p` does not
      touch, all within the hop limit. */
  ghost predicate CycleInReach(f: Flow, seeds: set<Fp>, maxHops: nat, p: seq<Fp>, c: seq<Fp>) {
    && p != [] && p[0] in seeds && |c| > 1
    && Connects(f.g, p[0], f.target, p)
    && Connects(f.g, f.target, f.target, c)
    && Distinct(p + c[1..|c| - 1])
    && (|p| - 1) + (|c| - 1) <= maxHops
  }

  lemma LoopingWalkGivesCycle(f: Flow, seeds: set<Fp>, maxHops: nat, w: Walk) returns (p: seq<Fp>, c: seq<Fp>)
    requires Counts(f, seeds, maxHops, w) && !IsSimple(f, w)
    ensures CycleInReach(f, seeds, maxHops, p, c)
  {
    var vs, n := Visits(f.g, w.start, w.picks), |w.picks|;
    VisitsIsPath(f.g, w.start, w.picks);
    var i := ReturnsToEnd(vs, n);
    p, c := vs[..i + 1], vs[i..];
    PathParts(f.g, vs, i);
    assert p + c[1..|c| - 1] == vs[..n];
  }

  lemma ReturnsToEnd(vs: seq<Fp>, n: nat) returns (i: nat)
    requires |vs| == n + 1 && Distinct(vs[..n]) && !Distinct(vs)
    ensures i < n && vs[i] == vs[n]
  {
    var before := vs[..n];
    assert forall k :: 0 <= k < n ==> before[k] == vs[k];
    var a, b :| 0 <= a < b < |vs| && vs[a] == vs[b];
    i := a;
  }

  lemma PathParts(g: Graph, vs: seq<Fp>, i: nat)
    requires IsPath(g, vs) && i < |vs|
    ensures IsPath(g, vs[..i + 1]) && IsPath(g, vs[i..])
  {
    var c := vs[i..];
    forall k | 0 <= k < |c| - 1 ensures HasEdge(g, c[k], c[k + 1]) {
      assert c[k] == vs[i + k] && c[k + 1] == vs[i + k + 1];
    }
  }

  lemma CycleGivesLoopingWalk(f: Flow, seeds: set<Fp>, maxHops: nat, p: seq<Fp>, c: seq<Fp>) returns (w: Walk)
    requires CycleInReach(f, seeds, maxHops, p, c)
    ensures Counts(f, seeds, maxHops, w) && !IsSimple(f, w)
  {
    var vs := p + c[1..];
    forall k | 0 <= k < |vs| - 1 ensures HasEdge(f.g, vs[k], vs[k + 1]) {
      if k + 1 < |p| {
        assert vs[k] == p[k] && vs[k + 1] == p[k + 1];
      } else {
        assert vs[k] == c[k - |p| + 1] && vs[k + 1] == c[k - |p| + 2];
      }
    }
    var picks := PathHasPicks(f.g, vs);
    w := Walk(p[0], picks);
    assert vs[..|picks|] == p + c[1..|c| - 1];
    assert vs[|p| - 1] == f.target && vs[|picks|] == c[|c| - 1] == f.target;
  }

  /** The raw score adds up the paths without repeats and nothing else exactly when no cycle through
      the target is in reach; otherwise it is larger. */
  lemma CycleInflates(f: Flow, seeds: set<Fp>, maxHops: nat)
    requires Positive(f)
    ensures var raw, simple := WalkSum(f, AllWalks(f, seeds, maxHops)), WalkSum(f, SimpleWalks(f, seeds, maxHops));
            && raw >= simple
            && (raw == simple <==> !exists p, c :: CycleInReach(f, seeds, maxHops, p, c))
  {
    var all, simple := AllWalks(f, seeds, maxHops), SimpleWalks(f, seeds, maxHops);
    var looping := all - simple;
    forall w <- all ensures Counts(f, seeds, maxHops, w) {
      AllWalksCount(f, seeds, maxHops, w);
    }
    assert simple + looping == all;
    SumUnion(f, simple, looping);
    SumPositive(f, looping);
    if w :| w in looping {
      var p, c := LoopingWalkGivesCycle(f, seeds, maxHops, w);
    }
    if p, c :| CycleInReach(f, seeds, maxHops, p, c) {
      var w := CycleGivesLoopingWalk(f, seeds, maxHops, p, c);
      AllWalksCount(f, seeds, maxHops, w);
      assert w in looping;
    }
  }

  /** Two agents that vouch for each other raise the score of the one a seed vouches for. */
  lemma MutualVouchersInflate()
    ensures var f := Flow(map["a" := [Edge("b", 1.0)], "b" := [Edge("c", 1.0)], "c" := [Edge("b", 1.0)]], 0.85, "b");
            WalkSum(f, AllWalks(f, {"a"}, 6)) > WalkSum(f, SimpleWalks(f, {"a"}, 6))
  {
    var g := map["a" := [Edge("b", 1.0)], "b" := [Edge("c", 1.0)], "c" := [Edge("b", 1.0)]];
    var f := Flow(g, 0.85, "b");
    assert Edge("b", 1.0) in Out(g, "a") && Edge("c", 1.0) in Out(g, "b") && Edge("b", 1.0) in Out(g, "c");
    assert HasEdge(g, "a", "b") && HasEdge(g, "b", "c") && HasEdge(g, "c", "b");
    var p, c := ["a", "b"], ["b", "c", "b"];
    assert p + c[1..|c| - 1] == ["a", "b", "c"];
    assert CycleInReach(f, {"a"}, 6, p, c);
    CycleInflates(f, {"a"}, 6);
  }
}
