/** Trust scores (origin-attest): weight flows from the seeds along valid Tier-2 endorsements, and
    an agent's raw score adds up what every walk to it carries. */
module TrustScore {
  import opened Wrappers
  import opened TrustGraph

  /** One propagation: the graph, the damping per hop, and the agent whose score is wanted. */
  datatype Flow = Flow(g: Graph, damping: real, target: Fp)

  /** A walk names its start and which edge it takes out of each node, so parallel endorsements
      are different walks. */
  datatype Walk = Walk(start: Fp, picks: seq<nat>)

  predicate Follows(g: Graph, u: Fp, picks: seq<nat>)
    decreases |picks|
  {
    picks == [] || (picks[0] < |Out(g, u)| && Follows(g, Out(g, u)[picks[0]].to, picks[1..]))
  }

  function Visits(g: Graph, u: Fp, picks: seq<nat>): (r: seq<Fp>)
    requires Follows(g, u, picks)
    ensures |r| == |picks| + 1 && r[0] == u
    decreases |picks|
  {
    if picks == [] then [u] else [u] + Visits(g, Out(g, u)[picks[0]].to, picks[1..])
  }

  /** A walk that counts: from a seed, 1 to `maxHops` edges, ending at the target, and not
      passing any node twice before its last step. */
  predicate Counts(f: Flow, seeds: set<Fp>, maxHops: nat, w: Walk) {
    && w.start in seeds
    && 1 <= |w.picks| <= maxHops
    && Follows(f.g, w.start, w.picks)
    && var vs := Visits(f.g, w.start, w.picks);
       vs[|w.picks|] == f.target && Distinct(vs[..|w.picks|])
  }

  /** What one hop over an edge multiplies a weight by. */
  function Gain(f: Flow, e: Edge): real {
    f.damping * e.confidence
  }

  /** The product of damping times confidence over its edges. */
  function Weight(f: Flow, w: Walk): real
    decreases |w.picks|
  {
    if w.picks == [] then 1.0
    else if w.picks[0] < |Out(f.g, w.start)| then
      var e := Out(f.g, w.start)[w.picks[0]];
      Gain(f, e) * Weight(f, Walk(e.to, w.picks[1..]))
    else 0.0
  }

  ghost function WalkSum(f: Flow, s: set<Walk>): real {
    if s == {} then 0.0 else var w :| w in s; Weight(f, w) + WalkSum(f, s - {w})
  }

  lemma {:induction false} SumRemove(f: Flow, s: set<Walk>, x: Walk)
    requires x in s
    ensures WalkSum(f, s) == Weight(f, x) + WalkSum(f, s - {x})
    decreases s
  {
    var w :| w in s && WalkSum(f, s) == Weight(f, w) + WalkSum(f, s - {w});
    if w != x {
      SumRemove(f, s - {w}, x);
      SumRemove(f, s - {x}, w);
      assert s - {w} - {x} == s - {x} - {w};
    }
  }

  lemma {:induction false} SumUnion(f: Flow, a: set<Walk>, b: set<Walk>)
    requires a !! b
    ensures WalkSum(f, a + b) == WalkSum(f, a) + WalkSum(f, b)
    decreases b
  {
    if b == {} {
      assert a + b == a;
    } else {
      var x :| x in b;
      SumRemove(f, b, x);
      SumRemove(f, a + b, x);
      assert a + b - {x} == a + (b - {x});
      SumUnion(f, a, b - {x});
    }
  }

  function Extend(u: Fp, i: nat, w: Walk): Walk {
    Walk(u, [i] + w.picks)
  }

  ghost function ExtendAll(u: Fp, i: nat, s: set<Walk>): set<Walk> {
    set w | w in s :: Extend(u, i, w)
  }

  lemma WeightExtend(f: Flow, u: Fp, i: nat, w: Walk)
    requires i < |Out(f.g, u)| && w.start == Out(f.g, u)[i].to
    ensures Weight(f, Extend(u, i, w)) == Gain(f, Out(f.g, u)[i]) * Weight(f, w)
  {
    hide Gain;
    assert ([i] + w.picks)[1..] == w.picks;
  }

  lemma ExtendInjective(u: Fp, i: nat, v: Walk, w: Walk)
    requires Extend(u, i, v) == Extend(u, i, w)
    ensures v.picks == w.picks
  {
    assert v.picks == ([i] + v.picks)[1..] && w.picks == ([i] + w.picks)[1..];
  }

  lemma Distribute(c: real, a: real, b: real)
    ensures c * (a + b) == c * a + c * b
  {}

  lemma {:induction false} SumExtend(f: Flow, u: Fp, i: nat, s: set<Walk>)
    requires i < |Out(f.g, u)| && forall w <- s :: w.start == Out(f.g, u)[i].to
    ensures WalkSum(f, ExtendAll(u, i, s)) == Gain(f, Out(f.g, u)[i]) * WalkSum(f, s)
    decreases s
  {
    hide Gain, Weight, Extend;
    var c := Gain(f, Out(f.g, u)[i]);
    if s == {} {
      assert ExtendAll(u, i, s) == {};
    } else {
      var w :| w in s;
      var rest := s - {w};
      var x := Extend(u, i, w);
      SumExtend(f, u, i, rest);
      SumRemove(f, s, w);
      forall y <- rest ensures Extend(u, i, y) != x {
        if Extend(u, i, y) == x { ExtendInjective(u, i, y, w); }
      }
      assert ExtendAll(u, i, s) - {x} == ExtendAll(u, i, rest);
      SumRemove(f, ExtendAll(u, i, s), x);
      WeightExtend(f, u, i, w);
      Distribute(c, Weight(f, w), WalkSum(f, rest));
    }
  }

  // ---------------------------------------------------------------- the walks below one queue entry

  /** Walks out of `u` by its first `k` edges, of at most `h` edges, ending at the target, that
      pass no node twice before the last step, nor any of `seen`. */
  ghost function Below(f: Flow, u: Fp, h: nat, seen: set<Fp>, k: nat): (s: set<Walk>)
    requires k <= |Out(f.g, u)|
    ensures forall w <- s :: w.start == u && w.picks != [] && w.picks[0] < k
    decreases h, k
  {
    if h == 0 || k == 0 then {}
    else
      var to := Out(f.g, u)[k - 1].to;
      Below(f, u, h, seen, k - 1)
      + (if to == f.target then {Walk(u, [k - 1])} else {})
      + ExtendAll(u, k - 1, if to in seen then {} else Below(f, to, h - 1, seen + {to}, |Out(f.g, to)|))
  }

  /** What an entry with weight 1 will still add to the target's score. */
  ghost function Share(f: Flow, u: Fp, h: nat, seen: set<Fp>): real {
    WalkSum(f, Below(f, u, h, seen, |Out(f.g, u)|))
  }

  ghost function ShareTo(f: Flow, u: Fp, h: nat, seen: set<Fp>, k: nat): real
    requires k <= |Out(f.g, u)|
  {
    WalkSum(f, Below(f, u, h, seen, k))
  }

  /** What the `k`-th edge adds. */
  lemma ShareStep(f: Flow, u: Fp, h: nat, seen: set<Fp>, k: nat)
    requires h > 0 && k < |Out(f.g, u)|
    ensures var e := Out(f.g, u)[k];
            ShareTo(f, u, h, seen, k + 1)
            == ShareTo(f, u, h, seen, k)
               + Gain(f, e)
                 * ((if e.to == f.target then 1.0 else 0.0)
                    + (if e.to in seen then 0.0 else Share(f, e.to, h - 1, seen + {e.to})))
  {
    hide Gain, Weight, WalkSum, ExtendAll;
    var e := Out(f.g, u)[k];
    var c := Gain(f, e);
    var sub := if e.to in seen then {} else Below(f, e.to, h - 1, seen + {e.to}, |Out(f.g, e.to)|);
    var direct := if e.to == f.target then {Walk(u, [k])} else {};
    SplitSum(f, u, k, Below(f, u, h, seen, k), direct, sub);
    OneEdge(f, u, k);
    NoWalks(f);
    Distribute(c, if e.to == f.target then 1.0 else 0.0, WalkSum(f, sub));
  }

  lemma NoWalks(f: Flow)
    ensures WalkSum(f, {}) == 0.0
  {}

  lemma SplitSum(f: Flow, u: Fp, k: nat, before: set<Walk>, direct: set<Walk>, sub: set<Walk>)
    requires k < |Out(f.g, u)|
    requires forall w <- before :: w.picks != [] && w.picks[0] < k
    requires direct <= {Walk(u, [k])}
    requires forall w <- sub :: w.start == Out(f.g, u)[k].to && w.picks != []
    ensures WalkSum(f, before + direct + ExtendAll(u, k, sub))
         == WalkSum(f, before) + WalkSum(f, direct) + Gain(f, Out(f.g, u)[k]) * WalkSum(f, sub)
  {
    forall w <- ExtendAll(u, k, sub) ensures w !in before + direct {
      var v :| v in sub && w == Extend(u, k, v);
      assert |w.picks| > 1 && w.picks[0] == k;
    }
    SumUnion(f, before, direct);
    SumUnion(f, before + direct, ExtendAll(u, k, sub));
    SumExtend(f, u, k, sub);
  }

  lemma OneEdge(f: Flow, u: Fp, k: nat)
    requires k < |Out(f.g, u)|
    ensures WalkSum(f, {Walk(u, [k])}) == Gain(f, Out(f.g, u)[k])
  {
    var w := Walk(u, [k]);
    SumRemove(f, {w}, w);
    assert {w} - {w} == {};
    assert Weight(f, Walk(Out(f.g, u)[k].to, [])) == 1.0;
  }

  /** Of at most `h` edges, ending at the target, passing no node twice before the last step, nor
      any of `seen`. */
  ghost predicate Eligible(f: Flow, u: Fp, h: nat, seen: set<Fp>, w: Walk) {
    && w.start == u && 1 <= |w.picks| <= h
    && Follows(f.g, u, w.picks)
    && Visits(f.g, u, w.picks)[|w.picks|] == f.target
    && Fresh(Visits(f.g, u, w.picks), |w.picks|, seen)
  }

  /** `Below` lists exactly the walks it is meant to. */
  lemma {:induction false} BelowIs(f: Flow, u: Fp, h: nat, seen: set<Fp>, k: nat, w: Walk)
    requires k <= |Out(f.g, u)|
    ensures w in Below(f, u, h, seen, k) <==> Eligible(f, u, h, seen, w) && w.picks[0] < k
    decreases h, k
  {
    hide Eligible, ExtendAll;
    EligibleBasics(f, u, h, seen, w);
    if h > 0 && k > 0 {
      BelowIs(f, u, h, seen, k - 1, w);
      var to := Out(f.g, u)[k - 1].to;
      var sub := if to in seen then {} else Below(f, to, h - 1, seen + {to}, |Out(f.g, to)|);
      if w.start == u && w.picks != [] && w.picks[0] == k - 1 {
        var rest := Walk(to, w.picks[1..]);
        assert w.picks == [k - 1] + rest.picks;
        ExtendedFrom(u, k - 1, sub, to, w, rest);
        EligibleStep(f, u, h, seen, w);
        assert |w.picks| == 1 <==> w == Walk(u, [k - 1]);
        if to !in seen {
          BelowIs(f, to, h - 1, seen + {to}, |Out(f.g, to)|, rest);
        }
      } else {
        ExtendedStart(u, k - 1, sub, w);
      }
    }
  }

  lemma EligibleBasics(f: Flow, u: Fp, h: nat, seen: set<Fp>, w: Walk)
    ensures Eligible(f, u, h, seen, w) ==> h > 0 && w.start == u && w.picks != [] && w.picks[0] < |Out(f.g, u)|
  {}

  lemma ExtendedStart(u: Fp, i: nat, sub: set<Walk>, w: Walk)
    ensures w in ExtendAll(u, i, sub) ==> w.start == u && w.picks != [] && w.picks[0] == i
  {}

  lemma EligibleStep(f: Flow, u: Fp, h: nat, seen: set<Fp>, w: Walk)
    requires h > 0 && w.start == u && w.picks != [] && w.picks[0] < |Out(f.g, u)|
    ensures var to := Out(f.g, u)[w.picks[0]].to;
            && (|w.picks| == 1 ==> (Eligible(f, u, h, seen, w) <==> to == f.target))
            && (|w.picks| > 1 ==>
                  (Eligible(f, u, h, seen, w)
                   <==> to !in seen && Eligible(f, to, h - 1, seen + {to}, Walk(to, w.picks[1..]))))
            && (Eligible(f, to, h - 1, seen + {to}, Walk(to, w.picks[1..])) ==>
                  Walk(to, w.picks[1..]).picks[0] < |Out(f.g, to)|)
  {
    if |w.picks| == 1 {
      var to := Out(f.g, u)[w.picks[0]].to;
      assert w.picks[1..] == [] && Follows(f.g, to, w.picks[1..]) && Follows(f.g, u, w.picks);
      assert Visits(f.g, u, w.picks) == [u, to];
    } else if Follows(f.g, u, w.picks) {
      FreshTail(f.g, u, w.picks, seen);
    }
  }

  /** The nodes after the first and before the `n`-th are distinct and avoid `seen`. */
  predicate Fresh(vs: seq<Fp>, n: nat, seen: set<Fp>)
    requires n < |vs|
  {
    && (forall i :: 1 <= i < n ==> vs[i] !in seen)
    && (forall i, j :: 1 <= i < j < n ==> vs[i] != vs[j])
  }

  lemma FreshTail(g: Graph, u: Fp, picks: seq<nat>, seen: set<Fp>)
    requires |picks| > 1 && Follows(g, u, picks)
    ensures var to := Out(g, u)[picks[0]].to;
            && Visits(g, u, picks)[|picks|] == Visits(g, to, picks[1..])[|picks| - 1]
            && (Fresh(Visits(g, u, picks), |picks|, seen)
                <==> to !in seen && Fresh(Visits(g, to, picks[1..]), |picks| - 1, seen + {to}))
  {
    var to := Out(g, u)[picks[0]].to;
    var vs, ws := Visits(g, u, picks), Visits(g, to, picks[1..]);
    assert vs == [u] + ws && ws[0] == to;
    assert forall i :: 1 <= i < |vs| ==> vs[i] == ws[i - 1];
    if Fresh(vs, |picks|, seen) {
      forall i | 1 <= i < |picks| - 1 ensures ws[i] !in seen + {to} {
        assert vs[i + 1] == ws[i] && vs[1] == to;
      }
      forall i, j | 1 <= i < j < |picks| - 1 ensures ws[i] != ws[j] {
        assert vs[i + 1] == ws[i] && vs[j + 1] == ws[j];
      }
      assert vs[1] !in seen;
    }
  }

  lemma ExtendedFrom(u: Fp, i: nat, sub: set<Walk>, to: Fp, w: Walk, rest: Walk)
    requires w == Extend(u, i, rest) && rest.start == to && forall v <- sub :: v.start == to
    ensures w in ExtendAll(u, i, sub) <==> rest in sub
  {
    if w in ExtendAll(u, i, sub) {
      var v :| v in sub && w == Extend(u, i, v);
      ExtendInjective(u, i, v, rest);
    }
  }

  // ---------------------------------------------------------------- all walks from the seeds

  ghost function AllWalks(f: Flow, seeds: set<Fp>, maxHops: nat): set<Walk> {
    set s, w | s in seeds && w in Below(f, s, maxHops, {s}, |Out(f.g, s)|) :: w
  }

  lemma AllWalksCount(f: Flow, seeds: set<Fp>, maxHops: nat, w: Walk)
    ensures w in AllWalks(f, seeds, maxHops) <==> Counts(f, seeds, maxHops, w)
  {
    BelowIs(f, w.start, maxHops, {w.start}, |Out(f.g, w.start)|, w);
    if Follows(f.g, w.start, w.picks) && w.picks != [] {
      var vs := Visits(f.g, w.start, w.picks);
      assert Fresh(vs, |w.picks|, {w.start}) <==> Distinct(vs[..|w.picks|]);
    }
    if w in AllWalks(f, seeds, maxHops) {
      var s :| s in seeds && w in Below(f, s, maxHops, {s}, |Out(f.g, s)|);
    }
  }

  lemma AddSeed(f: Flow, seeds: set<Fp>, maxHops: nat, s: Fp)
    requires s !in seeds
    ensures WalkSum(f, AllWalks(f, seeds + {s}, maxHops))
         == WalkSum(f, AllWalks(f, seeds, maxHops)) + Share(f, s, maxHops, {s})
  {
    var a, b := AllWalks(f, seeds, maxHops), Below(f, s, maxHops, {s}, |Out(f.g, s)|);
    assert AllWalks(f, seeds + {s}, maxHops) == a + b;
    SumUnion(f, a, b);
  }

  // ---------------------------------------------------------------- the propagation loop

  /** A queue entry: where the weight stands, how it got there. */
  datatype Pending = Pending(fp: Fp, weight: real, depth: nat, visited: set<Fp>)

  ghost function HopsLeft(maxHops: nat, e: Pending): nat {
    if e.depth < maxHops then maxHops - e.depth else 0
  }

  /** What the queued entries will still add to the target's score. */
  ghost function Owed(f: Flow, maxHops: nat, queue: seq<Pending>): real {
    if queue == [] then 0.0
    else
      queue[0].weight * Share(f, queue[0].fp, HopsLeft(maxHops, queue[0]), queue[0].visited)
      + Owed(f, maxHops, queue[1..])
  }

  lemma {:induction false} OwedAppend(f: Flow, maxHops: nat, queue: seq<Pending>, e: Pending)
    ensures Owed(f, maxHops, queue + [e])
         == Owed(f, maxHops, queue) + e.weight * Share(f, e.fp, HopsLeft(maxHops, e), e.visited)
  {
    if queue == [] {
      assert [e][1..] == [];
    } else {
      assert (queue + [e])[1..] == queue[1..] + [e];
      OwedAppend(f, maxHops, queue[1..], e);
    }
  }

  /** How many entries are ever queued below one with `h` hops left, by its first `k` edges. */
  ghost function TreeTo(g: Graph, u: Fp, h: nat, seen: set<Fp>, k: nat): nat
    requires k <= |Out(g, u)|
    decreases h, k
  {
    if h == 0 || k == 0 then 0
    else
      var to := Out(g, u)[k - 1].to;
      TreeTo(g, u, h, seen, k - 1) + (if to in seen then 0 else 1 + TreeTo(g, to, h - 1, seen + {to}, |Out(g, to)|))
  }

  ghost function Tree(g: Graph, maxHops: nat, e: Pending): nat {
    1 + TreeTo(g, e.fp, HopsLeft(maxHops, e), e.visited, |Out(g, e.fp)|)
  }

  ghost function Forest(g: Graph, maxHops: nat, queue: seq<Pending>): nat {
    if queue == [] then 0 else Tree(g, maxHops, queue[0]) + Forest(g, maxHops, queue[1..])
  }

  lemma {:induction false} ForestAppend(g: Graph, maxHops: nat, queue: seq<Pending>, e: Pending)
    ensures Forest(g, maxHops, queue + [e]) == Forest(g, maxHops, queue) + Tree(g, maxHops, e)
  {
    if queue == [] {
      assert [e][1..] == [];
    } else {
      assert (queue + [e])[1..] == queue[1..] + [e];
      ForestAppend(g, maxHops, queue[1..], e);
    }
  }

  function ScoreOf(scores: map<Fp, real>, fp: Fp): real {
    if fp in scores then scores[fp] else 0.0
  }

  /** The entry an edge queues. */
  function Next(f: Flow, e: Pending, x: Edge): Pending {
    Pending(x.to, e.weight * f.damping * x.confidence, e.depth + 1, e.visited + {x.to})
  }

  function Queued(f: Flow, e: Pending, x: Edge, queue: seq<Pending>): seq<Pending> {
    if x.to in e.visited then queue else queue + [Next(f, e, x)]
  }

  /** One edge: what is added to the target's score now, plus what its new entry is owed, is the
      entry's weight times the edge's part of its share. */
  lemma EdgeBalance(f: Flow, maxHops: nat, e: Pending, k: nat, queue: seq<Pending>)
    requires e.depth < maxHops && k < |Out(f.g, e.fp)|
    ensures var x := Out(f.g, e.fp)[k];
            var h := maxHops - e.depth;
            Owed(f, maxHops, Queued(f, e, x, queue))
            + (if x.to == f.target then Next(f, e, x).weight else 0.0)
            + e.weight * ShareTo(f, e.fp, h, e.visited, k)
            == Owed(f, maxHops, queue) + e.weight * ShareTo(f, e.fp, h, e.visited, k + 1)
  {
    hide Share, ShareTo, Owed, Gain;
    var x := Out(f.g, e.fp)[k];
    var h := maxHops - e.depth;
    ShareStep(f, e.fp, h, e.visited, k);
    GainIs(f, e, x);
    var hit := if x.to == f.target then 1.0 else 0.0;
    var sub := if x.to in e.visited then 0.0 else Share(f, x.to, h - 1, e.visited + {x.to});
    if x.to !in e.visited {
      OwedAppend(f, maxHops, queue, Next(f, e, x));
    }
    EdgeArithmetic(e.weight, Gain(f, x), hit, sub, ShareTo(f, e.fp, h, e.visited, k), Next(f, e, x).weight);
  }

  lemma GainIs(f: Flow, e: Pending, x: Edge)
    ensures e.weight * Gain(f, x) == Next(f, e, x).weight
  {}

  lemma EdgeArithmetic(w: real, c: real, hit: real, sub: real, before: real, next: real)
    requires w * c == next
    ensures w * (before + c * (hit + sub)) == w * before + next * hit + next * sub
  {
    assert w * (c * (hit + sub)) == next * (hit + sub);
  }

  lemma EdgeTree(f: Flow, maxHops: nat, e: Pending, k: nat, queue: seq<Pending>)
    requires e.depth < maxHops && k < |Out(f.g, e.fp)|
    ensures var x := Out(f.g, e.fp)[k];
            var h := maxHops - e.depth;
            Forest(f.g, maxHops, Queued(f, e, x, queue)) + TreeTo(f.g, e.fp, h, e.visited, k)
            == Forest(f.g, maxHops, queue) + TreeTo(f.g, e.fp, h, e.visited, k + 1)
  {
    var x := Out(f.g, e.fp)[k];
    if x.to !in e.visited {
      ForestAppend(f.g, maxHops, queue, Next(f, e, x));
    }
  }

  /** Expands one entry: every edge out of it pays its end, and queues it if it is new. */
  method Spread(f: Flow, maxHops: nat, e: Pending, scores0: map<Fp, real>, queue0: seq<Pending>)
    returns (scores: map<Fp, real>, queue: seq<Pending>)
    requires e.depth < maxHops
    ensures ScoreOf(scores, f.target) + Owed(f, maxHops, queue)
         == ScoreOf(scores0, f.target) + Owed(f, maxHops, [e] + queue0)
    ensures Forest(f.g, maxHops, queue) < Forest(f.g, maxHops, [e] + queue0)
  {
    hide Owed, ShareTo, Forest, TreeTo;
    scores, queue := scores0, queue0;
    var edges := Out(f.g, e.fp);
    ghost var h := maxHops - e.depth;
    Unspread(f, maxHops, e, queue0);
    var k := 0;
    while k < |edges|
      invariant 0 <= k <= |edges|
      invariant ScoreOf(scores, f.target) + Owed(f, maxHops, queue)
             == ScoreOf(scores0, f.target) + Owed(f, maxHops, queue0) + e.weight * ShareTo(f, e.fp, h, e.visited, k)
      invariant Forest(f.g, maxHops, queue) == Forest(f.g, maxHops, queue0) + TreeTo(f.g, e.fp, h, e.visited, k)
    {
      var x := edges[k];
      EdgeBalance(f, maxHops, e, k, queue);
      EdgeTree(f, maxHops, e, k, queue);
      ghost var queue' := Queued(f, e, x, queue);
      var propagated := e.weight * f.damping * x.confidence;
      scores := scores[x.to := ScoreOf(scores, x.to) + propagated];
      if x.to !in e.visited {
        queue := queue + [Pending(x.to, propagated, e.depth + 1, e.visited + {x.to})];
      }
      assert Next(f, e, x) == Pending(x.to, propagated, e.depth + 1, e.visited + {x.to});
      assert queue == queue';
      k := k + 1;
    }
  }

  lemma Unspread(f: Flow, maxHops: nat, e: Pending, queue: seq<Pending>)
    requires e.depth < maxHops
    ensures var h, n := maxHops - e.depth, |Out(f.g, e.fp)|;
            && Owed(f, maxHops, [e] + queue) == Owed(f, maxHops, queue) + e.weight * ShareTo(f, e.fp, h, e.visited, n)
            && ShareTo(f, e.fp, h, e.visited, 0) == 0.0
            && TreeTo(f.g, e.fp, h, e.visited, 0) == 0
            && Forest(f.g, maxHops, [e] + queue) == Forest(f.g, maxHops, queue) + 1 + TreeTo(f.g, e.fp, h, e.visited, n)
  {
    assert ([e] + queue)[1..] == queue;
    NoWalks(f);
  }

  /** The raw score: what all counting walks carry together. */
  method Propagate(f: Flow, seeds: set<Fp>, maxHops: nat) returns (raw: real)
    requires f.target !in seeds
    ensures raw == WalkSum(f, AllWalks(f, seeds, maxHops))
  {
    hide WalkSum, AllWalks, Owed, Forest, Share;
    var scores: map<Fp, real> := map s | s in seeds :: 1.0;
    var queue := Launch(f, seeds, maxHops);
    while queue != []
      invariant ScoreOf(scores, f.target) + Owed(f, maxHops, queue) == WalkSum(f, AllWalks(f, seeds, maxHops))
      decreases Forest(f.g, maxHops, queue)
    {
      var e := queue[0];
      assert queue == [e] + queue[1..];
      if e.depth >= maxHops {
        NoHopsLeft(f, maxHops, e, queue[1..]);
        queue := queue[1..];
        continue;
      }
      scores, queue := Spread(f, maxHops, e, scores, queue[1..]);
    }
    NothingOwed(f, maxHops);
    raw := ScoreOf(scores, f.target);
  }

  /** Every seed starts with weight 1, having visited itself. */
  method Launch(f: Flow, seeds: set<Fp>, maxHops: nat) returns (queue: seq<Pending>)
    ensures Owed(f, maxHops, queue) == WalkSum(f, AllWalks(f, seeds, maxHops))
  {
    hide WalkSum, Owed, Share;
    queue := [];
    var rest := seeds;
    assert seeds - seeds == {} && AllWalks(f, {}, maxHops) == {};
    NothingOwed(f, maxHops);
    NoWalks(f);
    while rest != {}
      invariant rest <= seeds
      invariant Owed(f, maxHops, queue) == WalkSum(f, AllWalks(f, seeds - rest, maxHops))
    {
      var s :| s in rest;
      var e := Pending(s, 1.0, 0, {s});
      AddSeed(f, seeds - rest, maxHops, s);
      OwedAppend(f, maxHops, queue, e);
      queue := queue + [e];
      assert seeds - rest + {s} == seeds - (rest - {s});
      rest := rest - {s};
    }
    assert seeds - rest == seeds;
  }

  lemma NothingOwed(f: Flow, maxHops: nat)
    ensures Owed(f, maxHops, []) == 0.0
  {}

  lemma NoHopsLeft(f: Flow, maxHops: nat, e: Pending, queue: seq<Pending>)
    requires e.depth >= maxHops
    ensures Owed(f, maxHops, [e] + queue) == Owed(f, maxHops, queue)
    ensures Forest(f.g, maxHops, queue) < Forest(f.g, maxHops, [e] + queue)
  {
    NoWalks(f);
    assert ([e] + queue)[1..] == queue;
  }
}
