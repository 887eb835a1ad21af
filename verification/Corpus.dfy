/** Garbage collection of a saved crawl corpus (origin-crawler): bodies and their provenance
    sidecars, both keyed by file stem. */
module Corpus {

  type Stem = string

  datatype Source = Source(url: string, lastSeen: nat)

  /** A sidecar that cannot be read or parsed, or its document. */
  datatype Sidecar = Unparsed | Doc(contentHash: Stem, sources: seq<Source>)

  datatype Dir = Dir(bodies: map<Stem, nat>, sidecars: map<Stem, Sidecar>)

  function FreshOf(sources: seq<Source>, cutoff: nat): seq<Source> {
    if sources == [] then []
    else
      var last := sources[|sources| - 1];
      FreshOf(sources[..|sources| - 1], cutoff) + (if last.lastSeen >= cutoff then [last] else [])
  }

  /** What survives: pairs whose sidecar is unparseable or still has a fresh source. */
  predicate Live(d: Dir, cutoff: nat, s: Stem) {
    && s in d.bodies && s in d.sidecars
    && (d.sidecars[s].Unparsed? || FreshOf(d.sidecars[s].sources, cutoff) != [])
  }

  function Stripped(sc: Sidecar, cutoff: nat): Sidecar {
    if sc.Doc? then sc.(sources := FreshOf(sc.sources, cutoff)) else sc
  }

  /** The corpus a pass leaves behind. */
  function Pruned(d: Dir, cutoff: nat): Dir {
    Dir(map s | s in d.bodies && Live(d, cutoff, s) :: d.bodies[s],
        map s | s in d.sidecars && Live(d, cutoff, s) :: Stripped(d.sidecars[s], cutoff))
  }

  // ---------------------------------------------------------------- sums over maps

  ghost function Sum(m: map<Stem, nat>): nat
    decreases |m|
  {
    if m == map[] then 0
    else
      var k :| k in m;
      assert |m - {k}| < |m| by { assert (m - {k}).Keys == m.Keys - {k}; }
      m[k] + Sum(m - {k})
  }

  lemma {:induction false} SumRemove(m: map<Stem, nat>, k: Stem)
    requires k in m
    ensures Sum(m) == m[k] + Sum(m - {k})
    decreases |m|
  {
    var x :| x in m && Sum(m) == m[x] + Sum(m - {x});
    if x != k {
      assert |m - {x}| < |m| by { assert (m - {x}).Keys == m.Keys - {x}; }
      assert |m - {k}| < |m| by { assert (m - {k}).Keys == m.Keys - {k}; }
      SumRemove(m - {x}, k);
      SumRemove(m - {k}, x);
      assert m - {x} - {k} == m - {k} - {x};
    }
  }

  function Restrict(m: map<Stem, nat>, keys: set<Stem>): map<Stem, nat> {
    map k | k in m && k in keys :: m[k]
  }

  lemma SumEmpty()
    ensures Sum(map[]) == 0
  {}

  lemma SumRestrictAdd(m: map<Stem, nat>, keys: set<Stem>, k: Stem)
    requires k !in keys
    ensures Sum(Restrict(m, keys + {k})) == Sum(Restrict(m, keys)) + (if k in m then m[k] else 0)
  {
    hide Sum;
    if k in m {
      SumRemove(Restrict(m, keys + {k}), k);
      assert Restrict(m, keys + {k}) - {k} == Restrict(m, keys);
    } else {
      assert Restrict(m, keys + {k}) == Restrict(m, keys);
    }
  }

  lemma {:induction false} SumSplit(m: map<Stem, nat>, a: set<Stem>, b: set<Stem>)
    requires a !! b && m.Keys <= a + b
    ensures Sum(m) == Sum(Restrict(m, a)) + Sum(Restrict(m, b))
    decreases |m|
  {
    hide Sum;
    if m == map[] {
      assert Restrict(m, a) == map[] && Restrict(m, b) == map[];
      SumEmpty();
    } else {
      var k :| k in m;
      var m' := m - {k};
      assert |m'| < |m| by { assert m'.Keys == m.Keys - {k}; }
      SumSplit(m', a, b);
      SumRemove(m, k);
      var mine, other := if k in a then a else b, if k in a then b else a;
      RestrictRemove(m, mine, other, k);
      hide Restrict;
      SumRemove(Restrict(m, mine), k);
    }
  }

  lemma RestrictRemove(m: map<Stem, nat>, mine: set<Stem>, other: set<Stem>, k: Stem)
    requires k in m && k in mine && k !in other
    ensures k in Restrict(m, mine) && Restrict(m, mine)[k] == m[k]
    ensures Restrict(m, mine) - {k} == Restrict(m - {k}, mine) && Restrict(m, other) == Restrict(m - {k}, other)
  {}

  // ---------------------------------------------------------------- what a pass reports

  datatype Report = Report(
    removedBodies: nat, removedSidecars: nat, prunedStaleSources: nat, freedBytes: nat,
    remainingBodies: nat, remainingSidecars: nat, remainingSources: nat)

  /** Sources per parseable sidecar. */
  ghost function SourceCounts(d: Dir): map<Stem, nat> {
    map s | s in d.sidecars && d.sidecars[s].Doc? :: |d.sidecars[s].sources|
  }

  ghost function FreshCounts(d: Dir, cutoff: nat): map<Stem, nat> {
    map s | s in d.sidecars && d.sidecars[s].Doc? :: |FreshOf(d.sidecars[s].sources, cutoff)|
  }

  /** Stale sources per paired parseable sidecar. */
  ghost function StaleCounts(d: Dir, cutoff: nat): map<Stem, nat> {
    map s | s in d.sidecars && s in d.bodies && d.sidecars[s].Doc? ::
      |d.sidecars[s].sources| - FreshLen(d.sidecars[s].sources, cutoff)
  }

  ghost function FreshLen(sources: seq<Source>, cutoff: nat): (n: nat)
    ensures n == |FreshOf(sources, cutoff)| <= |sources|
  {
    FreshShorter(sources, cutoff);
    |FreshOf(sources, cutoff)|
  }

  lemma {:induction false} FreshShorter(sources: seq<Source>, cutoff: nat)
    ensures |FreshOf(sources, cutoff)| <= |sources|
    ensures |FreshOf(sources, cutoff)| == |sources| <==> FreshOf(sources, cutoff) == sources
    ensures FreshOf(sources, cutoff) == sources <==> forall i :: 0 <= i < |sources| ==> sources[i].lastSeen >= cutoff
  {
    if sources != [] {
      var n := |sources| - 1;
      FreshShorter(sources[..n], cutoff);
      assert sources == sources[..n] + [sources[n]];
    }
  }

  /** The report, told by the corpus before and after. */
  ghost predicate ReportsOn(r: Report, d: Dir, cutoff: nat) {
    var after := Pruned(d, cutoff);
    && r.remainingBodies == |after.bodies| && r.removedBodies + |after.bodies| == |d.bodies|
    && r.remainingSidecars == |after.sidecars| && r.removedSidecars + |after.sidecars| == |d.sidecars|
    && r.freedBytes + Sum(after.bodies) == Sum(d.bodies)
    && r.prunedStaleSources == Sum(StaleCounts(d, cutoff))
    && r.remainingSources == Sum(SourceCounts(after))
  }

  /** Stale sources stripped from sidecars that keep fresh ones. */
  ghost function StrippedCounts(d: Dir, cutoff: nat): map<Stem, nat> {
    map s | s in d.sidecars && Live(d, cutoff, s) && d.sidecars[s].Doc? ::
      |d.sidecars[s].sources| - FreshLen(d.sidecars[s].sources, cutoff)
  }

  /** Paired documents that a pass removes whole. */
  ghost predicate Emptied(d: Dir, cutoff: nat, s: Stem) {
    s in d.sidecars && s in d.bodies && d.sidecars[s].Doc? && FreshOf(d.sidecars[s].sources, cutoff) == []
  }

  /** The reported count of stripped sources is that of the surviving sidecars exactly when no entry that
      is removed whole had any source; otherwise it is larger. */
  lemma StrippedCountIff(r: Report, d: Dir, cutoff: nat)
    requires ReportsOn(r, d, cutoff)
    ensures Sum(StrippedCounts(d, cutoff)) <= r.prunedStaleSources
    ensures r.prunedStaleSources == Sum(StrippedCounts(d, cutoff)) <==>
              forall s :: Emptied(d, cutoff, s) ==> d.sidecars[s].sources == []
  {
    var all := StaleCounts(d, cutoff);
    var live := set s | s in all && Live(d, cutoff, s);
    var gone := set s | s in all && !Live(d, cutoff, s);
    assert Restrict(all, live) == StrippedCounts(d, cutoff);
    forall s ensures s in gone <==> Emptied(d, cutoff, s) {}
    forall s <- gone ensures all[s] == |d.sidecars[s].sources| {}
    hide Sum, StrippedCounts, StaleCounts, Pruned;
    SumSplit(all, live, gone);
    SumZeroIff(Restrict(all, gone));
  }

  lemma {:induction false} SumZeroIff(m: map<Stem, nat>)
    ensures Sum(m) == 0 <==> forall s <- m :: m[s] == 0
    decreases |m|
  {
    if m != map[] {
      var k :| k in m;
      assert |m - {k}| < |m| by { assert (m - {k}).Keys == m.Keys - {k}; }
      var rest := m - {k};
      assert forall s <- m :: s == k || (s in rest && rest[s] == m[s]);
      assert forall s <- rest :: s in m && rest[s] == m[s];
      SumZeroIff(rest);
      SumRemove(m, k);
      hide Sum;
    }
  }

  /** One document with one stale source: reported as stripped, though no sidecar survives. */
  lemma EmptiedCounted(body: nat, hash: Stem, url: string, seen: nat, cutoff: nat, r: Report)
    requires seen < cutoff
    requires ReportsOn(r, Dir(map["a" := body], map["a" := Doc(hash, [Source(url, seen)])]), cutoff)
    ensures r.prunedStaleSources > 0 && r.remainingSidecars == 0
  {
    var sources := [Source(url, seen)];
    var d := Dir(map["a" := body], map["a" := Doc(hash, sources)]);
    assert sources[..0] == [];
    assert FreshOf(sources, cutoff) == [] by { assert FreshOf(sources[..0], cutoff) == []; }
    assert Emptied(d, cutoff, "a");
    assert Pruned(d, cutoff).sidecars == map[];
    StrippedCountIff(r, d, cutoff);
  }

  // ---------------------------------------------------------------- what a pass achieves

  ghost predicate NoOrphans(d: Dir) {
    d.bodies.Keys == d.sidecars.Keys
  }

  ghost predicate NoStale(d: Dir, cutoff: nat) {
    forall s <- d.sidecars :: d.sidecars[s].Doc? ==>
      && d.sidecars[s].sources != []
      && forall i :: 0 <= i < |d.sidecars[s].sources| ==> d.sidecars[s].sources[i].lastSeen >= cutoff
  }

  /** `at` lists, in order, the positions of the fresh sources, and `kept` what stands there. */
  ghost predicate PicksFresh(sources: seq<Source>, cutoff: nat, at: seq<nat>, kept: seq<Source>) {
    && |at| == |kept|
    && (forall k :: 0 <= k < |at| ==> at[k] < |sources| && kept[k] == sources[at[k]])
    && (forall k, l :: 0 <= k < l < |at| ==> at[k] < at[l])
    && (forall k :: 0 <= k < |at| ==> kept[k].lastSeen >= cutoff)
    && (forall i :: 0 <= i < |sources| && sources[i].lastSeen >= cutoff ==> i in at)
  }

  lemma PicksGrow(sources: seq<Source>, last: Source, cutoff: nat, at: seq<nat>, kept: seq<Source>)
    requires PicksFresh(sources, cutoff, at, kept)
    ensures last.lastSeen >= cutoff ==> PicksFresh(sources + [last], cutoff, at + [|sources|], kept + [last])
    ensures last.lastSeen < cutoff ==> PicksFresh(sources + [last], cutoff, at, kept)
  {}

  /** Filtering keeps exactly the fresh sources, in their order. */
  lemma {:induction false} FreshPositions(sources: seq<Source>, cutoff: nat) returns (at: seq<nat>)
    ensures PicksFresh(sources, cutoff, at, FreshOf(sources, cutoff))
  {
    if sources == [] {
      at := [];
    } else {
      hide PicksFresh;
      var n := |sources| - 1;
      at := FreshPositions(sources[..n], cutoff);
      PicksGrow(sources[..n], sources[n], cutoff, at, FreshOf(sources[..n], cutoff));
      assert sources == sources[..n] + [sources[n]];
      if sources[n].lastSeen >= cutoff {
        at := at + [n];
      }
    }
  }

  lemma FreshOfFresh(sources: seq<Source>, cutoff: nat)
    ensures forall i :: 0 <= i < |FreshOf(sources, cutoff)| ==> FreshOf(sources, cutoff)[i].lastSeen >= cutoff
    ensures FreshOf(FreshOf(sources, cutoff), cutoff) == FreshOf(sources, cutoff)
  {
    var at := FreshPositions(sources, cutoff);
    FreshShorter(FreshOf(sources, cutoff), cutoff);
  }

  /** After a pass nothing is orphaned and nothing parseable is stale; unparseable pairs are as they
      were, and an unparseable sidecar goes exactly when it has no body; every other surviving body is
      as it was and its sidecar has exactly its fresh sources. */
  lemma PruneAchieves(d: Dir, cutoff: nat)
    ensures var after := Pruned(d, cutoff);
            && NoOrphans(after) && NoStale(after, cutoff)
            && (forall s :: s in d.bodies && s in d.sidecars && d.sidecars[s].Unparsed? ==>
                  && s in after.bodies && after.bodies[s] == d.bodies[s]
                  && s in after.sidecars && after.sidecars[s] == Unparsed)
            && (forall s :: s in d.sidecars && d.sidecars[s].Unparsed? ==> (s in after.sidecars <==> s in d.bodies))
            && (forall s <- after.bodies :: s in d.bodies && after.bodies[s] == d.bodies[s])
            && (forall s :: s in d.bodies && s in d.sidecars && d.sidecars[s].Doc? ==>
                  (s in after.sidecars <==>
                     exists i :: 0 <= i < |d.sidecars[s].sources| && d.sidecars[s].sources[i].lastSeen >= cutoff))
  {
    forall s <- d.sidecars | d.sidecars[s].Doc? ensures
        && (forall i :: 0 <= i < |FreshOf(d.sidecars[s].sources, cutoff)| ==>
              FreshOf(d.sidecars[s].sources, cutoff)[i].lastSeen >= cutoff)
        && (FreshOf(d.sidecars[s].sources, cutoff) != [] <==>
              exists i :: 0 <= i < |d.sidecars[s].sources| && d.sidecars[s].sources[i].lastSeen >= cutoff)
    {
      FreshOfFresh(d.sidecars[s].sources, cutoff);
      SomeFresh(d.sidecars[s].sources, cutoff);
    }
  }

  lemma SomeFresh(sources: seq<Source>, cutoff: nat)
    ensures FreshOf(sources, cutoff) != [] <==> exists i :: 0 <= i < |sources| && sources[i].lastSeen >= cutoff
  {
    var at := FreshPositions(sources, cutoff);
    if i :| 0 <= i < |sources| && sources[i].lastSeen >= cutoff {
      assert i in at;
    }
    if at != [] {
      assert sources[at[0]].lastSeen >= cutoff;
    }
  }

  /** A second pass with the same cutoff finds nothing to do. */
  lemma PruneIdempotent(d: Dir, cutoff: nat)
    ensures Pruned(Pruned(d, cutoff), cutoff) == Pruned(d, cutoff)
  {
    var after := Pruned(d, cutoff);
    forall s <- after.sidecars ensures Live(after, cutoff, s) && Stripped(after.sidecars[s], cutoff) == after.sidecars[s] {
      if after.sidecars[s].Doc? { FreshOfFresh(d.sidecars[s].sources, cutoff); }
    }
    assert after.bodies.Keys == after.sidecars.Keys;
    var twice := Pruned(after, cutoff);
    assert twice.bodies == after.bodies;
    assert twice.sidecars == after.sidecars;
  }
}
