/** The pruning pass and the analysis, as they walk a corpus directory. */
module CorpusPass {
  import opened Wrappers
  import opened Corpus

  // ---------------------------------------------------------------- analysis

  datatype Analysis = Analysis(
    bodies: nat, totalBytes: nat, sidecars: nat, parseErrors: nat, orphanBodies: nat, orphanSidecars: nat,
    totalSources: nat, freshSources: nat, staleSources: nat, survey: Survey)

  /** The age range of the sources, and how many each host has. */
  datatype Survey = Survey(oldest: Option<nat>, newest: Option<nat>, hosts: map<string, nat>)

  /** The host of a URL, or what stands for an unknown one. */
  type HostFn = string -> string

  ghost predicate Describes(a: Analysis, d: Dir, cutoff: nat) {
    && a.bodies == |d.bodies| && a.totalBytes == Sum(d.bodies) && a.sidecars == |d.sidecars|
    && a.parseErrors == |Unreadable(d, d.sidecars.Keys)|
    && a.orphanBodies == |LoneBodies(d, d.bodies.Keys)|
    && a.orphanSidecars == |LoneSidecars(d, d.sidecars.Keys)|
    && a.totalSources == Sum(SourceCounts(d))
    && a.freshSources == Sum(FreshCounts(d, cutoff))
    && a.freshSources + a.staleSources == a.totalSources
  }

  ghost function Unreadable(d: Dir, among: set<Stem>): set<Stem> {
    set s | s in among && s in d.sidecars && d.sidecars[s].Unparsed?
  }

  ghost function LoneSidecars(d: Dir, among: set<Stem>): set<Stem> {
    set s | s in among && s in d.sidecars && s !in d.bodies && d.sidecars[s].Doc?
  }

  ghost function LoneBodies(d: Dir, among: set<Stem>): set<Stem> {
    set s | s in among && s in d.bodies && s !in d.sidecars
  }

  // What a survey of some sources must say.

  ghost predicate Spans(v: Survey, seen: set<nat>) {
    && (seen == {} ==> v.oldest == None && v.newest == None)
    && (seen != {} ==>
          && v.oldest.Some? && v.oldest.value in seen && (forall x <- seen :: v.oldest.value <= x)
          && v.newest.Some? && v.newest.value in seen && (forall x <- seen :: x <= v.newest.value))
  }

  function HostTally(v: Survey, host: string): nat {
    if host in v.hosts then v.hosts[host] else 0
  }

  ghost function Ages(sources: seq<Source>): set<nat> {
    set i | 0 <= i < |sources| :: sources[i].lastSeen
  }

  function CountHost(sources: seq<Source>, hostOf: HostFn, host: string): nat {
    if sources == [] then 0
    else
      var n := |sources| - 1;
      CountHost(sources[..n], hostOf, host) + (if hostOf(sources[n].url) == host then 1 else 0)
  }

  /** `v'` is `v` with these sources added, `v` having seen the ages `seen`. */
  ghost predicate Adds(v: Survey, v': Survey, sources: seq<Source>, hostOf: HostFn, seen: set<nat>) {
    && Spans(v', seen + Ages(sources))
    && (forall host <- v'.hosts :: v'.hosts[host] > 0)
    && forall host :: HostTally(v', host) == HostTally(v, host) + CountHost(sources, hostOf, host)
  }

  function Noted(v: Survey, src: Source, host: string): Survey {
    Survey(Some(if v.oldest.Some? && v.oldest.value < src.lastSeen then v.oldest.value else src.lastSeen),
           Some(if v.newest.Some? && v.newest.value > src.lastSeen then v.newest.value else src.lastSeen),
           v.hosts[host := HostTally(v, host) + 1])
  }

  lemma NoteOne(v: Survey, v': Survey, sources: seq<Source>, hostOf: HostFn, seen: set<nat>, i: nat)
    requires i < |sources| && Adds(v, v', sources[..i], hostOf, seen)
    ensures Adds(v, Noted(v', sources[i], hostOf(sources[i].url)), sources[..i + 1], hostOf, seen)
  {
    assert sources[..i + 1][..i] == sources[..i];
    NoteAge(v', sources[i], hostOf(sources[i].url), seen + Ages(sources[..i]));
    assert sources[..i + 1] == sources[..i] + [sources[i]];
    AgesGrow(sources[..i], sources[i]);
    assert seen + Ages(sources[..i]) + {sources[i].lastSeen} == seen + Ages(sources[..i + 1]);
    hide Ages, Spans;
  }

  lemma AgesGrow(sources: seq<Source>, src: Source)
    ensures Ages(sources + [src]) == Ages(sources) + {src.lastSeen}
  {
    var all := sources + [src];
    forall x <- Ages(sources) ensures x in Ages(all) {
      var k :| 0 <= k < |sources| && sources[k].lastSeen == x;
      assert all[k].lastSeen == x;
    }
    assert all[|sources|].lastSeen in Ages(all);
  }

  lemma NoteAge(v: Survey, src: Source, host: string, seen: set<nat>)
    requires Spans(v, seen)
    ensures Spans(Noted(v, src, host), seen + {src.lastSeen})
  {}

  method CountSources(sources: seq<Source>, cutoff: nat, hostOf: HostFn, v: Survey, ghost seen: set<nat>)
    returns (total: nat, newer: nat, older: nat, v': Survey)
    requires Spans(v, seen) && forall host <- v.hosts :: v.hosts[host] > 0
    ensures total == |sources| && newer == |FreshOf(sources, cutoff)| && newer + older == total
    ensures Adds(v, v', sources, hostOf, seen)
  {
    hide Adds, Noted;
    total, newer, older, v' := 0, 0, 0, v;
    NothingAdded(v, hostOf, seen);
    assert sources[..0] == [];
    for i := 0 to |sources|
      invariant total == i && newer == |FreshOf(sources[..i], cutoff)| && newer + older == total
      invariant Adds(v, v', sources[..i], hostOf, seen)
    {
      assert sources[..i + 1][..i] == sources[..i];
      total := total + 1;
      if sources[i].lastSeen >= cutoff {
        newer := newer + 1;
      } else {
        older := older + 1;
      }
      NoteOne(v, v', sources, hostOf, seen, i);
      v' := Noted(v', sources[i], hostOf(sources[i].url));
    }
    assert sources[..|sources|] == sources;
  }

  lemma NothingAdded(v: Survey, hostOf: HostFn, seen: set<nat>)
    requires Spans(v, seen) && forall host <- v.hosts :: v.hosts[host] > 0
    ensures Adds(v, v, [], hostOf, seen)
  {
    assert seen + Ages([]) == seen;
  }

  // The survey once the sidecars in `done` have been looked at.

  ghost function AgesIn(d: Dir, done: set<Stem>): set<nat> {
    set s, x | s in done && s in d.sidecars && d.sidecars[s].Doc? && x in Ages(d.sidecars[s].sources) :: x
  }

  ghost function HostCounts(d: Dir, hostOf: HostFn, host: string): map<Stem, nat> {
    map s | s in d.sidecars && d.sidecars[s].Doc? :: CountHost(d.sidecars[s].sources, hostOf, host)
  }

  ghost predicate Surveyed(d: Dir, hostOf: HostFn, done: set<Stem>, v: Survey) {
    && Spans(v, AgesIn(d, done))
    && (forall host <- v.hosts :: v.hosts[host] > 0)
    && forall host :: HostTally(v, host) == Sum(Restrict(HostCounts(d, hostOf, host), done))
  }

  lemma NothingSurveyed(d: Dir, hostOf: HostFn)
    ensures Surveyed(d, hostOf, {}, Survey(None, None, map[]))
  {
    assert AgesIn(d, {}) == {};
    forall host ensures Sum(Restrict(HostCounts(d, hostOf, host), {})) == 0 {
      assert Restrict(HostCounts(d, hostOf, host), {}) == map[];
      SumEmpty();
    }
  }

  lemma SurveyOne(d: Dir, hostOf: HostFn, done: set<Stem>, s: Stem, v: Survey, v': Survey)
    requires s !in done && s in d.sidecars && Surveyed(d, hostOf, done, v)
    requires d.sidecars[s].Doc? ==> Adds(v, v', d.sidecars[s].sources, hostOf, AgesIn(d, done))
    requires d.sidecars[s].Unparsed? ==> v' == v
    ensures Surveyed(d, hostOf, done + {s}, v')
  {
    assert AgesIn(d, done + {s})
        == AgesIn(d, done) + (if d.sidecars[s].Doc? then Ages(d.sidecars[s].sources) else {});
    forall host ensures HostTally(v', host) == Sum(Restrict(HostCounts(d, hostOf, host), done + {s})) {
      SumRestrictAdd(HostCounts(d, hostOf, host), done, s);
    }
    hide AgesIn, HostCounts, Spans, Ages, Sum, CountHost;
  }

  lemma AllSurveyed(d: Dir, hostOf: HostFn, v: Survey)
    requires Surveyed(d, hostOf, d.sidecars.Keys, v)
    ensures Surveys(v, d, hostOf)
  {
    forall host ensures HostTally(v, host) == Sum(HostCounts(d, hostOf, host)) {
      assert Restrict(HostCounts(d, hostOf, host), d.sidecars.Keys) == HostCounts(d, hostOf, host);
    }
  }

  /** The age range is that of all sources of the corpus, and every host that has sources is listed with their
      number. */
  ghost predicate Surveys(v: Survey, d: Dir, hostOf: HostFn) {
    && Spans(v, AgesIn(d, d.sidecars.Keys))
    && forall host ::
         && (host in v.hosts <==> Sum(HostCounts(d, hostOf, host)) > 0)
         && (host in v.hosts ==> v.hosts[host] == Sum(HostCounts(d, hostOf, host)))
  }

  datatype Tally = Tally(parseErrors: nat, orphans: nat, total: nat, newer: nat, older: nat)

  method AnalyzeSidecars(d: Dir, cutoff: nat, hostOf: HostFn) returns (t: Tally, v: Survey)
    ensures Tallied(d, cutoff, d.sidecars.Keys, t) && Surveyed(d, hostOf, d.sidecars.Keys, v)
  {
    hide Tallied, Surveyed;
    t, v := Tally(0, 0, 0, 0, 0), Survey(None, None, map[]);
    var rest := d.sidecars.Keys;
    ghost var done: set<Stem> := {};
    NothingTallied(d, cutoff);
    NothingSurveyed(d, hostOf);
    while rest != {}
      invariant rest !! done && rest + done == d.sidecars.Keys
      invariant Tallied(d, cutoff, done, t) && Surveyed(d, hostOf, done, v)
    {
      var stem :| stem in rest;
      t, v := AnalyzeSidecar(d, cutoff, hostOf, stem, t, v, done);
      rest := rest - {stem};
      done := done + {stem};
    }
    assert done == d.sidecars.Keys;
  }

  method AnalyzeSidecar(d: Dir, cutoff: nat, hostOf: HostFn, stem: Stem, t: Tally, v: Survey, ghost done: set<Stem>)
    returns (t': Tally, v': Survey)
    requires stem in d.sidecars && stem !in done && Tallied(d, cutoff, done, t) && Surveyed(d, hostOf, done, v)
    ensures Tallied(d, cutoff, done + {stem}, t') && Surveyed(d, hostOf, done + {stem}, v')
  {
    TallyOne(d, cutoff, done, stem, t);
    assert Spans(v, AgesIn(d, done)) && forall host <- v.hosts :: v.hosts[host] > 0;
    hide Tallied, Surveyed, Spans, Adds, AgesIn;
    t', v' := t, v;
    if d.sidecars[stem].Unparsed? {
      SurveyOne(d, hostOf, done, stem, v, v');
      t' := t.(parseErrors := t.parseErrors + 1);
      return;
    }
    if stem !in d.bodies {
      t' := t'.(orphans := t'.orphans + 1);
    }
    var total, newer, older;
    total, newer, older, v' := CountSources(d.sidecars[stem].sources, cutoff, hostOf, v, AgesIn(d, done));
    SurveyOne(d, hostOf, done, stem, v, v');
    t' := t'.(total := t'.total + total, newer := t'.newer + newer, older := t'.older + older);
  }

  /** The counters once the sidecars in `done` have been looked at. */
  ghost predicate Tallied(d: Dir, cutoff: nat, done: set<Stem>, t: Tally) {
    && t.parseErrors == |Unreadable(d, done)| && t.orphans == |LoneSidecars(d, done)|
    && t.total == Sum(Restrict(SourceCounts(d), done)) && t.newer == Sum(Restrict(FreshCounts(d, cutoff), done))
    && t.newer + t.older == t.total
  }

  lemma NothingTallied(d: Dir, cutoff: nat)
    ensures Tallied(d, cutoff, {}, Tally(0, 0, 0, 0, 0))
  {
    assert Unreadable(d, {}) == {} && LoneSidecars(d, {}) == {};
    assert Restrict(SourceCounts(d), {}) == map[] && Restrict(FreshCounts(d, cutoff), {}) == map[];
    SumEmpty();
  }

  lemma TallyOne(d: Dir, cutoff: nat, done: set<Stem>, s: Stem, t: Tally)
    requires s !in done && s in d.sidecars && Tallied(d, cutoff, done, t)
    ensures d.sidecars[s].Unparsed? ==> Tallied(d, cutoff, done + {s}, t.(parseErrors := t.parseErrors + 1))
    ensures d.sidecars[s].Doc? ==>
              var n := FreshLen(d.sidecars[s].sources, cutoff);
              Tallied(d, cutoff, done + {s},
                      Tally(t.parseErrors, t.orphans + (if s in d.bodies then 0 else 1),
                            t.total + |d.sidecars[s].sources|, t.newer + n, t.older + |d.sidecars[s].sources| - n))
  {
    hide Sum, FreshOf;
    SumRestrictAdd(SourceCounts(d), done, s);
    SumRestrictAdd(FreshCounts(d, cutoff), done, s);
    OneMore(d, done, s);
  }

  lemma AllTallied(d: Dir, cutoff: nat, t: Tally)
    requires Tallied(d, cutoff, d.sidecars.Keys, t)
    ensures t.parseErrors == |Unreadable(d, d.sidecars.Keys)| && t.orphans == |LoneSidecars(d, d.sidecars.Keys)|
    ensures t.total == Sum(SourceCounts(d)) && t.newer == Sum(FreshCounts(d, cutoff)) && t.newer + t.older == t.total
  {
    hide Sum, FreshOf;
    assert Restrict(SourceCounts(d), d.sidecars.Keys) == SourceCounts(d);
    assert Restrict(FreshCounts(d, cutoff), d.sidecars.Keys) == FreshCounts(d, cutoff);
  }

  lemma OneMoreUnreadable(d: Dir, done: set<Stem>, s: Stem)
    requires s !in done && s in d.sidecars
    ensures s !in Unreadable(d, done)
    ensures Unreadable(d, done + {s}) == Unreadable(d, done) + (if d.sidecars[s].Unparsed? then {s} else {})
  {}

  lemma OneMoreLone(d: Dir, done: set<Stem>, s: Stem)
    requires s !in done && s in d.sidecars
    ensures s !in LoneSidecars(d, done)
    ensures LoneSidecars(d, done + {s})
         == LoneSidecars(d, done) + (if s !in d.bodies && d.sidecars[s].Doc? then {s} else {})
  {}

  lemma OneMore(d: Dir, done: set<Stem>, s: Stem)
    requires s !in done && s in d.sidecars
    ensures |Unreadable(d, done + {s})| == |Unreadable(d, done)| + (if d.sidecars[s].Unparsed? then 1 else 0)
    ensures |LoneSidecars(d, done + {s})|
         == |LoneSidecars(d, done)| + (if s !in d.bodies && d.sidecars[s].Doc? then 1 else 0)
  {
    OneMoreUnreadable(d, done, s);
    OneMoreLone(d, done, s);
    hide Unreadable, LoneSidecars;
  }

  method AnalyzeBodies(d: Dir) returns (orphans: nat, bytes: nat)
    ensures orphans == |LoneBodies(d, d.bodies.Keys)| && bytes == Sum(d.bodies)
  {
    hide Sum, LoneBodies, Restrict;
    orphans, bytes := 0, 0;
    var rest := d.bodies.Keys;
    ghost var done: set<Stem> := {};
    BodiesStart(d);
    while rest != {}
      invariant rest !! done && rest + done == d.bodies.Keys
      invariant orphans == |LoneBodies(d, done)| && bytes == Sum(Restrict(d.bodies, done))
    {
      var name :| name in rest;
      SumRestrictAdd(d.bodies, done, name);
      OneMoreBody(d, done, name);
      rest := rest - {name};
      done := done + {name};
      if name !in d.sidecars {
        orphans := orphans + 1;
      }
      bytes := bytes + d.bodies[name];
    }
    assert done == d.bodies.Keys;
  }

  lemma BodiesStart(d: Dir)
    ensures LoneBodies(d, {}) == {} && Sum(Restrict(d.bodies, {})) == 0
    ensures Restrict(d.bodies, d.bodies.Keys) == d.bodies
  {
    assert Restrict(d.bodies, {}) == map[];
    SumEmpty();
  }

  lemma OneMoreBody(d: Dir, done: set<Stem>, s: Stem)
    requires s !in done && s in d.bodies
    ensures |LoneBodies(d, done + {s})| == |LoneBodies(d, done)| + (if s !in d.sidecars then 1 else 0)
  {
    assert LoneBodies(d, done + {s}) == LoneBodies(d, done) + (if s !in d.sidecars then {s} else {});
  }

  method Analyze(d: Dir, cutoff: nat, hostOf: HostFn) returns (a: Analysis)
    ensures Describes(a, d, cutoff) && Surveys(a.survey, d, hostOf)
  {
    hide Sum, Unreadable, LoneBodies, LoneSidecars, SourceCounts, FreshCounts, Tallied, Surveyed, Surveys;
    var t, v := AnalyzeSidecars(d, cutoff, hostOf);
    AllTallied(d, cutoff, t);
    AllSurveyed(d, hostOf, v);
    var orphanBodies, bytes := AnalyzeBodies(d);
    a := Analysis(|d.bodies|, bytes, |d.sidecars|, t.parseErrors, orphanBodies, t.orphans, t.total, t.newer, t.older,
                  v);
  }

  /** What a pass reported is what an analysis with the same cutoff then finds. */
  lemma ReportMatchesAnalysis(d: Dir, cutoff: nat, r: Report, a: Analysis)
    requires ReportsOn(r, d, cutoff) && Describes(a, Pruned(d, cutoff), cutoff)
    ensures a.bodies == r.remainingBodies && a.sidecars == r.remainingSidecars
    ensures a.totalSources == a.freshSources == r.remainingSources
    ensures a.orphanBodies == a.orphanSidecars == a.staleSources == 0
    ensures a.totalBytes + r.freedBytes == Sum(d.bodies)
  {
    PruneAchieves(d, cutoff);
    CleanCounts(Pruned(d, cutoff), cutoff);
    hide Pruned, Sum, Unreadable, LoneBodies, LoneSidecars, SourceCounts, FreshCounts, StaleCounts;
  }

  /** What an analysis finds in a corpus without orphans and without stale sources. */
  lemma CleanCounts(d: Dir, cutoff: nat)
    requires NoOrphans(d) && NoStale(d, cutoff)
    ensures FreshCounts(d, cutoff) == SourceCounts(d)
    ensures LoneBodies(d, d.bodies.Keys) == {} && LoneSidecars(d, d.sidecars.Keys) == {}
  {
    forall s <- d.sidecars | d.sidecars[s].Doc?
      ensures |FreshOf(d.sidecars[s].sources, cutoff)| == |d.sidecars[s].sources|
    {
      FreshShorter(d.sidecars[s].sources, cutoff);
    }
  }

  /** A second pass reports that it did nothing. */
  lemma SecondPassIdle(d: Dir, cutoff: nat, r: Report)
    requires ReportsOn(r, Pruned(d, cutoff), cutoff)
    ensures r.removedBodies == r.removedSidecars == r.prunedStaleSources == r.freedBytes == 0
  {
    PruneIdempotent(d, cutoff);
    PruneAchieves(d, cutoff);
    NothingStale(Pruned(d, cutoff), cutoff);
    hide Pruned, Sum, StaleCounts, SourceCounts, NoStale;
  }

  lemma NothingStale(d: Dir, cutoff: nat)
    requires NoStale(d, cutoff)
    ensures Sum(StaleCounts(d, cutoff)) == 0
  {
    forall s <- StaleCounts(d, cutoff) ensures StaleCounts(d, cutoff)[s] == 0 {
      FreshShorter(d.sidecars[s].sources, cutoff);
    }
    SumZeroIff(StaleCounts(d, cutoff));
  }

  // ---------------------------------------------------------------- planning

  datatype Plan = Plan(
    removeBodies: seq<(Stem, nat)>, removeSidecars: seq<Stem>, rewrites: seq<Sidecar>,
    prunedStale: nat, remainingSources: nat)

  /** Bodies to go, once the sidecars in `done` have been looked at. */
  ghost function DeadBodies(d: Dir, cutoff: nat, done: set<Stem>): set<Stem> {
    set s | s in d.bodies && (s !in d.sidecars || (s in done && !Live(d, cutoff, s)))
  }

  ghost function DeadSidecars(d: Dir, cutoff: nat, done: set<Stem>): set<Stem> {
    set s | s in done && s in d.sidecars && !Live(d, cutoff, s)
  }

  ghost predicate NamesBodies(rs: seq<(Stem, nat)>, d: Dir, dead: set<Stem>) {
    && dead <= d.bodies.Keys
    && |rs| == |dead|
    && (forall s :: s in dead <==> exists i :: 0 <= i < |rs| && rs[i].0 == s)
    && SizeSum(rs) == Sum(Restrict(d.bodies, dead))
  }

  function SizeSum(rs: seq<(Stem, nat)>): nat {
    if rs == [] then 0 else SizeSum(rs[..|rs| - 1]) + rs[|rs| - 1].1
  }

  ghost predicate NamesSidecars(rs: seq<Stem>, dead: set<Stem>) {
    |rs| == |dead| && forall s :: s in dead <==> s in rs
  }

  /** Survives, but not with all its sources. */
  ghost predicate Loses(d: Dir, cutoff: nat, s: Stem) {
    Live(d, cutoff, s) && Stripped(d.sidecars[s], cutoff) != d.sidecars[s]
  }

  /** The rewrites are the stripped documents of those in `done` that lose sources. */
  ghost predicate NamesRewrites(rs: seq<Sidecar>, d: Dir, cutoff: nat, done: set<Stem>) {
    && (forall x <- rs :: exists s :: s in done && Loses(d, cutoff, s) && x == Stripped(d.sidecars[s], cutoff))
    && (forall s <- done :: Loses(d, cutoff, s) ==> Stripped(d.sidecars[s], cutoff) in rs)
  }

  lemma NameOneBody(rs: seq<(Stem, nat)>, d: Dir, dead: set<Stem>, s: Stem)
    requires NamesBodies(rs, d, dead) && s !in dead && s in d.bodies
    ensures NamesBodies(rs + [(s, d.bodies[s])], d, dead + {s})
  {
    var rs' := rs + [(s, d.bodies[s])];
    assert rs'[..|rs|] == rs;
    SumRestrictAdd(d.bodies, dead, s);
    forall x ensures x in dead + {s} <==> exists i :: 0 <= i < |rs'| && rs'[i].0 == x {
      if x in dead {
        var i :| 0 <= i < |rs| && rs[i].0 == x;
        assert rs'[i].0 == x;
      }
      if x == s { assert rs'[|rs|].0 == s; }
      if i :| 0 <= i < |rs'| && rs'[i].0 == x {
        if i < |rs| { assert rs[i].0 == x; }
      }
    }
  }

  method PlanBodies(d: Dir, ghost cutoff: nat) returns (rs: seq<(Stem, nat)>)
    ensures NamesBodies(rs, d, DeadBodies(d, cutoff, {}))
  {
    hide NamesBodies;
    rs := [];
    var rest := d.bodies.Keys;
    ghost var dead: set<Stem> := {};
    NameNone(d);
    while rest != {}
      invariant rest <= d.bodies.Keys
      invariant dead == set s | s in d.bodies && s !in rest && s !in d.sidecars
      invariant NamesBodies(rs, d, dead)
    {
      var name :| name in rest;
      rest := rest - {name};
      if name !in d.sidecars {
        NameOneBody(rs, d, dead, name);
        rs := rs + [(name, d.bodies[name])];
        dead := dead + {name};
      }
    }
    assert dead == DeadBodies(d, cutoff, {});
  }

  lemma NameNone(d: Dir)
    ensures NamesBodies([], d, {})
  {
    assert Restrict(d.bodies, {}) == map[];
    SumEmpty();
  }

  /** Where planning stands once the sidecars in `done` have been looked at. */
  ghost predicate Planned(plan: Plan, d: Dir, cutoff: nat, done: set<Stem>) {
    && NamesBodies(plan.removeBodies, d, DeadBodies(d, cutoff, done))
    && NamesSidecars(plan.removeSidecars, DeadSidecars(d, cutoff, done))
    && NamesRewrites(plan.rewrites, d, cutoff, done)
    && plan.prunedStale == Sum(Restrict(StaleCounts(d, cutoff), done))
    && plan.remainingSources == Sum(Restrict(KeptCounts(d, cutoff), done))
  }

  /** Sources that stay, per surviving parseable sidecar. */
  ghost function KeptCounts(d: Dir, cutoff: nat): map<Stem, nat> {
    map s | s in d.sidecars && Live(d, cutoff, s) && d.sidecars[s].Doc? :: |FreshOf(d.sidecars[s].sources, cutoff)|
  }

  lemma CountOne(plan: Plan, d: Dir, cutoff: nat, done: set<Stem>, s: Stem, plan': Plan)
    requires Planned(plan, d, cutoff, done) && s !in done && s in d.sidecars
    requires plan'.prunedStale == plan.prunedStale + (if s in StaleCounts(d, cutoff) then StaleCounts(d, cutoff)[s] else 0)
    requires plan'.remainingSources
          == plan.remainingSources + (if s in KeptCounts(d, cutoff) then KeptCounts(d, cutoff)[s] else 0)
    requires NamesBodies(plan'.removeBodies, d, DeadBodies(d, cutoff, done + {s}))
    requires NamesSidecars(plan'.removeSidecars, DeadSidecars(d, cutoff, done + {s}))
    requires NamesRewrites(plan'.rewrites, d, cutoff, done + {s})
    ensures Planned(plan', d, cutoff, done + {s})
  {
    SumRestrictAdd(StaleCounts(d, cutoff), done, s);
    SumRestrictAdd(KeptCounts(d, cutoff), done, s);
  }

  lemma DeadGrow(d: Dir, cutoff: nat, done: set<Stem>, s: Stem)
    requires s !in done && s in d.sidecars
    ensures DeadSidecars(d, cutoff, done + {s}) == DeadSidecars(d, cutoff, done) + (if Live(d, cutoff, s) then {} else {s})
    ensures s !in DeadSidecars(d, cutoff, done) && s !in DeadBodies(d, cutoff, done)
    ensures DeadBodies(d, cutoff, done + {s})
         == DeadBodies(d, cutoff, done) + (if s in d.bodies && !Live(d, cutoff, s) then {s} else {})
  {}

  lemma NameOneSidecar(rs: seq<Stem>, dead: set<Stem>, s: Stem)
    requires NamesSidecars(rs, dead) && s !in dead
    ensures NamesSidecars(rs + [s], dead + {s})
  {}

  lemma RewriteOne(rs: seq<Sidecar>, d: Dir, cutoff: nat, done: set<Stem>, s: Stem)
    requires NamesRewrites(rs, d, cutoff, done) && s in d.sidecars
    ensures !Loses(d, cutoff, s) ==> NamesRewrites(rs, d, cutoff, done + {s})
    ensures Loses(d, cutoff, s) ==> NamesRewrites(rs + [Stripped(d.sidecars[s], cutoff)], d, cutoff, done + {s})
  {
    forall x <- rs ensures exists s' :: s' in done + {s} && Loses(d, cutoff, s') && x == Stripped(d.sidecars[s'], cutoff) {
      var s' :| s' in done && Loses(d, cutoff, s') && x == Stripped(d.sidecars[s'], cutoff);
      assert s' in done + {s};
    }
  }

  /** One sidecar: orphaned, unparseable, emptied, stripped, or fresh throughout. */
  method PlanSidecar(d: Dir, cutoff: nat, plan: Plan, stem: Stem, ghost done: set<Stem>) returns (plan': Plan)
    requires stem in d.sidecars && stem !in done && Planned(plan, d, cutoff, done)
    ensures Planned(plan', d, cutoff, done + {stem})
  {
    hide NamesBodies, NamesSidecars, NamesRewrites, Sum, DeadBodies, DeadSidecars, SizeSum;
    DeadGrow(d, cutoff, done, stem);
    RewriteOne(plan.rewrites, d, cutoff, done, stem);
    plan' := plan;
    if stem !in d.bodies {
      NameOneSidecar(plan.removeSidecars, DeadSidecars(d, cutoff, done), stem);
      plan' := plan'.(removeSidecars := plan'.removeSidecars + [stem]);
    } else if d.sidecars[stem].Doc? {
      var doc := d.sidecars[stem];
      var before := |doc.sources|;
      doc := doc.(sources := FreshOf(doc.sources, cutoff));
      FreshShorter(d.sidecars[stem].sources, cutoff);
      plan' := plan'.(prunedStale := plan'.prunedStale + (before - |doc.sources|));
      if doc.sources == [] {
        NameOneBody(plan.removeBodies, d, DeadBodies(d, cutoff, done), stem);
        NameOneSidecar(plan.removeSidecars, DeadSidecars(d, cutoff, done), stem);
        plan' := plan'.(removeBodies := plan'.removeBodies + [(stem, d.bodies[stem])],
                        removeSidecars := plan'.removeSidecars + [stem]);
      } else {
        plan' := plan'.(remainingSources := plan'.remainingSources + |doc.sources|);
        if before != |doc.sources| {
          plan' := plan'.(rewrites := plan'.rewrites + [doc]);
        }
      }
    }
    CountOne(plan, d, cutoff, done, stem, plan');
  }

  method MakePlan(d: Dir, cutoff: nat) returns (plan: Plan)
    ensures Planned(plan, d, cutoff, d.sidecars.Keys)
  {
    hide NamesBodies, Sum, Planned;
    var rs := PlanBodies(d, cutoff);
    plan := Plan(rs, [], [], 0, 0);
    NothingPlanned(plan, d, cutoff);
    var rest := d.sidecars.Keys;
    ghost var done: set<Stem> := {};
    while rest != {}
      invariant rest !! done && rest + done == d.sidecars.Keys
      invariant Planned(plan, d, cutoff, done)
    {
      var stem :| stem in rest;
      plan := PlanSidecar(d, cutoff, plan, stem, done);
      rest := rest - {stem};
      done := done + {stem};
    }
    assert done == d.sidecars.Keys;
  }

  lemma NothingPlanned(plan: Plan, d: Dir, cutoff: nat)
    requires NamesBodies(plan.removeBodies, d, DeadBodies(d, cutoff, {}))
    requires plan.removeSidecars == [] && plan.rewrites == [] && plan.prunedStale == plan.remainingSources == 0
    ensures Planned(plan, d, cutoff, {})
  {
    assert DeadSidecars(d, cutoff, {}) == {};
    assert Restrict(StaleCounts(d, cutoff), {}) == map[] && Restrict(KeptCounts(d, cutoff), {}) == map[];
    SumEmpty();
  }

  // ---------------------------------------------------------------- reporting and applying

  ghost function ReportFrom(plan: Plan, d: Dir): Report
    requires |plan.removeBodies| <= |d.bodies| && |plan.removeSidecars| <= |d.sidecars|
  {
    Report(|plan.removeBodies|, |plan.removeSidecars|, plan.prunedStale, SizeSum(plan.removeBodies),
           |d.bodies| - |plan.removeBodies|, |d.sidecars| - |plan.removeSidecars|, plan.remainingSources)
  }

  lemma SubsetSize(a: set<Stem>, b: set<Stem>)
    requires a <= b
    ensures |a| + |b - a| == |b|
  {
    assert b == a + (b - a);
  }

  lemma PlanReports(plan: Plan, d: Dir, cutoff: nat)
    requires Planned(plan, d, cutoff, d.sidecars.Keys)
    ensures |plan.removeBodies| <= |d.bodies| && |plan.removeSidecars| <= |d.sidecars|
    ensures ReportsOn(ReportFrom(plan, d), d, cutoff)
  {
    PlannedBodies(plan.removeBodies, d, cutoff);
    PlannedSidecars(plan.removeSidecars, d, cutoff);
    PlannedSources(plan, d, cutoff);
    hide *;
    ReportIs(plan, d, cutoff);
  }

  lemma PlannedBodies(rs: seq<(Stem, nat)>, d: Dir, cutoff: nat)
    requires NamesBodies(rs, d, DeadBodies(d, cutoff, d.sidecars.Keys))
    ensures |rs| + |Pruned(d, cutoff).bodies| == |d.bodies|
    ensures SizeSum(rs) + Sum(Pruned(d, cutoff).bodies) == Sum(d.bodies)
  {
    hide Sum, SizeSum, Pruned, DeadBodies, NamesBodies, Restrict;
    var dead, kept := DeadBodies(d, cutoff, d.sidecars.Keys), Pruned(d, cutoff).bodies.Keys;
    NamedTotals(rs, d, dead);
    BodiesSplit(d, cutoff);
    SubsetSize(dead, d.bodies.Keys);
    SumSplit(d.bodies, dead, kept);
  }

  lemma NamedTotals(rs: seq<(Stem, nat)>, d: Dir, dead: set<Stem>)
    requires NamesBodies(rs, d, dead)
    ensures dead <= d.bodies.Keys && |rs| == |dead| && SizeSum(rs) == Sum(Restrict(d.bodies, dead))
  {}

  lemma BodiesSplit(d: Dir, cutoff: nat)
    ensures Pruned(d, cutoff).bodies.Keys == d.bodies.Keys - DeadBodies(d, cutoff, d.sidecars.Keys)
    ensures Restrict(d.bodies, Pruned(d, cutoff).bodies.Keys) == Pruned(d, cutoff).bodies
    ensures Pruned(d, cutoff).bodies == d.bodies - DeadBodies(d, cutoff, d.sidecars.Keys)
  {}

  lemma PlannedSidecars(rs: seq<Stem>, d: Dir, cutoff: nat)
    requires NamesSidecars(rs, DeadSidecars(d, cutoff, d.sidecars.Keys))
    ensures |rs| + |Pruned(d, cutoff).sidecars| == |d.sidecars|
  {
    var dead := DeadSidecars(d, cutoff, d.sidecars.Keys);
    SubsetSize(dead, d.sidecars.Keys);
    assert Pruned(d, cutoff).sidecars.Keys == d.sidecars.Keys - dead;
  }

  lemma PlannedSources(plan: Plan, d: Dir, cutoff: nat)
    requires Planned(plan, d, cutoff, d.sidecars.Keys)
    ensures plan.prunedStale == Sum(StaleCounts(d, cutoff))
    ensures plan.remainingSources == Sum(SourceCounts(Pruned(d, cutoff)))
  {
    assert Restrict(StaleCounts(d, cutoff), d.sidecars.Keys) == StaleCounts(d, cutoff);
    assert Restrict(KeptCounts(d, cutoff), d.sidecars.Keys) == SourceCounts(Pruned(d, cutoff));
  }

  lemma ReportIs(plan: Plan, d: Dir, cutoff: nat)
    requires |plan.removeBodies| + |Pruned(d, cutoff).bodies| == |d.bodies|
    requires |plan.removeSidecars| + |Pruned(d, cutoff).sidecars| == |d.sidecars|
    requires SizeSum(plan.removeBodies) + Sum(Pruned(d, cutoff).bodies) == Sum(d.bodies)
    requires plan.prunedStale == Sum(StaleCounts(d, cutoff))
    requires plan.remainingSources == Sum(SourceCounts(Pruned(d, cutoff)))
    ensures ReportsOn(ReportFrom(plan, d), d, cutoff)
  {
    hide Pruned, Sum, StaleCounts, SourceCounts, SizeSum;
  }

  /** Each rewrite goes to the file its document names. */
  function ApplyRewrites(sidecars: map<Stem, Sidecar>, rs: seq<Sidecar>): map<Stem, Sidecar>
    requires forall x <- rs :: x.Doc?
  {
    if rs == [] then sidecars
    else
      var n := |rs| - 1;
      ApplyRewrites(sidecars, rs[..n])[rs[n].contentHash := rs[n]]
  }

  lemma {:induction false} AppliedAt(base: map<Stem, Sidecar>, rs: seq<Sidecar>, k: Stem)
    requires forall x <- rs :: x.Doc?
    ensures var r := ApplyRewrites(base, rs);
            && ((exists x <- rs :: x.contentHash == k) ==> k in r && r[k] in rs && r[k].Doc? && r[k].contentHash == k)
            && ((forall x <- rs :: x.contentHash != k) ==> (k in r <==> k in base) && (k in base ==> r[k] == base[k]))
  {
    if rs != [] {
      var n := |rs| - 1;
      AppliedAt(base, rs[..n], k);
      assert rs == rs[..n] + [rs[n]];
    }
  }

  /** Every document that loses sources names the file it is in. */
  ghost predicate RewritesNamed(d: Dir, cutoff: nat) {
    forall s <- d.sidecars :: Loses(d, cutoff, s) ==> d.sidecars[s].contentHash == s
  }

  lemma RewritesAreDocs(rs: seq<Sidecar>, d: Dir, cutoff: nat)
    requires NamesRewrites(rs, d, cutoff, d.sidecars.Keys)
    ensures forall x <- rs :: x.Doc?
  {}

  ghost function Survivors(d: Dir, cutoff: nat): map<Stem, Sidecar> {
    d.sidecars - DeadSidecars(d, cutoff, d.sidecars.Keys)
  }

  /** Rewriting finishes the pass exactly when the documents it rewrites name their own files. */
  lemma RewritesFinishIff(rs: seq<Sidecar>, d: Dir, cutoff: nat)
    requires NamesRewrites(rs, d, cutoff, d.sidecars.Keys) && forall x <- rs :: x.Doc?
    ensures ApplyRewrites(Survivors(d, cutoff), rs) == Pruned(d, cutoff).sidecars <==> RewritesNamed(d, cutoff)
  {
    if RewritesNamed(d, cutoff) {
      forall k ensures k in ApplyRewrites(Survivors(d, cutoff), rs) <==> k in Pruned(d, cutoff).sidecars {
        RewrittenRight(rs, d, cutoff, k);
      }
      forall k <- Pruned(d, cutoff).sidecars
        ensures ApplyRewrites(Survivors(d, cutoff), rs)[k] == Pruned(d, cutoff).sidecars[k]
      {
        RewrittenRight(rs, d, cutoff, k);
      }
      assert ApplyRewrites(Survivors(d, cutoff), rs) == Pruned(d, cutoff).sidecars;
    } else {
      var s :| s in d.sidecars && Loses(d, cutoff, s) && d.sidecars[s].contentHash != s;
      AppliedAt(Survivors(d, cutoff), rs, s);
      assert Pruned(d, cutoff).sidecars[s] == Stripped(d.sidecars[s], cutoff);
    }
  }

  lemma RewrittenRight(rs: seq<Sidecar>, d: Dir, cutoff: nat, k: Stem)
    requires NamesRewrites(rs, d, cutoff, d.sidecars.Keys) && RewritesNamed(d, cutoff) && forall x <- rs :: x.Doc?
    ensures var r, p := ApplyRewrites(Survivors(d, cutoff), rs), Pruned(d, cutoff).sidecars;
            (k in r <==> k in p) && (k in p ==> r[k] == p[k])
  {
    AppliedAt(Survivors(d, cutoff), rs, k);
    if x :| x in rs && x.contentHash == k {
      var r := ApplyRewrites(Survivors(d, cutoff), rs);
      var s :| s in d.sidecars && Loses(d, cutoff, s) && r[k] == Stripped(d.sidecars[s], cutoff);
      assert s == k;
    }
  }

  // ---------------------------------------------------------------- what a real pass leaves

  /** Files that are not dead, with the stripped documents written in some order where they say. */
  ghost predicate Leaves(d: Dir, cutoff: nat, after: Dir) {
    && after.bodies == Pruned(d, cutoff).bodies
    && exists rs :: Rewritten(rs, d, cutoff, after.sidecars)
  }

  ghost predicate Rewritten(rs: seq<Sidecar>, d: Dir, cutoff: nat, sidecars: map<Stem, Sidecar>) {
    && NamesRewrites(rs, d, cutoff, d.sidecars.Keys) && (forall x <- rs :: x.Doc?)
    && sidecars == ApplyRewrites(Survivors(d, cutoff), rs)
  }

  /** Some document that loses sources is written to `k`. */
  ghost predicate Target(d: Dir, cutoff: nat, k: Stem) {
    exists t <- d.sidecars :: Loses(d, cutoff, t) && d.sidecars[t].contentHash == k
  }

  /** File by file: a file written to holds a stripped document that names it; any other is as it was, if it
      survives. */
  lemma LeftAt(d: Dir, cutoff: nat, after: Dir, k: Stem)
    requires Leaves(d, cutoff, after)
    ensures Target(d, cutoff, k) ==>
              && k in after.sidecars
              && exists t <- d.sidecars :: Loses(d, cutoff, t) && d.sidecars[t].contentHash == k
                                           && after.sidecars[k] == Stripped(d.sidecars[t], cutoff)
    ensures !Target(d, cutoff, k) ==>
              && (k in after.sidecars <==> k in d.sidecars && Live(d, cutoff, k))
              && (k in after.sidecars ==> after.sidecars[k] == d.sidecars[k])
  {
    var rs: seq<Sidecar> :| Rewritten(rs, d, cutoff, after.sidecars);
    AppliedAt(Survivors(d, cutoff), rs, k);
    if Target(d, cutoff, k) {
      var t :| t in d.sidecars && Loses(d, cutoff, t) && d.sidecars[t].contentHash == k;
      assert Stripped(d.sidecars[t], cutoff) in rs;
      assert after.sidecars[k] in rs;
    } else {
      forall x: Sidecar | x in rs ensures x.contentHash != k {
        var t :| t in d.sidecars.Keys && Loses(d, cutoff, t) && x == Stripped(d.sidecars[t], cutoff);
      }
    }
  }

  /** An unparseable sidecar is left alone exactly when it has a body and nothing is written over it. */
  lemma UnparsedKeptIff(d: Dir, cutoff: nat, after: Dir, s: Stem)
    requires Leaves(d, cutoff, after) && s in d.sidecars && d.sidecars[s].Unparsed?
    ensures (s in after.sidecars && after.sidecars[s] == Unparsed) <==> s in d.bodies && !Target(d, cutoff, s)
  {
    LeftAt(d, cutoff, after, s);
    hide Leaves, Target;
  }

  /** A stripped document that names its neighbour is written over it, body or not. */
  lemma NeighbourOverwritten(sizeA: nat, sizeB: nat, url: string, seen: nat, cutoff: nat, after: Dir)
    requires seen < cutoff
    requires var doc := Doc("b", [Source(url, cutoff), Source(url, seen)]);
             Leaves(Dir(map["a" := sizeA, "b" := sizeB], map["a" := doc, "b" := Unparsed]), cutoff, after)
    ensures "b" in after.bodies && "b" in after.sidecars && after.sidecars["b"] != Unparsed
  {
    var sources := [Source(url, cutoff), Source(url, seen)];
    var d := Dir(map["a" := sizeA, "b" := sizeB], map["a" := Doc("b", sources), "b" := Unparsed]);
    SomeFresh(sources, cutoff);
    FreshShorter(sources, cutoff);
    assert sources[0].lastSeen >= cutoff && sources[1].lastSeen < cutoff;
    assert "a" in d.sidecars && Loses(d, cutoff, "a") && d.sidecars["a"].contentHash == "b";
    assert Target(d, cutoff, "b");
    UnparsedKeptIff(d, cutoff, after, "b");
    LeftAt(d, cutoff, after, "b");
  }

  /** No orphan is left exactly when documents are written only to entries that survive; and exactly then
      the reported number of remaining sidecars is right. */
  lemma NoOrphansLeftIff(d: Dir, cutoff: nat, after: Dir, r: Report)
    requires Leaves(d, cutoff, after) && ReportsOn(r, d, cutoff)
    ensures NoOrphans(after) <==> forall k :: Target(d, cutoff, k) ==> k in d.sidecars && Live(d, cutoff, k)
    ensures r.remainingSidecars == |after.sidecars| <==> NoOrphans(after)
  {
    PruneAchieves(d, cutoff);
    var ideal := Pruned(d, cutoff).sidecars;
    assert after.bodies.Keys == ideal.Keys;
    forall k ensures k in after.sidecars <==> k in ideal || Target(d, cutoff, k) {
      LeftAt(d, cutoff, after, k);
    }
    forall k ensures k in ideal <==> k in d.sidecars && Live(d, cutoff, k) {}
    hide Leaves, Target, Pruned, Live, Sum;
    assert ideal.Keys <= after.sidecars.Keys;
    SubsetSize(ideal.Keys, after.sidecars.Keys);
    assert |after.sidecars| == |after.sidecars.Keys| && |ideal| == |ideal.Keys|;
    if |after.sidecars.Keys - ideal.Keys| == 0 { assert after.sidecars.Keys - ideal.Keys == {}; }
    if NoOrphans(after) {
      forall k | Target(d, cutoff, k) ensures k in ideal { assert k in after.sidecars.Keys; }
    } else {
      assert after.sidecars.Keys != ideal.Keys;
      var k :| k in after.sidecars.Keys && k !in ideal.Keys;
      assert Target(d, cutoff, k);
    }
  }

  ghost predicate FreshThroughout(sources: seq<Source>, cutoff: nat) {
    sources != [] && forall i :: 0 <= i < |sources| ==> sources[i].lastSeen >= cutoff
  }

  lemma FreshLeftIff(d: Dir, cutoff: nat, after: Dir, k: Stem)
    requires Leaves(d, cutoff, after) && k in after.sidecars && after.sidecars[k].Doc?
    ensures FreshThroughout(after.sidecars[k].sources, cutoff) <==> !Loses(d, cutoff, k) || Target(d, cutoff, k)
  {
    LeftAt(d, cutoff, after, k);
    if Target(d, cutoff, k) {
      var t :| t in d.sidecars && Loses(d, cutoff, t) && after.sidecars[k] == Stripped(d.sidecars[t], cutoff);
      FreshOfFresh(d.sidecars[t].sources, cutoff);
    } else {
      FreshShorter(d.sidecars[k].sources, cutoff);
    }
  }

  /** Nothing stale is left exactly when every file that loses sources is written to. */
  lemma NoStaleLeftIff(d: Dir, cutoff: nat, after: Dir)
    requires Leaves(d, cutoff, after)
    ensures NoStale(after, cutoff) <==> forall s <- d.sidecars :: Loses(d, cutoff, s) ==> Target(d, cutoff, s)
  {
    hide Leaves, Target, Loses;
    forall k <- after.sidecars | after.sidecars[k].Doc?
      ensures FreshThroughout(after.sidecars[k].sources, cutoff) <==> !Loses(d, cutoff, k) || Target(d, cutoff, k)
    {
      FreshLeftIff(d, cutoff, after, k);
    }
    forall s | Loses(d, cutoff, s) && !Target(d, cutoff, s)
      ensures s in d.sidecars && s in after.sidecars && after.sidecars[s].Doc?
    {
      LosesLeft(d, cutoff, after, s);
    }
    forall s | Loses(d, cutoff, s) ensures s in d.sidecars { LosesHere(d, cutoff, s); }
    assert NoStale(after, cutoff) <==>
      forall k <- after.sidecars :: after.sidecars[k].Doc? ==> FreshThroughout(after.sidecars[k].sources, cutoff);
    hide NoStale, FreshThroughout;
  }

  lemma LosesHere(d: Dir, cutoff: nat, s: Stem)
    requires Loses(d, cutoff, s)
    ensures s in d.sidecars && d.sidecars[s].Doc?
  {}

  lemma LosesLeft(d: Dir, cutoff: nat, after: Dir, s: Stem)
    requires Leaves(d, cutoff, after) && Loses(d, cutoff, s) && !Target(d, cutoff, s)
    ensures s in d.sidecars && s in after.sidecars && after.sidecars[s].Doc?
  {
    LeftAt(d, cutoff, after, s);
    hide Leaves, Target;
  }

  // ---------------------------------------------------------------- the directory

  class Directory {
    var bodies: map<Stem, nat>
    var sidecars: map<Stem, Sidecar>

    ghost function Value(): Dir
      reads this
    {
      Dir(bodies, sidecars)
    }

    method RemoveBodies(rs: seq<(Stem, nat)>, ghost dead: set<Stem>)
      requires forall s :: s in dead <==> exists i :: 0 <= i < |rs| && rs[i].0 == s
      modifies this`bodies
      ensures bodies == old(bodies) - dead
    {
      ghost var gone: set<Stem> := {};
      for i := 0 to |rs|
        invariant forall s :: s in gone <==> exists j :: 0 <= j < i && rs[j].0 == s
        invariant bodies == old(bodies) - gone
      {
        bodies := bodies - {rs[i].0};
        gone := gone + {rs[i].0};
      }
      assert gone == dead;
    }

    method RemoveSidecars(rs: seq<Stem>, ghost dead: set<Stem>)
      requires NamesSidecars(rs, dead)
      modifies this`sidecars
      ensures sidecars == old(sidecars) - dead
    {
      ghost var gone: set<Stem> := {};
      for i := 0 to |rs|
        invariant forall s :: s in gone <==> s in rs[..i]
        invariant sidecars == old(sidecars) - gone
      {
        sidecars := sidecars - {rs[i]};
        gone := gone + {rs[i]};
      }
      assert gone == dead;
    }

    method Rewrite(rs: seq<Sidecar>)
      requires forall x <- rs :: x.Doc?
      modifies this`sidecars
      ensures sidecars == ApplyRewrites(old(sidecars), rs)
    {
      for i := 0 to |rs|
        invariant sidecars == ApplyRewrites(old(sidecars), rs[..i])
      {
        assert rs[..i + 1][..i] == rs[..i] && rs[i] in rs;
        sidecars := sidecars[rs[i].contentHash := rs[i]];
      }
      assert rs[..|rs|] == rs;
    }

    /** The report is always right, and a dry run touches nothing. A real pass leaves exactly the bodies
        worth keeping, and the sidecars described above; these are exactly the right ones just when those
        it rewrites name their own files. */
    method Prune(cutoff: nat, dryRun: bool) returns (r: Report)
      modifies this
      ensures ReportsOn(r, old(Value()), cutoff)
      ensures dryRun ==> Value() == old(Value())
      ensures !dryRun ==> Leaves(old(Value()), cutoff, Value())
      ensures !dryRun ==> (Value() == Pruned(old(Value()), cutoff) <==> RewritesNamed(old(Value()), cutoff))
    {
      hide Planned, ReportsOn, SizeSum, Pruned, RewritesNamed, Rewritten;
      ghost var d := Value();
      var plan := MakePlan(Dir(bodies, sidecars), cutoff);
      PlanReports(plan, d, cutoff);
      r := Report(|plan.removeBodies|, |plan.removeSidecars|, plan.prunedStale, SizeSum(plan.removeBodies),
                  |bodies| - |plan.removeBodies|, |sidecars| - |plan.removeSidecars|, plan.remainingSources);
      assert r == ReportFrom(plan, d);
      if !dryRun {
        Carry(plan, cutoff);
      }
    }

    method Carry(plan: Plan, ghost cutoff: nat)
      requires Planned(plan, Value(), cutoff, sidecars.Keys)
      modifies this
      ensures bodies == Pruned(old(Value()), cutoff).bodies
      ensures Rewritten(plan.rewrites, old(Value()), cutoff, sidecars)
      ensures sidecars == Pruned(old(Value()), cutoff).sidecars <==> RewritesNamed(old(Value()), cutoff)
    {
      ghost var d := Value();
      hide Pruned, RewritesNamed, DeadBodies, DeadSidecars, Sum, SizeSum;
      BodiesSplit(d, cutoff);
      RewritesAreDocs(plan.rewrites, d, cutoff);
      RewritesFinishIff(plan.rewrites, d, cutoff);
      RemoveBodies(plan.removeBodies, DeadBodies(d, cutoff, d.sidecars.Keys));
      RemoveSidecars(plan.removeSidecars, DeadSidecars(d, cutoff, d.sidecars.Keys));
      Rewrite(plan.rewrites);
    }
  }
}
