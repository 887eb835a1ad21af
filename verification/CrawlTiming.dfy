/** Politeness over whole crawls: when the requests that workers make on their slots are spaced. A request is
    sent some steps after its slot was reserved, and how long these take is up to the network. */
module CrawlTiming {
  import opened Wrappers
  import opened Frontier
  import opened Crawl
  import opened CrawlSafety

  /** A run with every state it passes. */
  ghost predicate IsRun(cfg: Config, states: seq<System>, acts: seq<Action>) {
    && |states| == |acts| + 1
    && forall n :: 0 <= n < |acts| ==> states[n + 1] == Apply(cfg, states[n], acts[n])
  }

  lemma {:induction false} RunReaches(cfg: Config, states: seq<System>, acts: seq<Action>, n: nat)
    requires IsRun(cfg, states, acts) && n <= |acts|
    ensures states[n] == Run(cfg, states[0], acts[..n])
  {
    if n > 0 {
      RunReaches(cfg, states, acts, n - 1);
      assert acts[..n][..n - 1] == acts[..n - 1];
    }
  }

  /** The worker that makes step `n`, as it is before. */
  function Mover(states: seq<System>, acts: seq<Action>, n: nat): Worker {
    if n < |acts| && n < |states| && acts[n].who < |states[n].ws| then states[n].ws[acts[n].who] else Exited
  }

  /** The instant step `n` gets from reserving. */
  function Slot(states: seq<System>, acts: seq<Action>, n: nat): nat
    requires Mover(states, acts, n).Reserving?
  {
    states[n].sh.frontier.SlotStart(HostOf(Mover(states, acts, n).item), acts[n].ev.now)
  }

  /** When the slot begins that step `n` reserved: not before it asked. */
  function Begins(states: seq<System>, acts: seq<Action>, n: nat): nat
    requires Mover(states, acts, n).Reserving?
  {
    Max(Slot(states, acts, n), acts[n].ev.now)
  }

  /** Time does not run backwards, and a worker that reserved goes on when its slot has come. */
  ghost predicate Timed(states: seq<System>, acts: seq<Action>) {
    && (forall i, j :: 0 <= i <= j < |acts| ==> acts[i].ev.now <= acts[j].ev.now)
    && (forall m: nat, q: nat :: Mover(states, acts, m).Reserving? && NextOf(acts, m, q) ==>
          Slot(states, acts, m) <= acts[q].ev.now)
  }

  /** Step `q` is the next one of the worker that makes step `m`. */
  ghost predicate NextOf(acts: seq<Action>, m: nat, q: nat) {
    && m < q < |acts| && acts[q].who == acts[m].who
    && forall k :: m < k < q ==> acts[k].who != acts[m].who
  }

  /** A worker reserves at step `m` and sends the request for it at step `n`. */
  ghost predicate Visit(states: seq<System>, acts: seq<Action>, m: nat, n: nat) {
    && m < n < |acts| && acts[m].who == acts[n].who
    && Mover(states, acts, m).Reserving? && Mover(states, acts, n).Fetching?
    && forall k :: m < k < n && acts[k].who == acts[m].who ==> !Mover(states, acts, k).Reserving?
  }

  // ---------------------------------------------------------------- from a slot to its request

  predicate OnTheWay(w: Worker) {
    w.AtQuota? || w.AtRobots? || w.Fetching?
  }

  lemma StepOnTheWay(cfg: Config, sh: Shared, w: Worker, ev: Event)
    ensures var (sh', w') := Step(cfg, sh, w, ev);
            && (OnTheWay(w') ==> (w.Reserving? || OnTheWay(w)) && w'.item == w.item)
            && (w.Reserving? ==> w' == AtQuota(w.item))
  {}

  lemma {:induction false} CrewStays(cfg: Config, states: seq<System>, acts: seq<Action>, n: nat)
    requires IsRun(cfg, states, acts) && n <= |acts|
    ensures |states[n].ws| == |states[0].ws|
  {
    if n > 0 { CrewStays(cfg, states, acts, n - 1); }
  }

  /** After reserving, a worker that is on its way to a request has the item it reserved for. */
  lemma {:induction false} SameItem(cfg: Config, states: seq<System>, acts: seq<Action>, m: nat, n: nat)
    requires IsRun(cfg, states, acts) && m < n <= |acts| && Mover(states, acts, m).Reserving?
    requires forall k :: m < k < n && acts[k].who == acts[m].who ==> !Mover(states, acts, k).Reserving?
    ensures |states[n].ws| == |states[m].ws|
    ensures OnTheWay(states[n].ws[acts[m].who]) ==> states[n].ws[acts[m].who].item == Mover(states, acts, m).item
    decreases n
  {
    hide Step;
    var w, k := acts[m].who, n - 1;
    CrewStays(cfg, states, acts, m);
    CrewStays(cfg, states, acts, n);
    CrewStays(cfg, states, acts, k);
    if m < k { SameItem(cfg, states, acts, m, k); }
    if acts[k].who == w { StepOnTheWay(cfg, states[k].sh, states[k].ws[w], acts[k].ev); }
  }

  /** The worker's next step after reserving finds it at the quota. */
  lemma {:induction false} StillThere(cfg: Config, states: seq<System>, acts: seq<Action>, m: nat, q: nat)
    requires IsRun(cfg, states, acts) && m < q <= |acts| && Mover(states, acts, m).Reserving?
    requires forall k :: m < k < q ==> acts[k].who != acts[m].who
    ensures |states[q].ws| == |states[m].ws| && states[q].ws[acts[m].who] == AtQuota(Mover(states, acts, m).item)
    decreases q
  {
    hide Step;
    CrewStays(cfg, states, acts, m);
    CrewStays(cfg, states, acts, q);
    CrewStays(cfg, states, acts, q - 1);
    if m < q - 1 {
      StillThere(cfg, states, acts, m, q - 1);
    } else {
      StepOnTheWay(cfg, states[m].sh, states[m].ws[acts[m].who], acts[m].ev);
    }
  }

  lemma {:induction false} FindNext(acts: seq<Action>, m: nat, n: nat, from: nat) returns (q: nat)
    requires m < from <= n < |acts| && acts[n].who == acts[m].who
    requires forall k :: m < k < from ==> acts[k].who != acts[m].who
    ensures NextOf(acts, m, q) && q <= n
    decreases n - from
  {
    if acts[from].who == acts[m].who { q := from; } else { q := FindNext(acts, m, n, from + 1); }
  }

  /** A request is for the host of its slot, and does not go out before the slot begins. */
  lemma VisitWaits(cfg: Config, states: seq<System>, acts: seq<Action>, m: nat, n: nat)
    requires IsRun(cfg, states, acts) && Timed(states, acts) && Visit(states, acts, m, n)
    ensures Mover(states, acts, n).item == Mover(states, acts, m).item
    ensures Begins(states, acts, m) <= acts[n].ev.now
  {
    SameItem(cfg, states, acts, m, n);
    var q := FindNext(acts, m, n, m + 1);
    StillThere(cfg, states, acts, m, q);
    hide Visit, IsRun;
    assert Slot(states, acts, m) <= acts[q].ev.now;
    assert acts[q].ev.now <= acts[n].ev.now && acts[m].ev.now <= acts[n].ev.now;
  }

  /** Every request of a crawl is made on a slot. */
  lemma {:induction false} EveryFetchReserved(cfg: Config, states: seq<System>, acts: seq<Action>, n: nat, w: nat)
    returns (m: nat)
    requires IsRun(cfg, states, acts) && n <= |acts| && w < |states[0].ws|
    requires forall i :: 0 <= i < |states[0].ws| ==> states[0].ws[i] == Top
    ensures |states[n].ws| == |states[0].ws|
    ensures OnTheWay(states[n].ws[w]) ==>
              && m < n && acts[m].who == w && Mover(states, acts, m).Reserving?
              && forall k :: m < k < n && acts[k].who == w ==> !Mover(states, acts, k).Reserving?
    decreases n
  {
    hide Step;
    m := 0;
    CrewStays(cfg, states, acts, n);
    if n > 0 {
      var p := n - 1;
      CrewStays(cfg, states, acts, p);
      var before := EveryFetchReserved(cfg, states, acts, p, w);
      m := before;
      if acts[p].who == w {
        StepOnTheWay(cfg, states[p].sh, states[p].ws[w], acts[p].ev);
        if states[p].ws[w].Reserving? { m := p; }
      }
    }
  }

  // ---------------------------------------------------------------- slots of one host

  /** Only reserving moves a host's next slot. */
  lemma StepSlots(cfg: Config, sh: Shared, w: Worker, ev: Event)
    ensures Step(cfg, sh, w, ev).0.frontier.hostNextOk
         == if w.Reserving? then sh.frontier.Reserve(HostOf(w.item), ev.now, cfg.delay).hostNextOk else sh.frontier.hostNextOk
  {}

  lemma {:induction false} NextSlotFrom(cfg: Config, states: seq<System>, acts: seq<Action>, m: nat, n: nat)
    requires IsRun(cfg, states, acts) && m < n <= |acts| && Mover(states, acts, m).Reserving?
    ensures var host, next := HostOf(Mover(states, acts, m).item), states[n].sh.frontier.hostNextOk;
            host in next && Begins(states, acts, m) + cfg.delay <= next[host]
    decreases n
  {
    hide Step;
    var k := n - 1;
    if m < k { NextSlotFrom(cfg, states, acts, m, k); }
    if acts[k].who < |states[k].ws| { StepSlots(cfg, states[k].sh, states[k].ws[acts[k].who], acts[k].ev); }
  }

  /** Two requests to one host, on slots reserved one after the other. */
  ghost predicate Pair(cfg: Config, states: seq<System>, acts: seq<Action>, m1: nat, n1: nat, m2: nat, n2: nat) {
    && IsRun(cfg, states, acts) && Timed(states, acts)
    && Visit(states, acts, m1, n1) && Visit(states, acts, m2, n2) && m1 < m2
    && HostOf(Mover(states, acts, n1).item) == HostOf(Mover(states, acts, n2).item)
  }

  /** In every crawl, however its workers interleave: the second of two requests to a host goes out no sooner
      than the delay after the slot of the first began. */
  lemma FetchesFollowSlots(cfg: Config, states: seq<System>, acts: seq<Action>, m1: nat, n1: nat, m2: nat, n2: nat)
    requires Pair(cfg, states, acts, m1, n1, m2, n2)
    ensures Mover(states, acts, m1).Reserving? && Begins(states, acts, m1) + cfg.delay <= acts[n2].ev.now
  {
    VisitWaits(cfg, states, acts, m1, n1);
    VisitWaits(cfg, states, acts, m2, n2);
    NextSlotFrom(cfg, states, acts, m1, m2);
  }

  // ---------------------------------------------------------------- how much lag is too much

  predicate Apart(a: nat, b: nat, delay: nat) {
    a + delay <= b || b + delay <= a
  }

  /** In every crawl from these seeds, two requests to one host are the delay apart if the one with the earlier
      slot goes out at most `lag` after that slot begins. */
  ghost predicate Polite(cfg: Config, resumed: set<Hash>, seeds: seq<Url>, workers: nat, lag: nat) {
    forall states: seq<System>, acts: seq<Action>, m1: nat, n1: nat, m2: nat, n2: nat ::
      Pair(cfg, states, acts, m1, n1, m2, n2) && states[0] == Init(cfg, resumed, seeds, workers)
      && acts[n1].ev.now <= Begins(states, acts, m1) + lag
      ==> Apart(acts[n1].ev.now, acts[n2].ev.now, cfg.delay)
  }

  lemma OnTimePolite(cfg: Config, resumed: set<Hash>, seeds: seq<Url>, workers: nat, lag: nat)
    requires cfg.delay == 0 || lag == 0
    ensures Polite(cfg, resumed, seeds, workers, lag)
  {
    forall states: seq<System>, acts: seq<Action>, m1: nat, n1: nat, m2: nat, n2: nat |
      Pair(cfg, states, acts, m1, n1, m2, n2) && states[0] == Init(cfg, resumed, seeds, workers)
      && acts[n1].ev.now <= Begins(states, acts, m1) + lag
      ensures Apart(acts[n1].ev.now, acts[n2].ev.now, cfg.delay)
    {
      FetchesFollowSlots(cfg, states, acts, m1, n1, m2, n2);
      VisitWaits(cfg, states, acts, m1, n1);
    }
  }

  // One worker takes two URLs of one host; the first request waits a tick for the robots rules, which the
  // second finds at hand.

  function At(now: nat): Action {
    Action(0, Event(now, true, FetchError, true))
  }

  /** The steps from one pop to the next: reserving at `t`, going on at `slot`, sending the request at `sent`. */
  function Round(t: nat, slot: nat, sent: nat): seq<Action> {
    [At(t), At(t), At(t), At(t), At(slot), At(sent), At(sent), At(sent), At(sent)]
  }

  ghost predicate RoundWorkers(states: seq<System>, item: QueuedUrl) {
    && |states| == 10
    && states[0].ws == [Top] && states[1].ws == [Popped(item)] && states[2].ws == [Start(item)]
    && states[3].ws == [Reserving(item)] && states[4].ws == [AtQuota(item)] && states[5].ws == [AtRobots(item)]
    && states[6].ws == [Fetching(item)] && states[7].ws == [Counting(item, Failed)] && states[8].ws == [Leaving]
    && states[9].ws == [Top]
  }

  /** One round of a single worker: what it leaves of the queue, the slots and the quota. */
  lemma OneRound(cfg: Config, sh: Shared, t: nat, slot: nat, sent: nat) returns (states: seq<System>)
    requires sh.frontier.heap != {} && HostOf(sh.frontier.First().item) != ""
    requires sh.frontier.Pages(HostOf(sh.frontier.First().item)) < cfg.maxPagesPerHost
    ensures IsRun(cfg, states, Round(t, slot, sent)) && RoundWorkers(states, sh.frontier.First().item)
    ensures states[0] == System(sh, [Top])
    ensures states[3].sh.frontier.hostNextOk == sh.frontier.hostNextOk
    ensures var host, q := HostOf(sh.frontier.First().item), states[9].sh.frontier;
            && q.heap == sh.frontier.heap - {sh.frontier.First()}
            && q.hostNextOk == sh.frontier.Reserve(host, t, cfg.delay).hostNextOk
            && q.Pages(host) == sh.frontier.Pages(host) + 1
  {
    var item := sh.frontier.First().item;
    var acts := Round(t, slot, sent);
    var s0 := System(sh, [Top]);
    var s1 := Apply(cfg, s0, acts[0]);
    var s2 := Apply(cfg, s1, acts[1]);
    var s3 := Apply(cfg, s2, acts[2]);
    var s4 := Apply(cfg, s3, acts[3]);
    var s5 := Apply(cfg, s4, acts[4]);
    var s6 := Apply(cfg, s5, acts[5]);
    var s7 := Apply(cfg, s6, acts[6]);
    var s8 := Apply(cfg, s7, acts[7]);
    var s9 := Apply(cfg, s8, acts[8]);
    states := [s0, s1, s2, s3, s4, s5, s6, s7, s8, s9];
    ToReserving(cfg, sh, acts[0], acts[1], acts[2]);
    ToFetching(cfg, s3.sh, item, acts[3], acts[4], acts[5]);
    ToTop(cfg, s6.sh, item, acts[6], acts[7], acts[8]);
    hide Apply;
  }

  lemma ToReserving(cfg: Config, sh: Shared, a0: Action, a1: Action, a2: Action)
    requires sh.frontier.heap != {} && HostOf(sh.frontier.First().item) != "" && a0.who == a1.who == a2.who == 0
    ensures var item := sh.frontier.First().item;
            var s1 := Apply(cfg, System(sh, [Top]), a0);
            var s2 := Apply(cfg, s1, a1);
            var s3 := Apply(cfg, s2, a2);
            && s1.ws == [Popped(item)] && s2.ws == [Start(item)] && s3.ws == [Reserving(item)]
            && s3.sh.frontier == sh.frontier.Pop()
  {}

  lemma ToFetching(cfg: Config, sh: Shared, item: QueuedUrl, a3: Action, a4: Action, a5: Action)
    requires sh.frontier.Pages(HostOf(item)) < cfg.maxPagesPerHost && a3.who == a4.who == a5.who == 0 && a5.ev.robotsAllow
    ensures var s4 := Apply(cfg, System(sh, [Reserving(item)]), a3);
            var s5 := Apply(cfg, s4, a4);
            var s6 := Apply(cfg, s5, a5);
            && s4.ws == [AtQuota(item)] && s5.ws == [AtRobots(item)] && s6.ws == [Fetching(item)]
            && s6.sh.frontier
            == sh.frontier.Reserve(HostOf(item), a3.ev.now, cfg.delay).TakeQuota(HostOf(item), cfg.maxPagesPerHost)
  {}

  lemma ToTop(cfg: Config, sh: Shared, item: QueuedUrl, a6: Action, a7: Action, a8: Action)
    requires a6.who == a7.who == a8.who == 0 && a6.ev.fetched == FetchError
    ensures var s7 := Apply(cfg, System(sh, [Fetching(item)]), a6);
            var s8 := Apply(cfg, s7, a7);
            var s9 := Apply(cfg, s8, a8);
            && s7.ws == [Counting(item, Failed)] && s8.ws == [Leaving] && s9.ws == [Top]
            && s9.sh.frontier == sh.frontier
  {}

  /** Two URLs of one host that can be queued and fetched. */
  predicate SameHost(cfg: Config, a: Url, b: Url) {
    && a.host.Some? && a.host == b.host && a.host.value != "" && a.text != b.text
    && |a.text| <= cfg.maxUrlLen && |b.text| <= cfg.maxUrlLen && cfg.maxPagesPerHost >= 2
  }

  function Seed(url: Url): QueuedUrl {
    QueuedUrl(url.(fragment := None), 0)
  }

  /** The two seeds leave the queue one after the other. */
  lemma SeedQueue(cfg: Config, resumed: set<Hash>, a: Url, b: Url)
    requires SameHost(cfg, a, b)
    ensures var q := Seeded(cfg, resumed, [a, b]).frontier;
            && q.hostNextOk == map[] && q.hostPages == map[]
            && q.heap != {} && q.First().item == Seed(a)
            && forall rest: Queue :: rest.heap == q.heap - {q.First()} ==> rest.heap != {} && rest.First().item == Seed(b)
  {
    var foreign := a.host.value !in cfg.seedHosts;
    var e0, e1 := Entry(foreign, 0, Seed(a)), Entry(foreign, 1, Seed(b));
    assert [a, b][..1] == [a] && [a][..0] == [];
    var q := Seeded(cfg, resumed, [a, b]).frontier;
    assert Seeded(cfg, resumed, [a]).frontier == EMPTY_QUEUE.(heap := {} + {e0}, arrival := 1, seen := {} + {a.text});
    assert q.heap == {e0, e1};
    assert Leads(q.First(), q.heap);
    assert q.First() == e0;
    forall rest: Queue | rest.heap == q.heap - {q.First()} ensures rest.heap != {} && rest.First().item == Seed(b) {
      assert rest.heap == {e1};
    }
  }

  function TwoRounds(delay: nat): seq<Action> {
    Round(0, 0, 1) + Round(1, delay, delay)
  }

  /** The first request goes out a tick after its slot, the second at its slot. */
  lemma LateFetch(cfg: Config, resumed: set<Hash>, a: Url, b: Url) returns (states: seq<System>)
    requires SameHost(cfg, a, b) && cfg.delay >= 1
    ensures var acts := TwoRounds(cfg.delay);
            && Pair(cfg, states, acts, 3, 6, 12, 15) && states[0] == Init(cfg, resumed, [a, b], 1)
            && Begins(states, acts, 3) == 0 && acts[6].ev.now == 1 && acts[15].ev.now == cfg.delay
  {
    var sh := Seeded(cfg, resumed, [a, b]);
    var acts := TwoRounds(cfg.delay);
    SeedQueue(cfg, resumed, a, b);
    var one := OneRound(cfg, sh, 0, 0, 1);
    var two := OneRound(cfg, one[9].sh, 1, cfg.delay, cfg.delay);
    states := one[..9] + two;
    Joined(cfg, one, two, Round(0, 0, 1), Round(1, cfg.delay, cfg.delay));
    assert Init(cfg, resumed, [a, b], 1).ws == [Top];
    RoundsTimed(cfg, one, two, Seed(a), Seed(b));
    RoundsVisit(one, two, Seed(a), Seed(b), cfg.delay);
  }

  lemma Joined(cfg: Config, one: seq<System>, two: seq<System>, first: seq<Action>, second: seq<Action>)
    requires IsRun(cfg, one, first) && IsRun(cfg, two, second) && one[|first|] == two[0]
    ensures IsRun(cfg, one[..|first|] + two, first + second)
  {
    hide Apply;
    var states, acts := one[..|first|] + two, first + second;
    forall n | 0 <= n < |acts| ensures states[n + 1] == Apply(cfg, states[n], acts[n]) {
      if n >= |first| { assert acts[n] == second[n - |first|] && states[n + 1] == two[n - |first| + 1]; }
    }
  }

  /** Who moves when, over both rounds. */
  lemma RoundsMovers(one: seq<System>, two: seq<System>, a: QueuedUrl, b: QueuedUrl, delay: nat, n: nat)
    requires RoundWorkers(one, a) && RoundWorkers(two, b) && n < 18
    ensures var w := Mover(one[..9] + two, TwoRounds(delay), n);
            && (w.Reserving? <==> n == 3 || n == 12)
            && (n == 3 ==> w == Reserving(a)) && (n == 12 ==> w == Reserving(b))
            && (n == 6 ==> w == Fetching(a)) && (n == 15 ==> w == Fetching(b))
            && TwoRounds(delay)[n].who == 0
  {
    var states, acts := one[..9] + two, TwoRounds(delay);
    var k := if n < 9 then n else n - 9;
    var part := if n < 9 then one else two;
    assert states[n] == part[k];
    assert acts[n].who == 0;
  }

  lemma RoundsVisit(one: seq<System>, two: seq<System>, a: QueuedUrl, b: QueuedUrl, delay: nat)
    requires RoundWorkers(one, a) && RoundWorkers(two, b)
    ensures Visit(one[..9] + two, TwoRounds(delay), 3, 6) && Visit(one[..9] + two, TwoRounds(delay), 12, 15)
  {
    forall n: nat | n < 18 ensures
        var w := Mover(one[..9] + two, TwoRounds(delay), n);
        && (w.Reserving? <==> n == 3 || n == 12)
        && (n == 6 ==> w == Fetching(a)) && (n == 15 ==> w == Fetching(b)) && TwoRounds(delay)[n].who == 0
    {
      RoundsMovers(one, two, a, b, delay, n);
    }
    hide Mover;
  }

  lemma RoundsTimed(cfg: Config, one: seq<System>, two: seq<System>, a: QueuedUrl, b: QueuedUrl)
    requires RoundWorkers(one, a) && RoundWorkers(two, b) && cfg.delay >= 1 && HostOf(a) == HostOf(b)
    requires one[3].sh.frontier.hostNextOk == map[]
    requires two[3].sh.frontier.hostNextOk == map[HostOf(a) := cfg.delay]
    ensures Timed(one[..9] + two, TwoRounds(cfg.delay))
    ensures Mover(one[..9] + two, TwoRounds(cfg.delay), 3).Reserving? && Begins(one[..9] + two, TwoRounds(cfg.delay), 3) == 0
  {
    var states, acts := one[..9] + two, TwoRounds(cfg.delay);
    RoundsMovers(one, two, a, b, cfg.delay, 3);
    RoundsMovers(one, two, a, b, cfg.delay, 12);
    assert states[3] == one[3] && states[12] == two[3];
    forall m: nat, q: nat | Mover(states, acts, m).Reserving? && NextOf(acts, m, q)
      ensures Slot(states, acts, m) <= acts[q].ev.now
    {
      RoundsMovers(one, two, a, b, cfg.delay, m);
      RoundsMovers(one, two, a, b, cfg.delay, m + 1);
      assert q == m + 1;
    }
  }

  /** So the requests are spaced in every crawl exactly when they must go out on time, or need not be apart:
      one tick lost to the robots rules is enough. */
  lemma PoliteIff(cfg: Config, resumed: set<Hash>, a: Url, b: Url, lag: nat)
    requires SameHost(cfg, a, b)
    ensures Polite(cfg, resumed, [a, b], 1, lag) <==> cfg.delay == 0 || lag == 0
  {
    if cfg.delay == 0 || lag == 0 {
      OnTimePolite(cfg, resumed, [a, b], 1, lag);
    } else {
      var states := LateFetch(cfg, resumed, a, b);
      hide Pair, Begins, TwoRounds, Init;
      assert !Apart(TwoRounds(cfg.delay)[6].ev.now, TwoRounds(cfg.delay)[15].ev.now, cfg.delay);
    }
  }
}
