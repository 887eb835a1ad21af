/** A crawl does finite work, even on an infinite site, and under a fair scheduler every worker
    leaves. The page budget is what bounds it: an item either takes a unit of budget or queues
    nothing. */
module CrawlTermination {
  import opened Wrappers
  import opened Frontier
  import opened Crawl
  import opened CrawlSafety

  const PER_ITEM := 11
  const PER_LINK := PER_ITEM + 2

  /** Steps a worker can still take on its item before it either rests or spends budget, plus
      one while it has not left. */
  function Weight(w: Worker): nat {
    match w
    case Exited => 0
    case Top => 1
    case SawEmpty => 1
    case Sleeping => 1
    case Leaving => 2
    case Counting(_, _) => 3
    case Spending(_, _) => 4
    case Deduping(_, _) => 5
    case Fetching(_) => 6
    case AtRobots(_) => 7
    case AtQuota(_) => 8
    case Reserving(_) => 9
    case Start(_) => 10
    case Popped(_) => 11
    case Linking(_, links) => 3 + PER_LINK * |links|
    case CountingLink(_, links) => 4 + PER_LINK * |links|
    case Recording(_, page) => 4 + PER_LINK * |page.links|
    case Saving(_, page) => 5 + PER_LINK * |page.links|
  }

  ghost function Effort(s: System): nat {
    PER_ITEM * |s.sh.frontier.heap| + Total(s.ws, Weight)
  }

  /** Finding the queue empty, finding others in flight, and waking up again. */
  ghost predicate Rests(s: System, a: Action) {
    a.who < |s.ws| ==> WorkerRests(s.sh, s.ws[a.who])
  }

  ghost predicate Smaller(s': System, s: System) {
    s'.sh.budget < s.sh.budget || (s'.sh.budget == s.sh.budget && Effort(s') < Effort(s))
  }

  ghost predicate WorkerRests(sh: Shared, w: Worker) {
    || (w.Top? && sh.frontier.heap == {})
    || (w.SawEmpty? && sh.inflight != 0)
    || w.Sleeping?
    || w.Exited?
  }

  lemma RestMoves(cfg: Config, sh: Shared, w: Worker, ev: Event)
    requires WorkerRests(sh, w)
    ensures var (sh', w') := Step(cfg, sh, w, ev);
            && sh' == sh && Weight(w') == Weight(w)
            && (sh.inflight == 0 ==> RestMove(w, w'))
  {}

  predicate RestMove(w: Worker, w': Worker) {
    (w.Top? && w'.SawEmpty?) || (w.Sleeping? && w'.Top?) || (w.Exited? && w'.Exited?)
  }

  ghost predicate LessEffort(sh': Shared, w': Worker, sh: Shared, w: Worker) {
    PER_ITEM * |sh'.frontier.heap| + Weight(w') < PER_ITEM * |sh.frontier.heap| + Weight(w)
  }

  lemma LinkMoves(cfg: Config, sh: Shared, item: QueuedUrl, links: seq<Option<Url>>)
    requires sh.frontier.Valid()
    ensures var (sh', w') := StepLink(cfg, sh, item, links);
            sh'.budget == sh.budget && LessEffort(sh', w', sh, Linking(item, links))
  {
    hide StepLink;
    StepLinkQueue(cfg, sh, item, links);
  }

  lemma PopMoves(sh: Shared)
    requires sh.frontier.Valid() && sh.frontier.heap != {}
    ensures var (sh', w') := StepPop(sh); sh'.budget == sh.budget && LessEffort(sh', w', sh, Top)
  {
    StepPopQueue(sh);
  }

  lemma BusyMoves(cfg: Config, sh: Shared, w: Worker, ev: Event)
    requires sh.frontier.Valid() && !WorkerRests(sh, w)
    ensures var (sh', w') := Step(cfg, sh, w, ev);
            sh'.budget < sh.budget || (sh'.budget == sh.budget && LessEffort(sh', w', sh, w))
  {
    if w.Top? {
      PopMoves(sh);
    } else if w.Linking? {
      LinkMoves(cfg, sh, w.item, w.links);
    } else {
      StepKeepsQueue(cfg, sh, w, ev);
      LocalWeight(cfg, sh, w, ev);
      hide Step, Weight;
    }
  }

  lemma LocalWeight(cfg: Config, sh: Shared, w: Worker, ev: Event)
    requires !w.Top? && !w.Linking? && !WorkerRests(sh, w)
    ensures var (sh', w') := Step(cfg, sh, w, ev);
            sh'.budget < sh.budget || (sh'.budget == sh.budget && Weight(w') < Weight(w))
  {}

  /** Every step but a rest uses something up for good; a rest uses nothing. */
  lemma StepProgress(cfg: Config, s: System, a: Action)
    requires s.sh.frontier.Valid()
    ensures !Rests(s, a) ==> Smaller(Apply(cfg, s, a), s)
    ensures Rests(s, a) ==> Apply(cfg, s, a).sh == s.sh && Effort(Apply(cfg, s, a)) == Effort(s)
  {
    if a.who < |s.ws| {
      var w := s.ws[a.who];
      var (sh', w') := Step(cfg, s.sh, w, a.ev);
      TotalUpdate(s.ws, a.who, w', Weight);
      if WorkerRests(s.sh, w) {
        RestMoves(cfg, s.sh, w, a.ev);
      } else {
        BusyMoves(cfg, s.sh, w, a.ev);
      }
    }
  }

  // ---------------------------------------------------------------- endless runs

  /** The states an endless schedule leads through. */
  ghost predicate IsRun(cfg: Config, st: nat -> System, acts: nat -> Action) {
    forall n: nat :: Follows(cfg, st, acts, n)
  }

  ghost predicate Follows(cfg: Config, st: nat -> System, acts: nat -> Action, n: nat) {
    st(n + 1) == Apply(cfg, st(n), acts(n))
  }

  lemma {:induction false} InvAt(cfg: Config, resumed: set<Hash>, st: nat -> System, acts: nat -> Action, n: nat)
    requires IsRun(cfg, st, acts) && Inv(cfg, resumed, st(0))
    ensures Inv(cfg, resumed, st(n)) && |st(n).ws| == |st(0).ws|
  {
    if n > 0 {
      InvAt(cfg, resumed, st, acts, n - 1);
      assert Follows(cfg, st, acts, n - 1);
      StepKeepsInv(cfg, resumed, st(n - 1), acts(n - 1));
    }
  }

  /** A pair of counters that only goes down, and goes down whenever there is no rest, leaves
      only rests in the end. */
  lemma {:induction false} OnlyRestsRemain(budget: nat -> nat, effort: nat -> nat, rests: nat -> bool, n: nat)
    returns (k: nat)
    requires forall m: nat :: rests(m) ==> budget(m + 1) == budget(m) && effort(m + 1) == effort(m)
    requires forall m: nat :: !rests(m) ==>
               budget(m + 1) < budget(m) || (budget(m + 1) == budget(m) && effort(m + 1) < effort(m))
    ensures n <= k && forall m: nat :: k <= m ==> rests(m)
    decreases budget(n), effort(n)
  {
    if b: nat :| n <= b && !rests(b) {
      var m := n;
      while rests(m)
        invariant n <= m <= b
        invariant budget(m) == budget(n) && effort(m) == effort(n)
        decreases b - m
      {
        m := m + 1;
      }
      k := OnlyRestsRemain(budget, effort, rests, m + 1);
    } else {
      k := n;
    }
  }

  /** Whatever the schedule and whatever the site serves, from some point on nothing is fetched,
      stored or queued any more: workers only look and wait. */
  lemma FiniteWork(cfg: Config, resumed: set<Hash>, st: nat -> System, acts: nat -> Action) returns (k: nat)
    requires IsRun(cfg, st, acts) && Inv(cfg, resumed, st(0))
    ensures forall m: nat :: k <= m ==> Rests(st(m), acts(m))
  {
    var rests := (m: nat) => Rests(st(m), acts(m));
    var budget := (m: nat) => st(m).sh.budget;
    var effort := (m: nat) => Effort(st(m));
    forall m: nat
      ensures rests(m) ==> budget(m + 1) == budget(m) && effort(m + 1) == effort(m)
      ensures !rests(m) ==> budget(m + 1) < budget(m) || (budget(m + 1) == budget(m) && effort(m + 1) < effort(m))
    {
      InvAt(cfg, resumed, st, acts, m);
      assert Follows(cfg, st, acts, m);
      StepProgress(cfg, st(m), acts(m));
    }
    k := OnlyRestsRemain(budget, effort, rests, 0);
    forall m: nat | k <= m ensures Rests(st(m), acts(m)) {
      assert rests(m);
    }
  }

  // ---------------------------------------------------------------- fair runs

  ghost predicate TurnAfter(acts: nat -> Action, w: nat, n: nat) {
    exists m: nat :: n <= m && acts(m).who == w
  }

  /** Every worker gets its turn again and again. */
  ghost predicate Fair(acts: nat -> Action, workers: nat) {
    forall w: nat, n: nat :: w < workers ==> TurnAfter(acts, w, n)
  }

  ghost function WorkerAt(st: nat -> System, w: nat, n: nat): Worker {
    if w < |st(n).ws| then st(n).ws[w] else Exited
  }

  lemma NextTurn(st: nat -> System, acts: nat -> Action, w: nat, n: nat) returns (m: nat)
    requires TurnAfter(acts, w, n)
    requires forall k: nat :: acts(k).who != w ==> WorkerAt(st, w, k + 1) == WorkerAt(st, w, k)
    ensures n <= m && acts(m).who == w && WorkerAt(st, w, m) == WorkerAt(st, w, n)
  {
    var b: nat :| n <= b && acts(b).who == w;
    m := n;
    while acts(m).who != w
      invariant n <= m <= b
      invariant WorkerAt(st, w, m) == WorkerAt(st, w, n)
      decreases b - m
    {
      m := m + 1;
    }
  }

  /** A worker that only ever rests, with nobody in flight, has left already: awake it would look
      into the empty queue, and then leave. */
  lemma RestingWorkerExited(st: nat -> System, acts: nat -> Action, w: nat, k: nat)
    requires forall n: nat :: TurnAfter(acts, w, n)
    requires forall n: nat :: acts(n).who != w ==> WorkerAt(st, w, n + 1) == WorkerAt(st, w, n)
    requires forall n: nat :: k <= n && acts(n).who == w ==> RestMove(WorkerAt(st, w, n), WorkerAt(st, w, n + 1))
    ensures WorkerAt(st, w, k) == Exited
  {
    var m := NextTurn(st, acts, w, k);
    var m' := NextTurn(st, acts, w, m + 1);
    var m'' := NextTurn(st, acts, w, m' + 1);
    assert RestMove(WorkerAt(st, w, m), WorkerAt(st, w, m + 1));
    assert RestMove(WorkerAt(st, w, m'), WorkerAt(st, w, m' + 1));
    assert RestMove(WorkerAt(st, w, m''), WorkerAt(st, w, m'' + 1));
  }

  lemma OthersStandStill(cfg: Config, resumed: set<Hash>, st: nat -> System, acts: nat -> Action, w: nat)
    requires IsRun(cfg, st, acts) && Inv(cfg, resumed, st(0))
    ensures forall n: nat :: acts(n).who != w ==> WorkerAt(st, w, n + 1) == WorkerAt(st, w, n)
  {
    forall n: nat | acts(n).who != w ensures WorkerAt(st, w, n + 1) == WorkerAt(st, w, n) {
      assert Follows(cfg, st, acts, n);
    }
  }

  lemma NobodyInFlight(cfg: Config, resumed: set<Hash>, st: nat -> System, acts: nat -> Action, k: nat, n: nat)
    requires IsRun(cfg, st, acts) && Inv(cfg, resumed, st(0)) && Fair(acts, |st(0).ws|)
    requires forall m: nat :: k <= m ==> Rests(st(m), acts(m))
    requires k <= n
    ensures st(n).sh.inflight == 0
  {
    InvAt(cfg, resumed, st, acts, n);
    forall w | 0 <= w < |st(n).ws| ensures InFlight(st(n).ws[w]) == 0 {
      OthersStandStill(cfg, resumed, st, acts, w);
      var m := NextTurn(st, acts, w, n);
      InvAt(cfg, resumed, st, acts, m);
      assert Rests(st(m), acts(m));
    }
    TotalZero(st(n).ws, InFlight);
  }

  /** Under a fair schedule every crawl ends; `DrainedAtExit` says how it then stands. */
  lemma FairCrawlEnds(cfg: Config, resumed: set<Hash>, seeds: seq<Url>, workers: nat,
                      st: nat -> System, acts: nat -> Action)
    requires workers > 0 && Fair(acts, workers)
    requires st(0) == Init(cfg, resumed, seeds, workers) && IsRun(cfg, st, acts)
    ensures exists k: nat :: AllExited(st(k))
  {
    InitInv(cfg, resumed, seeds, workers);
    var k := FiniteWork(cfg, resumed, st, acts);
    InvAt(cfg, resumed, st, acts, k);
    forall w: nat | w < |st(k).ws| ensures st(k).ws[w] == Exited {
      OthersStandStill(cfg, resumed, st, acts, w);
      forall n: nat | k <= n && acts(n).who == w ensures RestMove(WorkerAt(st, w, n), WorkerAt(st, w, n + 1)) {
        InvAt(cfg, resumed, st, acts, n);
        NobodyInFlight(cfg, resumed, st, acts, k, n);
        assert Rests(st(n), acts(n)) && Follows(cfg, st, acts, n);
        RestMoves(cfg, st(n).sh, st(n).ws[w], acts(n).ev);
      }
      RestingWorkerExited(st, acts, w, k);
    }
    assert AllExited(st(k));
  }
}
