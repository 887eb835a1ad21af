/** What a crawl reports, told by what its steps met: every counter, the pages, the hosts and the hashes. */
module CrawlLedger {
  import opened Wrappers
  import opened Frontier
  import opened Crawl
  import opened CrawlSafety

  // ---------------------------------------------------------------- outcomes

  /** What a step makes of its item for good, by what it meets: a host that used up its quota, robots rules
      that forbid the page, an answer without a body, a body seen before, a body that cannot be saved. */
  function Verdict(cfg: Config, sh: Shared, w: Worker, ev: Event): Option<Outcome> {
    match w
    case AtQuota(item) => if sh.admitted[HostOf(item)] < cfg.maxPagesPerHost then None else Some(QuotaSkipped)
    case AtRobots(_) => if cfg.respectRobots && !ev.robotsAllow then Some(Blocked) else None
    case Fetching(_) => if ev.fetched.Body? then None else Some(if ev.fetched.NotModified? then Revalidated else Failed)
    case Deduping(_, page) => if page.hash in sh.contentSeen then Some(Duplicate) else None
    case Saving(_, _) => if cfg.saving && !ev.saved then Some(SaveFailed) else None
    case _ => None
  }

  /** The counter that shows an outcome; a failed save is shown as a failure. */
  function Shown(sh: Shared, o: Outcome): int {
    match o
    case QuotaSkipped => sh.quotaSkipped
    case Blocked => sh.blocked
    case Revalidated => sh.revalidated
    case Failed => sh.failed - sh.saveFailures
    case Duplicate => sh.duplicates
    case SaveFailed => sh.saveFailures
  }

  /** A worker about to bump the counter. */
  ghost function Waiting(o: Outcome): Worker -> nat {
    (w: Worker) => if w.Counting? && w.outcome == o then 1 else 0
  }

  ghost function Tally(s: System, o: Outcome): int {
    Shown(s.sh, o) + Total(s.ws, Waiting(o))
  }

  /** How often a run met an outcome. */
  ghost function Met(cfg: Config, s: System, acts: seq<Action>, o: Outcome): nat {
    if acts == [] then 0
    else
      var n := |acts| - 1;
      Met(cfg, s, acts[..n], o) + (if MeetsNow(cfg, Run(cfg, s, acts[..n]), acts[n], o) then 1 else 0)
  }

  ghost predicate MeetsNow(cfg: Config, s: System, a: Action, o: Outcome) {
    a.who < |s.ws| && Verdict(cfg, s.sh, s.ws[a.who], a.ev) == Some(o)
  }

  lemma LocalTally(cfg: Config, sh: Shared, w: Worker, ev: Event, o: Outcome)
    requires w.AtQuota? ==> sh.admitted[HostOf(w.item)] == sh.frontier.Pages(HostOf(w.item))
    ensures var (sh', w') := Step(cfg, sh, w, ev);
            Shown(sh', o) + Waiting(o)(w')
            == Shown(sh, o) + Waiting(o)(w) + (if Verdict(cfg, sh, w, ev) == Some(o) then 1 else 0)
  {}

  lemma StepTally(cfg: Config, s: System, a: Action, o: Outcome)
    requires QuotaKept(cfg, s)
    ensures Tally(Apply(cfg, s, a), o) == Tally(s, o) + (if MeetsNow(cfg, s, a, o) then 1 else 0)
  {
    if a.who < |s.ws| {
      LocalTally(cfg, s.sh, s.ws[a.who], a.ev, o);
      hide Step, Waiting, Verdict, Shown;
      TotalUpdate(s.ws, a.who, Step(cfg, s.sh, s.ws[a.who], a.ev).1, Waiting(o));
    }
  }

  /** In every state of every crawl, each counter shows how often its outcome was met, but for workers that
      are about to count one. */
  lemma {:induction false} CountersTell(cfg: Config, resumed: set<Hash>, seeds: seq<Url>, workers: nat, acts: seq<Action>,
                                        o: Outcome)
    requires workers > 0
    ensures var start := Init(cfg, resumed, seeds, workers); Tally(Run(cfg, start, acts), o) == Met(cfg, start, acts, o)
  {
    var start := Init(cfg, resumed, seeds, workers);
    if acts == [] {
      SeededInv(cfg, resumed, seeds);
      TotalZero(start.ws, Waiting(o));
    } else {
      var n := |acts| - 1;
      CountersTell(cfg, resumed, seeds, workers, acts[..n], o);
      AlwaysInv(cfg, resumed, seeds, workers, acts[..n]);
      hide Tally, MeetsNow, Apply, Init;
      StepTally(cfg, Run(cfg, start, acts[..n]), acts[n], o);
    }
  }

  /** When all workers have left, the counters are exactly that. */
  lemma FinalCounters(cfg: Config, resumed: set<Hash>, seeds: seq<Url>, workers: nat, acts: seq<Action>)
    requires workers > 0 && AllExited(Run(cfg, Init(cfg, resumed, seeds, workers), acts))
    ensures var start := Init(cfg, resumed, seeds, workers);
            var sh := Run(cfg, start, acts).sh;
            && sh.quotaSkipped == Met(cfg, start, acts, QuotaSkipped) && sh.blocked == Met(cfg, start, acts, Blocked)
            && sh.revalidated == Met(cfg, start, acts, Revalidated) && sh.duplicates == Met(cfg, start, acts, Duplicate)
            && sh.failed == Met(cfg, start, acts, Failed) + Met(cfg, start, acts, SaveFailed)
  {
    hide Run, Met, Init;
    FinalCounter(cfg, resumed, seeds, workers, acts, QuotaSkipped);
    FinalCounter(cfg, resumed, seeds, workers, acts, Blocked);
    FinalCounter(cfg, resumed, seeds, workers, acts, Revalidated);
    FinalCounter(cfg, resumed, seeds, workers, acts, Duplicate);
    FinalCounter(cfg, resumed, seeds, workers, acts, Failed);
    FinalCounter(cfg, resumed, seeds, workers, acts, SaveFailed);
  }

  lemma FinalCounter(cfg: Config, resumed: set<Hash>, seeds: seq<Url>, workers: nat, acts: seq<Action>, o: Outcome)
    requires workers > 0 && AllExited(Run(cfg, Init(cfg, resumed, seeds, workers), acts))
    ensures var start := Init(cfg, resumed, seeds, workers);
            Shown(Run(cfg, start, acts).sh, o) == Met(cfg, start, acts, o)
  {
    hide Run, Met, Init, Shown;
    CountersTell(cfg, resumed, seeds, workers, acts, o);
    TotalZero(Run(cfg, Init(cfg, resumed, seeds, workers), acts).ws, Waiting(o));
  }

  // ---------------------------------------------------------------- pages, hosts, hashes

  datatype Book = Book(pages: seq<PageRecord>, hosts: set<string>, hashes: set<Hash>, dropped: nat, handedOut: seq<QueuedUrl>)

  /** What one step adds: a recorded page, a host visited, a hash looked at, an item given up for having no
      host or for want of budget, an entry taken off the queue. */
  ghost function Entered(b: Book, sh: Shared, w: Worker): Book {
    match w
    case Top => if sh.frontier.heap == {} then b else b.(handedOut := b.handedOut + [sh.frontier.First().item])
    case Start(item) =>
      if item.url.host == None || item.url.host == Some("") then b.(dropped := b.dropped + 1)
      else b.(hosts := b.hosts + {item.url.host.value})
    case Deduping(_, page) => b.(hashes := b.hashes + {page.hash})
    case Spending(_, _) => if sh.budget == 0 then b.(dropped := b.dropped + 1) else b
    case Recording(item, page) => b.(pages := b.pages + [PageRecord(item.url, item.depth, page.hash)])
    case _ => b
  }

  ghost function BookOf(cfg: Config, s: System, acts: seq<Action>): Book {
    if acts == [] then Book([], {}, s.sh.contentSeen, 0, [])
    else
      var n := |acts| - 1;
      var before, b := Run(cfg, s, acts[..n]), BookOf(cfg, s, acts[..n]);
      if acts[n].who < |before.ws| then Entered(b, before.sh, before.ws[acts[n].who]) else b
  }

  ghost function Reported(sh: Shared): Book {
    Book(sh.pages, sh.hostsSeen, sh.contentSeen, sh.dropped, sh.poppedItems)
  }

  lemma LocalBook(cfg: Config, sh: Shared, w: Worker, ev: Event)
    ensures Reported(Step(cfg, sh, w, ev).0) == Entered(Reported(sh), sh, w)
  {
    if w.Deduping? && w.page.hash in sh.contentSeen { assert sh.contentSeen + {w.page.hash} == sh.contentSeen; }
  }

  /** In every state the pages, hosts, hashes, given-up items and handed-out URLs are those of the steps. */
  lemma {:induction false} BooksKept(cfg: Config, resumed: set<Hash>, seeds: seq<Url>, workers: nat, acts: seq<Action>)
    ensures var start := Init(cfg, resumed, seeds, workers); Reported(Run(cfg, start, acts).sh) == BookOf(cfg, start, acts)
  {
    var start := Init(cfg, resumed, seeds, workers);
    if acts == [] {
      SeededInv(cfg, resumed, seeds);
    } else {
      var n := |acts| - 1;
      BooksKept(cfg, resumed, seeds, workers, acts[..n]);
      var s := Run(cfg, start, acts[..n]);
      hide Step, Entered, Init, Reported;
      if acts[n].who < |s.ws| { LocalBook(cfg, s.sh, s.ws[acts[n].who], acts[n].ev); }
    }
  }
}
