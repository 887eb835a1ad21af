/** The crawl: any number of workers over one shared frontier. Every lock region and every
    atomic access of a worker is one step, and the steps of different workers interleave
    freely. What the network, the disk and the clock answer comes in from outside. */
module Crawl {
  import opened Wrappers
  import opened Frontier

  /** Hex BLAKE3 of a body. */
  type Hash = string

  datatype Config = Config(
    maxPages: nat,
    maxDepth: nat,
    delay: nat,
    maxPagesPerHost: nat,
    maxUrlLen: nat,
    seedHosts: set<string>,
    allowedHosts: Option<set<string>>,
    respectRobots: bool,
    saving: bool)

  /** A fetched page: the hash of its body, and its links, each resolved or not. */
  datatype Page = Page(hash: Hash, links: seq<Option<Url>>)

  datatype Fetched = NotModified | FetchError | Body(page: Page)

  /** What the outside world answers during one step. */
  datatype Event = Event(now: nat, robotsAllow: bool, fetched: Fetched, saved: bool)

  datatype Outcome = QuotaSkipped | Blocked | Revalidated | Failed | Duplicate | SaveFailed

  /** Where a worker stands, with the locals it still needs. */
  datatype Worker =
    | Top                                               // about to pop
    | SawEmpty                                          // the pop found nothing
    | Sleeping                                          // somebody else is in flight
    | Exited
    | Popped(item: QueuedUrl)                           // popped, not yet counted in flight
    | Start(item: QueuedUrl)
    | Reserving(item: QueuedUrl)
    | AtQuota(item: QueuedUrl)
    | AtRobots(item: QueuedUrl)
    | Fetching(item: QueuedUrl)
    | Deduping(item: QueuedUrl, page: Page)
    | Spending(item: QueuedUrl, page: Page)             // about to take a unit of page budget
    | Saving(item: QueuedUrl, page: Page)
    | Recording(item: QueuedUrl, page: Page)
    | Counting(item: QueuedUrl, outcome: Outcome)       // about to bump an outcome counter
    | Linking(item: QueuedUrl, links: seq<Option<Url>>)
    | CountingLink(item: QueuedUrl, links: seq<Option<Url>>) // pushed a link, not yet counted
    | Leaving                                           // about to leave flight

  datatype PageRecord = PageRecord(url: Url, depth: nat, hash: Hash)

  /** The shared state, followed by history the program itself does not keep. */
  datatype Shared = Shared(
    frontier: Queue,
    contentSeen: set<Hash>,
    hostsSeen: set<string>,
    pages: seq<PageRecord>,
    budget: nat,
    inflight: int,
    failed: nat,
    duplicates: nat,
    blocked: nat,
    quotaSkipped: nat,
    discovered: nat,
    revalidated: nat,
    // history
    dropped: nat,                 // items given up for having no host or for want of budget
    saveFailures: nat,
    poppedItems: seq<QueuedUrl>,
    admitted: multiset<string>)   // hosts that passed the quota gate, once per pass

  datatype System = System(sh: Shared, ws: seq<Worker>)

  // ---------------------------------------------------------------- steps

  function Bump(sh: Shared, o: Outcome): Shared {
    match o
    case QuotaSkipped => sh.(quotaSkipped := sh.quotaSkipped + 1)
    case Blocked => sh.(blocked := sh.blocked + 1)
    case Revalidated => sh.(revalidated := sh.revalidated + 1)
    case Failed => sh.(failed := sh.failed + 1)
    case Duplicate => sh.(duplicates := sh.duplicates + 1)
    case SaveFailed => sh.(failed := sh.failed + 1, saveFailures := sh.saveFailures + 1)
  }

  predicate Wanted(cfg: Config, link: Option<Url>) {
    && link.Some?
    && (cfg.allowedHosts.Some? ==> link.value.host.Some? && link.value.host.value in cfg.allowedHosts.value)
  }

  function Push(cfg: Config, sh: Shared, url: Url, depth: nat): Shared {
    sh.(frontier := sh.frontier.Push(url, depth, cfg.maxUrlLen, cfg.seedHosts))
  }

  function HostOf(item: QueuedUrl): string {
    if item.url.host.Some? then item.url.host.value else ""
  }

  ghost function StepPop(sh: Shared): (Shared, Worker) {
    if sh.frontier.heap == {} then (sh, SawEmpty)
    else
      var item := sh.frontier.First().item;
      (sh.(frontier := sh.frontier.Pop(), poppedItems := sh.poppedItems + [item]), Popped(item))
  }

  function StepStart(sh: Shared, item: QueuedUrl): (Shared, Worker) {
    if HostOf(item) == "" then (sh.(dropped := sh.dropped + 1), Leaving)
    else (sh.(hostsSeen := sh.hostsSeen + {HostOf(item)}), Reserving(item))
  }

  function StepQuota(cfg: Config, sh: Shared, item: QueuedUrl): (Shared, Worker) {
    var host := HostOf(item);
    var sh' := sh.(frontier := sh.frontier.TakeQuota(host, cfg.maxPagesPerHost));
    if sh.frontier.QuotaExhausted(host, cfg.maxPagesPerHost) then (sh', Counting(item, QuotaSkipped))
    else (sh'.(admitted := sh.admitted + multiset{host}), AtRobots(item))
  }

  function StepFetch(sh: Shared, item: QueuedUrl, fetched: Fetched): (Shared, Worker) {
    match fetched
    case NotModified => (sh, Counting(item, Revalidated))
    case FetchError => (sh, Counting(item, Failed))
    case Body(page) => (sh, Deduping(item, page))
  }

  function StepDedup(sh: Shared, item: QueuedUrl, page: Page): (Shared, Worker) {
    if page.hash in sh.contentSeen then (sh, Counting(item, Duplicate))
    else (sh.(contentSeen := sh.contentSeen + {page.hash}), Spending(item, page))
  }

  function StepSpend(sh: Shared, item: QueuedUrl, page: Page): (Shared, Worker) {
    if sh.budget == 0 then (sh.(dropped := sh.dropped + 1), Leaving)
    else (sh.(budget := sh.budget - 1), Saving(item, page))
  }

  function StepRecord(cfg: Config, sh: Shared, item: QueuedUrl, page: Page): (Shared, Worker) {
    (sh.(pages := sh.pages + [PageRecord(item.url, item.depth, page.hash)]),
     if item.depth >= cfg.maxDepth then Leaving else Linking(item, page.links))
  }

  function StepLink(cfg: Config, sh: Shared, item: QueuedUrl, links: seq<Option<Url>>): (Shared, Worker) {
    if links == [] then (sh, Leaving)
    else if !Wanted(cfg, links[0]) then (sh, Linking(item, links[1..]))
    else
      (Push(cfg, sh, links[0].value, item.depth + 1),
       if sh.frontier.Admits(links[0].value, cfg.maxUrlLen) then CountingLink(item, links[1..])
       else Linking(item, links[1..]))
  }

  /** One step of one worker. */
  ghost function Step(cfg: Config, sh: Shared, w: Worker, ev: Event): (Shared, Worker) {
    match w
    case Top => StepPop(sh)
    case SawEmpty => (sh, if sh.inflight == 0 then Exited else Sleeping)
    case Sleeping => (sh, Top)
    case Exited => (sh, Exited)
    case Popped(item) => (sh.(inflight := sh.inflight + 1), Start(item))
    case Start(item) => StepStart(sh, item)
    case Reserving(item) =>
      (sh.(frontier := sh.frontier.Reserve(HostOf(item), ev.now, cfg.delay)), AtQuota(item))
    case AtQuota(item) => StepQuota(cfg, sh, item)
    case AtRobots(item) =>
      (sh, if cfg.respectRobots && !ev.robotsAllow then Counting(item, Blocked) else Fetching(item))
    case Fetching(item) => StepFetch(sh, item, ev.fetched)
    case Deduping(item, page) => StepDedup(sh, item, page)
    case Spending(item, page) => StepSpend(sh, item, page)
    case Saving(item, page) =>
      (sh, if cfg.saving && !ev.saved then Counting(item, SaveFailed) else Recording(item, page))
    case Recording(item, page) => StepRecord(cfg, sh, item, page)
    case Counting(item, o) => (Bump(sh, o), Leaving)
    case Linking(item, links) => StepLink(cfg, sh, item, links)
    case CountingLink(item, links) => (sh.(discovered := sh.discovered + 1), Linking(item, links))
    case Leaving => (sh.(inflight := sh.inflight - 1), Top)
  }

  /** Which worker moves, and what the world answers it. */
  datatype Action = Action(who: nat, ev: Event)

  ghost function Apply(cfg: Config, s: System, a: Action): System {
    if a.who < |s.ws| then
      var (sh', w') := Step(cfg, s.sh, s.ws[a.who], a.ev);
      System(sh', s.ws[a.who := w'])
    else s
  }

  ghost function Run(cfg: Config, s: System, acts: seq<Action>): System {
    if acts == [] then s else Apply(cfg, Run(cfg, s, acts[..|acts| - 1]), acts[|acts| - 1])
  }

  // ---------------------------------------------------------------- the start of a crawl

  ghost function Enqueue(cfg: Config, sh: Shared, url: Url): Shared {
    var sh' := Push(cfg, sh, url, 0);
    if sh.frontier.Admits(url, cfg.maxUrlLen) then sh'.(discovered := sh.discovered + 1) else sh'
  }

  /** Seeds, and the URLs listed by sitemaps, enter at depth 0 before any worker starts. */
  ghost function Seeded(cfg: Config, resumed: set<Hash>, seeds: seq<Url>): Shared {
    if seeds == [] then
      Shared(EMPTY_QUEUE, resumed, {}, [], cfg.maxPages, 0, 0, 0, 0, 0, 0, 0, 0, 0, [], multiset{})
    else Enqueue(cfg, Seeded(cfg, resumed, seeds[..|seeds| - 1]), seeds[|seeds| - 1])
  }

  ghost function Init(cfg: Config, resumed: set<Hash>, seeds: seq<Url>, workers: nat): System {
    System(Seeded(cfg, resumed, seeds), seq(workers, _ => Top))
  }

  ghost predicate AllExited(s: System) {
    forall i :: 0 <= i < |s.ws| ==> s.ws[i] == Exited
  }
}
