/** What holds in every reachable state of a crawl, however its workers interleave. */
module CrawlSafety {
  import opened Wrappers
  import opened Frontier
  import opened Crawl

  // ---------------------------------------------------------------- sums over the workers

  ghost function Total(ws: seq<Worker>, f: Worker -> nat): nat {
    if ws == [] then 0 else Total(ws[..|ws| - 1], f) + f(ws[|ws| - 1])
  }

  lemma {:induction false} TotalUpdate(ws: seq<Worker>, i: nat, w: Worker, f: Worker -> nat)
    requires i < |ws|
    ensures Total(ws[i := w], f) + f(ws[i]) == Total(ws, f) + f(w)
  {
    var n := |ws| - 1;
    if i == n {
      assert ws[i := w][..n] == ws[..n];
    } else {
      TotalUpdate(ws[..n], i, w, f);
      assert ws[i := w][..n] == ws[..n][i := w];
    }
  }

  lemma {:induction false} TotalZero(ws: seq<Worker>, f: Worker -> nat)
    requires forall i :: 0 <= i < |ws| ==> f(ws[i]) == 0
    ensures Total(ws, f) == 0
  {
    if ws != [] { TotalZero(ws[..|ws| - 1], f); }
  }

  /** Between raising and lowering `inflight`. */
  function InFlight(w: Worker): nat {
    if w.Top? || w.SawEmpty? || w.Sleeping? || w.Exited? || w.Popped? then 0 else 1
  }

  /** Has an item whose fate no counter shows yet. */
  function Holding(w: Worker): nat {
    if w.Top? || w.SawEmpty? || w.Sleeping? || w.Exited? || w.Linking? || w.CountingLink? || w.Leaving? then 0 else 1
  }

  /** Queued a link that `discovered` does not show yet. */
  function Uncounted(w: Worker): nat {
    if w.CountingLink? then 1 else 0
  }

  /** Took a unit of budget that neither `pages` nor the save failures show yet. */
  function Spent(w: Worker): nat {
    if w.Saving? || w.Recording? || (w.Counting? && w.outcome.SaveFailed?) then 1 else 0
  }

  // ---------------------------------------------------------------- the invariants

  ghost predicate InFlightCounted(s: System) {
    s.sh.inflight == Total(s.ws, InFlight)
  }

  /** Every URL ever queued is still queued, in some worker's hands, or shown by one counter. */
  ghost predicate Accounted(s: System) {
    && s.sh.frontier.Valid()
    && s.sh.discovered + Total(s.ws, Uncounted)
       == |s.sh.frontier.heap| + Total(s.ws, Holding) + Settled(s.sh)
  }

  ghost function Settled(sh: Shared): nat {
    |sh.pages| + sh.failed + sh.duplicates + sh.blocked + sh.quotaSkipped + sh.revalidated + sh.dropped
  }

  ghost predicate BudgetExact(cfg: Config, s: System) {
    |s.sh.pages| + s.sh.budget + Total(s.ws, Spent) + s.sh.saveFailures == cfg.maxPages
  }

  /** A worker past deduplication owns its page's hash until the page is recorded. */
  predicate Owns(w: Worker) {
    w.Spending? || w.Saving? || w.Recording?
  }

  ghost predicate ContentDistinct(resumed: set<Hash>, s: System) {
    && resumed <= s.sh.contentSeen
    && (forall k :: 0 <= k < |s.sh.pages| ==> s.sh.pages[k].hash in s.sh.contentSeen - resumed)
    && (forall k, l :: 0 <= k < l < |s.sh.pages| ==> s.sh.pages[k].hash != s.sh.pages[l].hash)
    && (forall i :: 0 <= i < |s.ws| && Owns(s.ws[i]) ==> s.ws[i].page.hash in s.sh.contentSeen - resumed)
    && (forall i, k :: 0 <= i < |s.ws| && Owns(s.ws[i]) && 0 <= k < |s.sh.pages|
          ==> s.ws[i].page.hash != s.sh.pages[k].hash)
    && (forall i, j :: 0 <= i < j < |s.ws| && Owns(s.ws[i]) && Owns(s.ws[j])
          ==> s.ws[i].page.hash != s.ws[j].page.hash)
  }

  /** May still pop: everybody except a worker that found the queue empty and one that left. */
  predicate Live(w: Worker) {
    !w.SawEmpty? && !w.Exited?
  }

  ghost predicate WorkHasAWorker(s: System) {
    s.sh.frontier.heap != {} ==> exists i :: 0 <= i < |s.ws| && Live(s.ws[i])
  }

  predicate HasItem(w: Worker) {
    !w.Top? && !w.SawEmpty? && !w.Sleeping? && !w.Exited? && !w.Leaving?
  }

  ghost predicate DepthBounded(cfg: Config, s: System) {
    && (forall e <- s.sh.frontier.heap :: e.item.depth <= cfg.maxDepth)
    && (forall i :: 0 <= i < |s.ws| && HasItem(s.ws[i]) ==>
          && s.ws[i].item.depth <= cfg.maxDepth
          && (s.ws[i].Linking? || s.ws[i].CountingLink? ==> s.ws[i].item.depth < cfg.maxDepth))
    && (forall k :: 0 <= k < |s.sh.pages| ==> s.sh.pages[k].depth <= cfg.maxDepth)
  }

  /** A seed, or on an allowed host. */
  predicate OnSite(cfg: Config, url: Url, depth: nat) {
    depth == 0 || cfg.allowedHosts.None? || (url.host.Some? && url.host.value in cfg.allowedHosts.value)
  }

  ghost predicate SameSite(cfg: Config, s: System) {
    && (forall e <- s.sh.frontier.heap :: OnSite(cfg, e.item.url, e.item.depth))
    && (forall i :: 0 <= i < |s.ws| && HasItem(s.ws[i]) ==> OnSite(cfg, s.ws[i].item.url, s.ws[i].item.depth))
    && (forall k :: 0 <= k < |s.sh.pages| ==> OnSite(cfg, s.sh.pages[k].url, s.sh.pages[k].depth))
  }

  ghost predicate QuotaKept(cfg: Config, s: System) {
    forall h :: s.sh.admitted[h] == s.sh.frontier.Pages(h) <= cfg.maxPagesPerHost
  }

  ghost predicate PoppedOnce(sh: Shared) {
    var q, past := sh.frontier, sh.poppedItems;
    && q.Valid()
    && (forall k :: 0 <= k < |past| ==> past[k].url.text in q.seen)
    && (forall k, e :: 0 <= k < |past| && e in q.heap ==> past[k].url.text != e.item.url.text)
    && (forall k, l :: 0 <= k < l < |past| ==> past[k].url.text != past[l].url.text)
  }

  ghost predicate Inv(cfg: Config, resumed: set<Hash>, s: System) {
    && |s.ws| > 0
    && InFlightCounted(s)
    && Accounted(s)
    && BudgetExact(cfg, s)
    && ContentDistinct(resumed, s)
    && WorkHasAWorker(s)
    && DepthBounded(cfg, s)
    && SameSite(cfg, s)
    && QuotaKept(cfg, s)
    && PoppedOnce(s.sh)
  }

  // ---------------------------------------------------------------- every step keeps them

  lemma StepInFlight(cfg: Config, s: System, a: Action)
    requires InFlightCounted(s) && a.who < |s.ws|
    ensures InFlightCounted(Apply(cfg, s, a))
  {
    LocalInFlight(cfg, s.sh, s.ws[a.who], a.ev);
    hide Step, InFlight;
    TotalUpdate(s.ws, a.who, Step(cfg, s.sh, s.ws[a.who], a.ev).1, InFlight);
  }

  lemma LocalInFlight(cfg: Config, sh: Shared, w: Worker, ev: Event)
    ensures var (sh', w') := Step(cfg, sh, w, ev); sh'.inflight + InFlight(w) == sh.inflight + InFlight(w')
  {}

  ghost predicate SameQueue(q: Queue, q': Queue) {
    q'.heap == q.heap && q'.arrival == q.arrival && q'.seen == q.seen
  }

  lemma StepKeepsQueue(cfg: Config, sh: Shared, w: Worker, ev: Event)
    requires !w.Top? && !w.Linking?
    ensures SameQueue(sh.frontier, Step(cfg, sh, w, ev).0.frontier)
    ensures sh.frontier.Valid() ==> Step(cfg, sh, w, ev).0.frontier.Valid()
  {}

  lemma StepLinkQueue(cfg: Config, sh: Shared, item: QueuedUrl, links: seq<Option<Url>>)
    requires sh.frontier.Valid()
    ensures var (sh', w') := StepLink(cfg, sh, item, links);
            && sh'.frontier.Valid()
            && |sh'.frontier.heap| == |sh.frontier.heap| + Uncounted(w')
            && sh' == sh.(frontier := sh'.frontier)
            && (links == [] ==> w' == Leaving)
            && (links != [] ==> w' == Linking(item, links[1..]) || w' == CountingLink(item, links[1..]))
  {
    hide Queue.Valid, Queue.Push, Queue.Admits;
    if links != [] && Wanted(cfg, links[0]) {
      PushKeepsValid(sh.frontier, links[0].value, item.depth + 1, cfg.maxUrlLen, cfg.seedHosts);
    }
  }

  lemma StepPopQueue(sh: Shared)
    requires sh.frontier.Valid()
    ensures var (sh', w') := StepPop(sh);
            && sh'.frontier.Valid()
            && |sh'.frontier.heap| + Holding(w') == |sh.frontier.heap|
            && sh' == sh.(frontier := sh'.frontier, poppedItems := sh'.poppedItems)
  {
    if sh.frontier.heap != {} { PopKeepsValid(sh.frontier); }
  }

  lemma StepAccounted(cfg: Config, s: System, a: Action)
    requires Accounted(s) && a.who < |s.ws|
    ensures Accounted(Apply(cfg, s, a))
  {
    var w := s.ws[a.who];
    var (sh', w') := Step(cfg, s.sh, w, a.ev);
    TotalUpdate(s.ws, a.who, w', Uncounted);
    TotalUpdate(s.ws, a.who, w', Holding);
    assert sh'.frontier.Valid() &&
           sh'.discovered + |s.sh.frontier.heap| + Settled(s.sh) + Uncounted(w') + Holding(w)
           == s.sh.discovered + |sh'.frontier.heap| + Settled(sh') + Uncounted(w) + Holding(w') by {
      StepBalance(cfg, s.sh, w, a.ev);
    }
  }

  /** What a step moves between the queue, the worker's hands and the counters cancels out. */
  lemma StepBalance(cfg: Config, sh: Shared, w: Worker, ev: Event)
    requires sh.frontier.Valid()
    ensures var (sh', w') := Step(cfg, sh, w, ev);
            && sh'.frontier.Valid()
            && sh'.discovered + |sh.frontier.heap| + Settled(sh) + Uncounted(w') + Holding(w)
               == sh.discovered + |sh'.frontier.heap| + Settled(sh') + Uncounted(w) + Holding(w')
  {
    if w.Top? {
      StepPopQueue(sh);
    } else if w.Linking? {
      StepLinkQueue(cfg, sh, w.item, w.links);
    } else {
      StepKeepsQueue(cfg, sh, w, ev);
      LocalSettled(cfg, sh, w, ev);
    }
  }

  lemma LocalSettled(cfg: Config, sh: Shared, w: Worker, ev: Event)
    requires !w.Top? && !w.Linking?
    ensures var (sh', w') := Step(cfg, sh, w, ev);
            sh'.discovered + Settled(sh) + Uncounted(w') + Holding(w)
            == sh.discovered + Settled(sh') + Uncounted(w) + Holding(w')
  {}

  lemma StepBudget(cfg: Config, s: System, a: Action)
    requires BudgetExact(cfg, s) && a.who < |s.ws|
    ensures BudgetExact(cfg, Apply(cfg, s, a))
  {
    LocalBudget(cfg, s.sh, s.ws[a.who], a.ev);
    hide Step, Spent;
    TotalUpdate(s.ws, a.who, Step(cfg, s.sh, s.ws[a.who], a.ev).1, Spent);
  }

  lemma LocalBudget(cfg: Config, sh: Shared, w: Worker, ev: Event)
    ensures var (sh', w') := Step(cfg, sh, w, ev);
            |sh'.pages| + sh'.budget + sh'.saveFailures + Spent(w') == |sh.pages| + sh.budget + sh.saveFailures + Spent(w)
  {}

  /** How a step treats hashes: it may claim a new one, record one it owns, or let one go. */
  lemma LocalContent(cfg: Config, sh: Shared, w: Worker, ev: Event)
    ensures var (sh', w') := Step(cfg, sh, w, ev);
            && (w.Recording? ==> sh'.pages == sh.pages + [PageRecord(w.item.url, w.item.depth, w.page.hash)] && !Owns(w'))
            && (!w.Recording? ==> sh'.pages == sh.pages)
            && (w.Deduping? ==> sh'.contentSeen == sh.contentSeen + {w.page.hash})
            && (!w.Deduping? ==> sh'.contentSeen == sh.contentSeen)
            && (Owns(w') ==> (Owns(w) || (w.Deduping? && w.page.hash !in sh.contentSeen)) && w'.page == w.page)
  {}

  lemma StepContent(cfg: Config, resumed: set<Hash>, s: System, a: Action)
    requires ContentDistinct(resumed, s) && a.who < |s.ws|
    ensures ContentDistinct(resumed, Apply(cfg, s, a))
  {
    LocalContent(cfg, s.sh, s.ws[a.who], a.ev);
    hide Step;
  }

  lemma StepWork(cfg: Config, s: System, a: Action)
    requires WorkHasAWorker(s) && a.who < |s.ws|
    ensures WorkHasAWorker(Apply(cfg, s, a))
  {
    var s' := Apply(cfg, s, a);
    if s'.sh.frontier.heap != {} {
      if Live(s'.ws[a.who]) {
      } else {
        var i :| 0 <= i < |s.ws| && Live(s.ws[i]);
        assert s'.ws[i] == s.ws[i];
      }
    }
  }

  lemma StepDepth(cfg: Config, s: System, a: Action)
    requires DepthBounded(cfg, s) && a.who < |s.ws|
    ensures DepthBounded(cfg, Apply(cfg, s, a))
  {
    var w := s.ws[a.who];
    assert HasItem(w) ==> w.item.depth <= cfg.maxDepth;
  }

  /** Where items come from and go to: a step pops the first, queues one wanted link a level deeper, or
      records the item it has. */
  lemma LocalItems(cfg: Config, sh: Shared, w: Worker, ev: Event)
    ensures var (sh', w') := Step(cfg, sh, w, ev);
            && (HasItem(w') ==> (HasItem(w) && w'.item == w.item) || exists e <- sh.frontier.heap :: w'.item == e.item)
            && (forall e <- sh'.frontier.heap :: e in sh.frontier.heap
                  || (w.Linking? && w.links != [] && Wanted(cfg, w.links[0])
                      && e.item.url == w.links[0].value.(fragment := None) && e.item.depth == w.item.depth + 1))
            && (sh'.pages == sh.pages
                || (w.Recording?
                    && exists r :: sh'.pages == sh.pages + [r] && r.url == w.item.url && r.depth == w.item.depth))
  {
    if w.Recording? {
      assert Step(cfg, sh, w, ev).0.pages == sh.pages + [PageRecord(w.item.url, w.item.depth, w.page.hash)];
    }
  }

  lemma StepSameSite(cfg: Config, s: System, a: Action)
    requires SameSite(cfg, s) && a.who < |s.ws|
    ensures SameSite(cfg, Apply(cfg, s, a))
  {
    LocalItems(cfg, s.sh, s.ws[a.who], a.ev);
    hide Step;
  }

  lemma StepQuotaKept(cfg: Config, s: System, a: Action)
    requires QuotaKept(cfg, s) && a.who < |s.ws|
    ensures QuotaKept(cfg, Apply(cfg, s, a))
  {}

  lemma PopPoppedOnce(sh: Shared)
    requires PoppedOnce(sh)
    ensures PoppedOnce(StepPop(sh).0)
  {
    if sh.frontier.heap != {} { PopKeepsValid(sh.frontier); }
  }

  lemma LinkPoppedOnce(cfg: Config, sh: Shared, item: QueuedUrl, links: seq<Option<Url>>)
    requires PoppedOnce(sh)
    ensures PoppedOnce(StepLink(cfg, sh, item, links).0)
  {
    StepLinkQueue(cfg, sh, item, links);
  }

  lemma StepPopped(cfg: Config, sh: Shared, w: Worker, ev: Event)
    requires PoppedOnce(sh)
    ensures PoppedOnce(Step(cfg, sh, w, ev).0)
  {
    if w.Top? {
      PopPoppedOnce(sh);
    } else if w.Linking? {
      LinkPoppedOnce(cfg, sh, w.item, w.links);
    } else {
      StepKeepsQueue(cfg, sh, w, ev);
      assert Step(cfg, sh, w, ev).0.poppedItems == sh.poppedItems;
    }
  }

  lemma StepKeepsInv(cfg: Config, resumed: set<Hash>, s: System, a: Action)
    requires Inv(cfg, resumed, s)
    ensures Inv(cfg, resumed, Apply(cfg, s, a))
  {
    if a.who < |s.ws| {
      StepInFlight(cfg, s, a);
      StepAccounted(cfg, s, a);
      StepBudget(cfg, s, a);
      StepContent(cfg, resumed, s, a);
      StepWork(cfg, s, a);
      StepDepth(cfg, s, a);
      StepSameSite(cfg, s, a);
      StepQuotaKept(cfg, s, a);
      StepPopped(cfg, s.sh, s.ws[a.who], a.ev);
    }
  }

  lemma {:induction false} SeededInv(cfg: Config, resumed: set<Hash>, seeds: seq<Url>)
    ensures var sh := Seeded(cfg, resumed, seeds);
            && sh.frontier.Valid() && sh.discovered == |sh.frontier.heap|
            && (forall e <- sh.frontier.heap :: e.item.depth == 0)
            && sh == Seeded(cfg, resumed, []).(frontier := sh.frontier, discovered := sh.discovered)
            && sh.frontier.hostPages == map[]
  {
    if seeds != [] {
      var pre, url := seeds[..|seeds| - 1], seeds[|seeds| - 1];
      SeededInv(cfg, resumed, pre);
      PushKeepsValid(Seeded(cfg, resumed, pre).frontier, url, 0, cfg.maxUrlLen, cfg.seedHosts);
    }
  }

  lemma InitInv(cfg: Config, resumed: set<Hash>, seeds: seq<Url>, workers: nat)
    requires workers > 0
    ensures Inv(cfg, resumed, Init(cfg, resumed, seeds, workers))
  {
    var s := Init(cfg, resumed, seeds, workers);
    SeededInv(cfg, resumed, seeds);
    TotalZero(s.ws, InFlight);
    TotalZero(s.ws, Uncounted);
    TotalZero(s.ws, Holding);
    TotalZero(s.ws, Spent);
    assert Live(s.ws[0]);
  }

  /** The invariants hold in every state of every interleaving of every crawl. */
  lemma {:induction false} AlwaysInv(cfg: Config, resumed: set<Hash>, seeds: seq<Url>, workers: nat, acts: seq<Action>)
    requires workers > 0
    ensures Inv(cfg, resumed, Run(cfg, Init(cfg, resumed, seeds, workers), acts))
  {
    if acts == [] {
      InitInv(cfg, resumed, seeds, workers);
    } else {
      var pre := acts[..|acts| - 1];
      AlwaysInv(cfg, resumed, seeds, workers, pre);
      StepKeepsInv(cfg, resumed, Run(cfg, Init(cfg, resumed, seeds, workers), pre), acts[|acts| - 1]);
    }
  }

  // ---------------------------------------------------------------- consequences

  /** No early exit loses work: when the last worker has left, nothing is queued, nobody is in
      flight, and every URL ever counted as discovered is shown by exactly one outcome. */
  lemma DrainedAtExit(cfg: Config, resumed: set<Hash>, seeds: seq<Url>, workers: nat, acts: seq<Action>)
    requires workers > 0
    requires AllExited(Run(cfg, Init(cfg, resumed, seeds, workers), acts))
    ensures var sh := Run(cfg, Init(cfg, resumed, seeds, workers), acts).sh;
            && sh.frontier.heap == {}
            && sh.inflight == 0
            && sh.discovered == |sh.pages| + sh.failed + sh.duplicates + sh.blocked + sh.quotaSkipped
                                + sh.revalidated + sh.dropped
            && |sh.pages| + sh.budget + sh.saveFailures == cfg.maxPages
  {
    AlwaysInv(cfg, resumed, seeds, workers, acts);
    var s := Run(cfg, Init(cfg, resumed, seeds, workers), acts);
    TotalZero(s.ws, InFlight);
    TotalZero(s.ws, Uncounted);
    TotalZero(s.ws, Holding);
    TotalZero(s.ws, Spent);
  }

  /** In every state: at most `maxPages` pages, no two with the same content, none already in the
      resumed corpus, none deeper than `maxDepth`, none off the allowed hosts unless a
      seed, no host let through beyond its quota, no URL handed out twice. */
  lemma CrawlBounds(cfg: Config, resumed: set<Hash>, seeds: seq<Url>, workers: nat, acts: seq<Action>)
    requires workers > 0
    ensures var sh := Run(cfg, Init(cfg, resumed, seeds, workers), acts).sh;
            && |sh.pages| <= cfg.maxPages
            && (forall k, l :: 0 <= k < l < |sh.pages| ==> sh.pages[k].hash != sh.pages[l].hash)
            && (forall k :: 0 <= k < |sh.pages| ==> sh.pages[k].hash !in resumed && sh.pages[k].depth <= cfg.maxDepth
                                                    && OnSite(cfg, sh.pages[k].url, sh.pages[k].depth))
            && (forall h :: sh.admitted[h] <= cfg.maxPagesPerHost)
            && (forall k, l :: 0 <= k < l < |sh.poppedItems| ==> sh.poppedItems[k].url.text != sh.poppedItems[l].url.text)
  {
    AlwaysInv(cfg, resumed, seeds, workers, acts);
  }

  // ---------------------------------------------------------------- one worker crawls breadth first

  ghost predicate BreadthFirst(sh: Shared, w: Worker) {
    var past := sh.poppedItems;
    && (forall k, l :: 0 <= k < l < |past| ==> past[k].depth <= past[l].depth)
    && (past != [] ==> forall e <- sh.frontier.heap :: past[|past| - 1].depth <= e.item.depth)
    && (HasItem(w) ==> past != [] && w.item == past[|past| - 1])
  }

  lemma PopBreadthFirst(sh: Shared)
    requires BreadthFirst(sh, Top)
    ensures BreadthFirst(StepPop(sh).0, StepPop(sh).1)
  {}

  lemma LinkBreadthFirst(cfg: Config, sh: Shared, item: QueuedUrl, links: seq<Option<Url>>)
    requires BreadthFirst(sh, Linking(item, links))
    ensures BreadthFirst(StepLink(cfg, sh, item, links).0, StepLink(cfg, sh, item, links).1)
  {}

  lemma OtherMoves(cfg: Config, sh: Shared, w: Worker, ev: Event)
    requires !w.Top? && !w.Linking?
    ensures var (sh', w') := Step(cfg, sh, w, ev);
            && sh'.poppedItems == sh.poppedItems && sh'.frontier.heap == sh.frontier.heap
            && (HasItem(w') ==> HasItem(w) && w'.item == w.item)
  {}

  lemma StepBreadthFirst(cfg: Config, sh: Shared, w: Worker, ev: Event)
    requires BreadthFirst(sh, w)
    ensures BreadthFirst(Step(cfg, sh, w, ev).0, Step(cfg, sh, w, ev).1)
  {
    if w.Top? {
      PopBreadthFirst(sh);
    } else if w.Linking? {
      LinkBreadthFirst(cfg, sh, w.item, w.links);
    } else {
      OtherMoves(cfg, sh, w, ev);
      hide Step;
    }
  }

  /** A crawl with one worker takes URLs off the frontier in order of depth. */
  lemma {:induction false} OneWorkerBreadthFirst(cfg: Config, resumed: set<Hash>, seeds: seq<Url>, acts: seq<Action>)
    ensures var s := Run(cfg, Init(cfg, resumed, seeds, 1), acts);
            |s.ws| == 1 && BreadthFirst(s.sh, s.ws[0])
  {
    if acts == [] {
      SeededInv(cfg, resumed, seeds);
    } else {
      var a := acts[|acts| - 1];
      OneWorkerBreadthFirst(cfg, resumed, seeds, acts[..|acts| - 1]);
      var s := Run(cfg, Init(cfg, resumed, seeds, 1), acts[..|acts| - 1]);
      if a.who == 0 { StepBreadthFirst(cfg, s.sh, s.ws[0], a.ev); }
    }
  }

  // ---------------------------------------------------------------- many workers

  /** Nothing queued is shallower than `b`, and nothing in hand can queue anything that is. */
  ghost predicate NotAbove(s: System, b: nat) {
    && (forall e <- s.sh.frontier.heap :: e.item.depth >= b)
    && (forall i :: 0 <= i < |s.ws| && HasItem(s.ws[i]) ==> s.ws[i].item.depth + 1 >= b)
  }

  /** What one step pops, and what it queues. */
  lemma StepNotAbove(cfg: Config, sh: Shared, w: Worker, ev: Event, b: nat)
    requires (forall e <- sh.frontier.heap :: e.item.depth >= b) && (HasItem(w) ==> w.item.depth + 1 >= b)
    ensures var (sh', w') := Step(cfg, sh, w, ev);
            && (forall e <- sh'.frontier.heap :: e.item.depth >= b) && (HasItem(w') ==> w'.item.depth + 1 >= b)
            && sh.poppedItems <= sh'.poppedItems
            && forall k :: |sh.poppedItems| <= k < |sh'.poppedItems| ==> sh'.poppedItems[k].depth >= b
  {
    if !w.Top? && !w.Linking? {
      OtherMoves(cfg, sh, w, ev);
      hide Step;
    }
  }

  lemma {:induction false} RunNotAbove(cfg: Config, s: System, acts: seq<Action>, b: nat)
    requires NotAbove(s, b)
    ensures var s' := Run(cfg, s, acts);
            && NotAbove(s', b) && s.sh.poppedItems <= s'.sh.poppedItems
            && forall k :: |s.sh.poppedItems| <= k < |s'.sh.poppedItems| ==> s'.sh.poppedItems[k].depth >= b
  {
    if acts != [] {
      var a := acts[|acts| - 1];
      RunNotAbove(cfg, s, acts[..|acts| - 1], b);
      var s1 := Run(cfg, s, acts[..|acts| - 1]);
      hide Step;
      if a.who < |s1.ws| { StepNotAbove(cfg, s1.sh, s1.ws[a.who], a.ev, b); }
    }
  }

  /** With any number of workers: what leaves the queue next is the shallowest entry, and whatever is taken
      later is no shallower, unless a worker held something shallower still at that time. */
  lemma ShallowestFirst(cfg: Config, s: System, acts: seq<Action>, k: nat)
    requires s.sh.frontier.heap != {}
    requires |s.sh.poppedItems| <= k < |Run(cfg, s, acts).sh.poppedItems|
    ensures var next, later := s.sh.frontier.First().item, Run(cfg, s, acts).sh.poppedItems[k];
            && (forall e <- s.sh.frontier.heap :: next.depth <= e.item.depth)
            && (next.depth <= later.depth ||
                exists i :: 0 <= i < |s.ws| && HasItem(s.ws[i]) && s.ws[i].item.depth < later.depth)
  {
    var next, later := s.sh.frontier.First(), Run(cfg, s, acts).sh.poppedItems[k];
    assert Leads(next, s.sh.frontier.heap);
    if later.depth < next.item.depth &&
       forall i :: 0 <= i < |s.ws| && HasItem(s.ws[i]) ==> s.ws[i].item.depth >= later.depth {
      RunNotAbove(cfg, s, acts, later.depth + 1);
    }
  }
}
