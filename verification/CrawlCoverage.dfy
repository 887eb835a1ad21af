/** A crawl leaves nothing out that it should follow, and asks nobody it should not: every seed and every link
    worth following is handed out, and no request goes out against the robots rules. */
module CrawlCoverage {
  import opened Wrappers
  import opened Frontier
  import opened Crawl
  import opened CrawlSafety
  import opened CrawlTiming

  // ---------------------------------------------------------------- what was ever queued

  ghost predicate HandedOut(sh: Shared, text: string) {
    exists k :: 0 <= k < |sh.poppedItems| && sh.poppedItems[k].url.text == text
  }

  ghost predicate Queued(sh: Shared, text: string) {
    exists e <- sh.frontier.heap :: e.item.url.text == text
  }

  predicate OnSeedHost(cfg: Config, url: Url) {
    url.host.Some? && url.host.value in cfg.seedHosts
  }

  /** Everything ever seen fits the length cap and is queued or was handed out; entries of the queue are
      classed by whether they are on a seed host. */
  ghost predicate SeenKept(cfg: Config, sh: Shared) {
    && (forall t <- sh.frontier.seen :: |t| <= cfg.maxUrlLen && (Queued(sh, t) || HandedOut(sh, t)))
    && (forall e <- sh.frontier.heap :: e.item.url.text in sh.frontier.seen && (e.foreign <==> !OnSeedHost(cfg, e.item.url)))
  }

  lemma PopSeen(cfg: Config, sh: Shared)
    requires SeenKept(cfg, sh)
    ensures SeenKept(cfg, StepPop(sh).0)
  {
    if sh.frontier.heap != {} {
      var sh', first := StepPop(sh).0, sh.frontier.First();
      forall t <- sh.frontier.seen ensures Queued(sh', t) || HandedOut(sh', t) {
        if HandedOut(sh, t) {
          var k :| 0 <= k < |sh.poppedItems| && sh.poppedItems[k].url.text == t;
          assert sh'.poppedItems[k].url.text == t;
        } else {
          var e :| e in sh.frontier.heap && e.item.url.text == t;
          if e == first {
            assert sh'.poppedItems[|sh.poppedItems|].url.text == t;
          } else {
            assert e in sh'.frontier.heap;
          }
        }
      }
    }
  }

  lemma PushSeen(cfg: Config, sh: Shared, url: Url, depth: nat)
    requires SeenKept(cfg, sh)
    ensures SeenKept(cfg, Push(cfg, sh, url, depth))
    ensures |url.text| <= cfg.maxUrlLen ==> url.text in Push(cfg, sh, url, depth).frontier.seen
  {
    var sh' := Push(cfg, sh, url, depth);
    if sh.frontier.Admits(url, cfg.maxUrlLen) {
      var e := sh.frontier.NewEntry(url, depth, cfg.seedHosts);
      assert e in sh'.frontier.heap && e.item.url.text == url.text;
      forall t <- sh'.frontier.seen ensures Queued(sh', t) || HandedOut(sh', t) {
        if t != url.text && Queued(sh, t) {
          var f :| f in sh.frontier.heap && f.item.url.text == t;
          assert f in sh'.frontier.heap;
        }
      }
    }
  }

  lemma StepSeen(cfg: Config, sh: Shared, w: Worker, ev: Event)
    requires SeenKept(cfg, sh)
    ensures SeenKept(cfg, Step(cfg, sh, w, ev).0)
    ensures sh.frontier.seen <= Step(cfg, sh, w, ev).0.frontier.seen
  {
    if w.Top? {
      PopSeen(cfg, sh);
    } else if w.Linking? {
      if w.links != [] && Wanted(cfg, w.links[0]) { PushSeen(cfg, sh, w.links[0].value, w.item.depth + 1); }
    } else {
      StepKeepsQueue(cfg, sh, w, ev);
      OtherMoves(cfg, sh, w, ev);
      var sh' := Step(cfg, sh, w, ev).0;
      hide Step;
      assert forall t :: (Queued(sh', t) <==> Queued(sh, t)) && (HandedOut(sh', t) <==> HandedOut(sh, t));
    }
  }

  lemma {:induction false} SeededSeen(cfg: Config, resumed: set<Hash>, seeds: seq<Url>, i: nat)
    ensures SeenKept(cfg, Seeded(cfg, resumed, seeds))
    ensures i < |seeds| && |seeds[i].text| <= cfg.maxUrlLen ==> seeds[i].text in Seeded(cfg, resumed, seeds).frontier.seen
  {
    if seeds != [] {
      var n := |seeds| - 1;
      SeededSeen(cfg, resumed, seeds[..n], i);
      PushSeen(cfg, Seeded(cfg, resumed, seeds[..n]), seeds[n], 0);
      var before, pushed := Seeded(cfg, resumed, seeds[..n]), Push(cfg, Seeded(cfg, resumed, seeds[..n]), seeds[n], 0);
      hide Seeded, Push;
      SameSeen(cfg, before, pushed, seeds[n]);
    }
  }

  /** Counting a seed changes nothing else. */
  lemma SameSeen(cfg: Config, before: Shared, pushed: Shared, url: Url)
    requires SeenKept(cfg, pushed) && pushed == Push(cfg, before, url, 0)
    ensures SeenKept(cfg, Enqueue(cfg, before, url)) && Enqueue(cfg, before, url).frontier == pushed.frontier
    ensures before.frontier.seen <= pushed.frontier.seen
  {
    var sh' := Enqueue(cfg, before, url);
    assert sh'.frontier == pushed.frontier && sh'.poppedItems == pushed.poppedItems;
    assert forall t :: (Queued(sh', t) <==> Queued(pushed, t)) && (HandedOut(sh', t) <==> HandedOut(pushed, t));
  }

  lemma {:induction false} RunSeen(cfg: Config, states: seq<System>, acts: seq<Action>, m: nat, n: nat)
    requires IsRun(cfg, states, acts) && m <= n <= |acts| && SeenKept(cfg, states[m].sh)
    ensures SeenKept(cfg, states[n].sh) && states[m].sh.frontier.seen <= states[n].sh.frontier.seen
    decreases n
  {
    hide Step, SeenKept;
    if m < n {
      var k := n - 1;
      RunSeen(cfg, states, acts, m, k);
      if acts[k].who < |states[k].ws| { StepSeen(cfg, states[k].sh, states[k].ws[acts[k].who], acts[k].ev); }
    }
  }

  /** At equal depth, what is on a seed host leaves before what is not, and otherwise what was queued first. */
  lemma SeedHostsFirst(cfg: Config, states: seq<System>, acts: seq<Action>, resumed: set<Hash>, seeds: seq<Url>, workers: nat,
                       n: nat, e: Entry)
    requires IsRun(cfg, states, acts) && states[0] == Init(cfg, resumed, seeds, workers) && n <= |acts|
    requires e in states[n].sh.frontier.heap
    ensures var first := states[n].sh.frontier.First();
            && first.item.depth <= e.item.depth
            && (first.item.depth == e.item.depth && OnSeedHost(cfg, e.item.url) ==> OnSeedHost(cfg, first.item.url))
            && (first.item.depth == e.item.depth && (OnSeedHost(cfg, e.item.url) <==> OnSeedHost(cfg, first.item.url)) ==>
                  first.arrival <= e.arrival)
  {
    SeededSeen(cfg, resumed, seeds, 0);
    RunSeen(cfg, states, acts, 0, n);
    assert Leads(states[n].sh.frontier.First(), states[n].sh.frontier.heap);
  }

  // ---------------------------------------------------------------- links

  /** A link that resolves, is on an allowed host and fits the length cap. */
  predicate WorthFollowing(cfg: Config, link: Option<Url>) {
    && link.Some? && |link.value.text| <= cfg.maxUrlLen
    && (cfg.allowedHosts.None? || (link.value.host.Some? && link.value.host.value in cfg.allowedHosts.value))
  }

  /** The worker has still to come to the link. */
  predicate StillAhead(w: Worker, link: Option<Url>) {
    (w.Linking? || w.CountingLink?) && link in w.links
  }

  lemma StepFollows(cfg: Config, sh: Shared, w: Worker, ev: Event, link: Option<Url>)
    requires SeenKept(cfg, sh) && WorthFollowing(cfg, link) && StillAhead(w, link)
    ensures var (sh', w') := Step(cfg, sh, w, ev); link.value.text in sh'.frontier.seen || StillAhead(w', link)
  {
    if w.Linking? {
      if w.links[0] == link {
        PushSeen(cfg, sh, link.value, w.item.depth + 1);
      } else {
        assert link in w.links[1..];
      }
    }
  }

  /** From the moment a page above the depth limit is recorded, each of its links worth following is still
      ahead of the worker that has the page, or its URL has been seen. */
  lemma {:induction false} LinkFollowed(cfg: Config, states: seq<System>, acts: seq<Action>, n: nat, m: nat, link: Option<Url>)
    requires IsRun(cfg, states, acts) && n < m <= |acts| && SeenKept(cfg, states[0].sh)
    requires Mover(states, acts, n).Recording? && Mover(states, acts, n).item.depth < cfg.maxDepth
    requires link in Mover(states, acts, n).page.links && WorthFollowing(cfg, link)
    ensures |states[m].ws| == |states[n].ws|
    ensures link.value.text in states[m].sh.frontier.seen || StillAhead(states[m].ws[acts[n].who], link)
    decreases m
  {
    var w, k := acts[n].who, m - 1;
    CrewStays(cfg, states, acts, n);
    CrewStays(cfg, states, acts, m);
    CrewStays(cfg, states, acts, k);
    RunSeen(cfg, states, acts, 0, k);
    RunSeen(cfg, states, acts, k, m);
    if n < k {
      LinkFollowed(cfg, states, acts, n, k, link);
      hide Step, SeenKept;
      if acts[k].who == w && StillAhead(states[k].ws[w], link) {
        StepFollows(cfg, states[k].sh, states[k].ws[w], acts[k].ev, link);
      }
    }
  }

  /** Handed out, and no more than once. */
  ghost predicate HandedOutOnce(sh: Shared, text: string) {
    exists k :: 0 <= k < |sh.poppedItems| && TheOne(sh, text, k)
  }

  ghost predicate TheOne(sh: Shared, text: string, k: nat)
    requires k < |sh.poppedItems|
  {
    && sh.poppedItems[k].url.text == text
    && forall l :: 0 <= l < |sh.poppedItems| && l != k ==> sh.poppedItems[l].url.text != text
  }

  lemma SeenAtExit(cfg: Config, sh: Shared, text: string)
    requires SeenKept(cfg, sh) && PoppedOnce(sh) && sh.frontier.heap == {} && text in sh.frontier.seen
    ensures HandedOutOnce(sh, text)
  {
    assert !Queued(sh, text);
    var k :| 0 <= k < |sh.poppedItems| && sh.poppedItems[k].url.text == text;
    forall l | 0 <= l < |sh.poppedItems| && l != k ensures sh.poppedItems[l].url.text != text {
      if l < k { assert sh.poppedItems[l].url.text != sh.poppedItems[k].url.text; }
    }
    assert TheOne(sh, text, k);
  }

  lemma ExitedDrained(cfg: Config, states: seq<System>, acts: seq<Action>, resumed: set<Hash>, seeds: seq<Url>, workers: nat)
    requires IsRun(cfg, states, acts) && states[0] == Init(cfg, resumed, seeds, workers) && workers > 0
    requires AllExited(states[|acts|])
    ensures states[|acts|].sh.frontier.heap == {} && PoppedOnce(states[|acts|].sh)
  {
    RunReaches(cfg, states, acts, |acts|);
    assert acts[..|acts|] == acts;
    DrainedAtExit(cfg, resumed, seeds, workers, acts);
    AlwaysInv(cfg, resumed, seeds, workers, acts);
  }

  /** When all workers have left, every seed that fits was handed out once. */
  lemma SeedsCovered(cfg: Config, states: seq<System>, acts: seq<Action>, resumed: set<Hash>, seeds: seq<Url>, workers: nat,
                     i: nat)
    requires IsRun(cfg, states, acts) && states[0] == Init(cfg, resumed, seeds, workers) && workers > 0
    requires AllExited(states[|acts|]) && i < |seeds| && |seeds[i].text| <= cfg.maxUrlLen
    ensures HandedOutOnce(states[|acts|].sh, seeds[i].text)
  {
    SeededSeen(cfg, resumed, seeds, i);
    RunSeen(cfg, states, acts, 0, |acts|);
    ExitedDrained(cfg, states, acts, resumed, seeds, workers);
    hide IsRun, SeenKept, PoppedOnce, HandedOutOnce;
    SeenAtExit(cfg, states[|acts|].sh, seeds[i].text);
  }

  /** And so was every link worth following of every page recorded above the depth limit. */
  lemma LinksCovered(cfg: Config, states: seq<System>, acts: seq<Action>, resumed: set<Hash>, seeds: seq<Url>, workers: nat,
                     n: nat, link: Option<Url>)
    requires IsRun(cfg, states, acts) && states[0] == Init(cfg, resumed, seeds, workers) && workers > 0
    requires AllExited(states[|acts|]) && n < |acts|
    requires Mover(states, acts, n).Recording? && Mover(states, acts, n).item.depth < cfg.maxDepth
    requires link in Mover(states, acts, n).page.links && WorthFollowing(cfg, link)
    ensures HandedOutOnce(states[|acts|].sh, link.value.text)
  {
    SeededSeen(cfg, resumed, seeds, 0);
    RunSeen(cfg, states, acts, 0, |acts|);
    LinkFollowed(cfg, states, acts, n, |acts|, link);
    ExitedDrained(cfg, states, acts, resumed, seeds, workers);
    hide IsRun, SeenKept, PoppedOnce, HandedOutOnce;
    SeenAtExit(cfg, states[|acts|].sh, link.value.text);
  }

  // ---------------------------------------------------------------- requests and what came of them

  predicate HasPage(w: Worker) {
    w.Deduping? || w.Spending? || w.Saving? || w.Recording?
  }

  lemma StepRequests(cfg: Config, sh: Shared, w: Worker, ev: Event)
    ensures var w' := Step(cfg, sh, w, ev).1;
            && (w'.Fetching? ==> w == AtRobots(w'.item) && (cfg.respectRobots ==> ev.robotsAllow))
            && (HasPage(w') ==>
                  || (w == Fetching(w'.item) && ev.fetched == Body(w'.page))
                  || (HasPage(w) && w.item == w'.item && w.page == w'.page))
  {}

  /** Every request was allowed: the step before it of its worker asked the robots rules about the very item,
      and they did not forbid it, unless they are not to be respected. */
  lemma {:induction false} RobotsHeeded(cfg: Config, states: seq<System>, acts: seq<Action>, n: nat, w: nat) returns (q: nat)
    requires IsRun(cfg, states, acts) && n <= |acts| && w < |states[0].ws|
    requires forall i :: 0 <= i < |states[0].ws| ==> states[0].ws[i] == Top
    ensures |states[n].ws| == |states[0].ws|
    ensures states[n].ws[w].Fetching? ==>
              && q < n && acts[q].who == w && Mover(states, acts, q) == AtRobots(states[n].ws[w].item)
              && (cfg.respectRobots ==> acts[q].ev.robotsAllow)
              && forall k :: q < k < n ==> acts[k].who != w
    decreases n
  {
    hide Step;
    q := 0;
    CrewStays(cfg, states, acts, n);
    if n > 0 {
      var k := n - 1;
      CrewStays(cfg, states, acts, k);
      if acts[k].who == w {
        StepRequests(cfg, states[k].sh, states[k].ws[w], acts[k].ev);
        q := k;
      } else {
        q := RobotsHeeded(cfg, states, acts, k, w);
      }
    }
  }

  /** A page in a worker's hands, and so every page recorded, is what its request for that item brought. */
  lemma {:induction false} PageWasFetched(cfg: Config, states: seq<System>, acts: seq<Action>, n: nat, w: nat) returns (q: nat)
    requires IsRun(cfg, states, acts) && n <= |acts| && w < |states[0].ws|
    requires forall i :: 0 <= i < |states[0].ws| ==> states[0].ws[i] == Top
    ensures |states[n].ws| == |states[0].ws|
    ensures HasPage(states[n].ws[w]) ==>
              && q < n && acts[q].who == w && Mover(states, acts, q) == Fetching(states[n].ws[w].item)
              && acts[q].ev.fetched == Body(states[n].ws[w].page)
    decreases n
  {
    hide Step;
    q := 0;
    CrewStays(cfg, states, acts, n);
    if n > 0 {
      var k := n - 1;
      CrewStays(cfg, states, acts, k);
      var before := PageWasFetched(cfg, states, acts, k, w);
      q := before;
      if acts[k].who == w {
        StepRequests(cfg, states[k].sh, states[k].ws[w], acts[k].ev);
        if states[k].ws[w].Fetching? { q := k; }
      }
    }
  }
}
