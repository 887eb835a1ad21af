/** The crawler's URL frontier: a priority queue with a seen-set, politeness slots and
    per-host page quotas. The operations are given first on values, then as a class whose
    methods update the fields in place. */
module Frontier {
  import opened Wrappers

  /** A parsed URL: its serialization without the fragment, its fragment, its host if any. */
  datatype Url = Url(text: string, fragment: Option<string>, host: Option<string>)

  datatype QueuedUrl = QueuedUrl(url: Url, depth: nat)

  /** A heap entry; the priority key is (depth, foreign, arrival). */
  datatype Entry = Entry(foreign: bool, arrival: nat, item: QueuedUrl)

  predicate Precedes(a: Entry, b: Entry) {
    || a.item.depth < b.item.depth
    || (a.item.depth == b.item.depth
        && ((!a.foreign && b.foreign) || (a.foreign == b.foreign && a.arrival <= b.arrival)))
  }

  predicate Leads(e: Entry, heap: set<Entry>) {
    e in heap && forall f <- heap :: Precedes(e, f)
  }

  datatype Queue = Queue(
    heap: set<Entry>,
    arrival: nat,
    seen: set<string>,
    hostNextOk: map<string, nat>,
    hostPages: map<string, nat>)
  {
    /** Arrival numbers are unique and used up in order; a queued URL is recorded as seen and
        queued once. */
    ghost predicate Valid() {
      && (forall e <- heap :: e.arrival < arrival && e.item.url.text in seen && e.item.url.fragment == None)
      && (forall a <- heap, b <- heap :: a.arrival == b.arrival ==> a == b)
      && (forall a <- heap, b <- heap :: a.item.url.text == b.item.url.text ==> a == b)
    }

    predicate Admits(url: Url, maxUrlLen: nat) {
      |url.text| <= maxUrlLen && url.text !in seen
    }

    /** Queues a new URL that fits the length cap, without its fragment. */
    function Push(url: Url, depth: nat, maxUrlLen: nat, seedHosts: set<string>): Queue {
      if !Admits(url, maxUrlLen) then this
      else this.(heap := heap + {NewEntry(url, depth, seedHosts)}, arrival := arrival + 1, seen := seen + {url.text})
    }

    function NewEntry(url: Url, depth: nat, seedHosts: set<string>): Entry {
      Entry(!(url.host.Some? && url.host.value in seedHosts), arrival, QueuedUrl(url.(fragment := None), depth))
    }

    /** The entry that leaves next. */
    ghost function First(): (e: Entry)
      requires heap != {}
      ensures Leads(e, heap)
    {
      FirstExists(heap);
      var e :| Leads(e, heap);
      e
    }

    ghost function Pop(): Queue
      requires heap != {}
    {
      this.(heap := heap - {First()})
    }

    /** The instant a reservation made at `now` returns. */
    function SlotStart(host: string, now: nat): nat {
      if host in hostNextOk then hostNextOk[host] else now
    }

    function Reserve(host: string, now: nat, delay: nat): Queue {
      this.(hostNextOk := hostNextOk[host := Max(SlotStart(host, now), now) + delay])
    }

    function Pages(host: string): nat {
      if host in hostPages then hostPages[host] else 0
    }

    predicate QuotaExhausted(host: string, quota: nat) {
      Pages(host) >= quota
    }

    /** The counter is created on first use, and moves unless the quota is used up. */
    function TakeQuota(host: string, quota: nat): Queue {
      this.(hostPages := hostPages[host := if QuotaExhausted(host, quota) then Pages(host) else Pages(host) + 1])
    }
  }

  const EMPTY_QUEUE := Queue({}, 0, {}, map[], map[])

  function Max(a: nat, b: nat): nat {
    if a < b then b else a
  }

  lemma {:induction false} FirstExists(heap: set<Entry>)
    requires heap != {}
    ensures exists e :: Leads(e, heap)
  {
    var e :| e in heap;
    var rest := heap - {e};
    if rest != {} {
      FirstExists(rest);
      var f :| Leads(f, rest);
      var first := if Precedes(e, f) then e else f;
      assert forall g <- heap :: g == e || g in rest;
      assert Leads(first, heap);
    } else {
      assert heap == {e};
      assert Leads(e, heap);
    }
  }

  /** The order is total on entries with different arrival numbers, so who leaves next is determined. */
  lemma FirstUnique(q: Queue, a: Entry, b: Entry)
    requires q.Valid() && Leads(a, q.heap) && Leads(b, q.heap)
    ensures a == b
  {
    assert a in q.heap && b in q.heap;
    assert a.arrival == b.arrival;
  }

  lemma PushKeepsValid(q: Queue, url: Url, depth: nat, maxUrlLen: nat, seedHosts: set<string>)
    requires q.Valid()
    ensures q.Push(url, depth, maxUrlLen, seedHosts).Valid()
    ensures q.Admits(url, maxUrlLen) ==>
              && q.NewEntry(url, depth, seedHosts) !in q.heap
              && |q.Push(url, depth, maxUrlLen, seedHosts).heap| == |q.heap| + 1
    ensures !q.Admits(url, maxUrlLen) ==> q.Push(url, depth, maxUrlLen, seedHosts) == q
  {}

  lemma PopKeepsValid(q: Queue)
    requires q.Valid() && q.heap != {}
    ensures q.Pop().Valid() && |q.Pop().heap| == |q.heap| - 1
    ensures forall e <- q.Pop().heap :: e.item.url.text != q.First().item.url.text
  {}

  // ---------------------------------------------------------------- politeness

  datatype Reservation = Reservation(host: string, now: nat)

  ghost function Reserved(q: Queue, rs: seq<Reservation>, delay: nat): Queue {
    if rs == [] then q
    else Reserved(q, rs[..|rs| - 1], delay).Reserve(rs[|rs| - 1].host, rs[|rs| - 1].now, delay)
  }

  /** When the `i`-th reservation of a history lets its caller begin: not before it asked. */
  ghost function EffectiveStart(q: Queue, rs: seq<Reservation>, delay: nat, i: nat): nat
    requires i < |rs|
  {
    Max(Reserved(q, rs[..i], delay).SlotStart(rs[i].host, rs[i].now), rs[i].now)
  }

  /** Whatever other hosts do in between, two slots of one host are at least `delay` apart. */
  lemma {:induction false} SlotsSpaced(q: Queue, rs: seq<Reservation>, delay: nat, i: nat, j: nat)
    requires i < j < |rs| && rs[i].host == rs[j].host
    ensures EffectiveStart(q, rs, delay, i) + delay <= EffectiveStart(q, rs, delay, j)
  {
    NextSlotAfter(q, rs, delay, i, j);
  }

  lemma {:induction false} NextSlotAfter(q: Queue, rs: seq<Reservation>, delay: nat, i: nat, n: nat)
    requires i < n <= |rs|
    ensures var next := Reserved(q, rs[..n], delay).hostNextOk;
            && rs[i].host in next
            && EffectiveStart(q, rs, delay, i) + delay <= next[rs[i].host]
    decreases n
  {
    var pre := rs[..n - 1];
    assert rs[..n][..n - 1] == pre;
    if i < n - 1 { NextSlotAfter(q, rs, delay, i, n - 1); }
  }

  function OnHost(rs: seq<Reservation>, host: string): seq<Reservation> {
    if rs == [] then []
    else OnHost(rs[..|rs| - 1], host) + (if rs[|rs| - 1].host == host then [rs[|rs| - 1]] else [])
  }

  /** A host's slots are what they would be had nobody else reserved. */
  lemma {:induction false} SlotsIndependent(q: Queue, rs: seq<Reservation>, delay: nat, host: string, now: nat)
    ensures Reserved(q, rs, delay).SlotStart(host, now) == Reserved(q, OnHost(rs, host), delay).SlotStart(host, now)
  {
    if rs != [] {
      var pre, last := rs[..|rs| - 1], rs[|rs| - 1];
      SlotsIndependent(q, pre, delay, host, now);
      if last.host == host {
        SlotsIndependent(q, pre, delay, host, last.now);
        var mine := OnHost(pre, host) + [last];
        assert mine[..|mine| - 1] == OnHost(pre, host);
      } else {
        assert OnHost(rs, host) == OnHost(pre, host);
      }
    }
  }

  // ---------------------------------------------------------------- the shared object

  class SharedFrontier {
    var heap: set<Entry>
    var arrival: nat
    var seen: set<string>
    var hostNextOk: map<string, nat>
    var hostPages: map<string, nat>
    const seedHosts: set<string>
    const maxUrlLen: nat

    ghost function Value(): Queue
      reads this
    {
      Queue(heap, arrival, seen, hostNextOk, hostPages)
    }

    constructor (maxUrlLen: nat, seedHosts: set<string>)
      ensures Value() == EMPTY_QUEUE && Value().Valid()
      ensures this.maxUrlLen == maxUrlLen && this.seedHosts == seedHosts
    {
      heap, arrival, seen, hostNextOk, hostPages := {}, 0, {}, map[], map[];
      this.maxUrlLen, this.seedHosts := maxUrlLen, seedHosts;
    }

    /** True exactly when the URL, without its fragment, fits and was never queued before. */
    method Push(url: Url, depth: nat) returns (added: bool)
      requires Value().Valid()
      modifies this
      ensures Value() == old(Value()).Push(url, depth, maxUrlLen, seedHosts) && Value().Valid()
      ensures added == old(Value()).Admits(url, maxUrlLen)
    {
      PushKeepsValid(Value(), url, depth, maxUrlLen, seedHosts);
      var stripped := url.(fragment := None);
      if |stripped.text| > maxUrlLen {
        return false;
      }
      if stripped.text in seen {
        return false;
      }
      seen := seen + {stripped.text};
      var foreign := !(stripped.host.Some? && stripped.host.value in seedHosts);
      var entry := Entry(foreign, arrival, QueuedUrl(stripped, depth));
      arrival := arrival + 1;
      heap := heap + {entry};
      return true;
    }

    /** Shallowest first, then seed hosts, then arrival order. */
    method Pop() returns (r: Option<QueuedUrl>)
      requires Value().Valid()
      modifies this`heap
      ensures Value().Valid()
      ensures old(heap) == {} <==> r == None
      ensures old(heap) == {} ==> Value() == old(Value())
      ensures old(heap) != {} ==> r == Some(old(Value()).First().item) && Value() == old(Value()).Pop()
    {
      if heap == {} {
        return None;
      }
      FirstExists(heap);
      var e :| e in heap && Leads(e, heap);
      FirstUnique(Value(), e, Value().First());
      PopKeepsValid(Value());
      heap := heap - {e};
      return Some(e.item);
    }

    method ReserveSlot(host: string, delay: nat, now: nat) returns (start: nat)
      modifies this`hostNextOk
      ensures Value() == old(Value()).Reserve(host, now, delay)
      ensures start == old(Value()).SlotStart(host, now)
    {
      start := if host in hostNextOk then hostNextOk[host] else now;
      var next := Max(start, now) + delay;
      hostNextOk := hostNextOk[host := next];
    }

    method HostQuotaExhausted(host: string, maxPagesPerHost: nat) returns (exhausted: bool)
      modifies this`hostPages
      ensures Value() == old(Value()).TakeQuota(host, maxPagesPerHost)
      ensures exhausted == old(Value()).QuotaExhausted(host, maxPagesPerHost)
    {
      var count := if host in hostPages then hostPages[host] else 0;
      hostPages := hostPages[host := count];
      if count >= maxPagesPerHost {
        return true;
      }
      hostPages := hostPages[host := count + 1];
      return false;
    }
  }
}
