/** Per-source flood control (origin-network): a token bucket that refills in whole tokens and
    restarts its clock at every refill. Times are ticks of a monotonic clock. */
module TokenBucket {

  datatype Entry = Entry(tokens: nat, last: nat)

  type Source = string
  type Buckets = map<Source, Entry>

  datatype Params = Params(capacity: nat, refill: nat)

  function Current(p: Params, b: Buckets, s: Source, now: nat): Entry {
    if s in b then b[s] else Entry(p.capacity, now)
  }

  function Elapsed(from: nat, now: nat): nat {
    if now < from then 0 else now - from
  }

  /** Whole refill periods in a stretch of time. */
  function Periods(p: Params, time: nat): nat
    requires p.refill >= 1
  {
    time / p.refill
  }

  function Refilled(p: Params, e: Entry, now: nat): Entry
    requires p.refill >= 1
  {
    var k := Periods(p, Elapsed(e.last, now));
    if k > 0 then Entry(if e.tokens + k < p.capacity then e.tokens + k else p.capacity, now) else e
  }

  /** The entry after an attempt, and whether it was admitted. */
  function Attempt(p: Params, e: Entry, now: nat): (Entry, bool)
    requires p.refill >= 1
  {
    var r := Refilled(p, e, now);
    if r.tokens > 0 then (r.(tokens := r.tokens - 1), true) else (r, false)
  }

  function Allow(p: Params, b: Buckets, s: Source, now: nat): (Buckets, bool)
    requires p.refill >= 1
  {
    var (e, ok) := Attempt(p, Current(p, b, s, now), now);
    (b[s := e], ok)
  }

  function Prune(b: Buckets, now: nat, idle: nat): Buckets {
    map s | s in b && Elapsed(b[s].last, now) < idle :: b[s]
  }

  // ---------------------------------------------------------------- how much gets in

  /** Attempts of one source, by their times. */
  ghost predicate Ordered(times: seq<nat>) {
    forall i, j :: 0 <= i <= j < |times| ==> times[i] <= times[j]
  }

  ghost function After(p: Params, e: Entry, times: seq<nat>): Entry
    requires p.refill >= 1
  {
    if times == [] then e else Attempt(p, After(p, e, times[..|times| - 1]), times[|times| - 1]).0
  }

  ghost function Admitted(p: Params, e: Entry, times: seq<nat>): nat
    requires p.refill >= 1
  {
    if times == [] then 0
    else
      var n := |times| - 1;
      Admitted(p, e, times[..n]) + (if Attempt(p, After(p, e, times[..n]), times[n]).1 then 1 else 0)
  }

  // Whole refill periods, by what they do.

  lemma PeriodsAdd(p: Params, a: nat, b: nat)
    requires p.refill >= 1
    ensures Periods(p, a) + Periods(p, b) <= Periods(p, a + b)
  {
    DivBound(a, p.refill);
    DivBound(b, p.refill);
    MulDistribute(p.refill, a / p.refill, b / p.refill);
    PeriodsAtLeast(p, a + b, a / p.refill + b / p.refill);
  }

  lemma PeriodsZero(p: Params, a: nat)
    requires p.refill >= 1
    ensures Periods(p, a) == 0 <==> a < p.refill
  {
    DivBound(a, p.refill);
    if p.refill <= a { PeriodsAtLeast(p, a, 1); }
  }

  lemma PeriodsAtLeast(p: Params, a: nat, q: nat)
    requires p.refill >= 1
    ensures q <= Periods(p, a) <==> p.refill * q <= a
  {
    DivBound(a, p.refill);
    if a / p.refill < q {
      MulMonotone(p.refill, a / p.refill + 1, q);
      MulDistribute(p.refill, a / p.refill, 1);
    } else {
      MulMonotone(p.refill, q, a / p.refill);
    }
  }

  lemma PeriodsMonotone(p: Params, a: nat, b: nat)
    requires p.refill >= 1 && a <= b
    ensures Periods(p, a) <= Periods(p, b)
  {
    DivBound(a, p.refill);
    PeriodsAtLeast(p, b, a / p.refill);
  }

  /** Starting less than one period later costs at most one. */
  lemma PeriodsLate(p: Params, a: nat, b: nat)
    requires p.refill >= 1 && a < b + p.refill
    ensures Periods(p, a) <= Periods(p, b) + 1
  {
    PeriodsMonotone(p, a, b + p.refill);
    DivBound(b + p.refill, p.refill);
    var q := (b + p.refill) / p.refill;
    if q > 0 {
      MulDistribute(p.refill, q - 1, 1);
      PeriodsAtLeast(p, b, q - 1);
    }
  }

  lemma DivBound(a: nat, r: nat)
    requires r >= 1
    ensures r * (a / r) <= a < r * (a / r) + r
  {}

  lemma MulDistribute(r: nat, x: nat, y: nat)
    ensures r * (x + y) == r * x + r * y
  {}

  lemma MulMonotone(r: nat, x: nat, y: nat)
    requires x <= y
    ensures r * x <= r * y
  {
    MulDistribute(r, x, y - x);
  }

  /** Tokens spent and left never exceed what the clock has paid in. */
  lemma {:induction false} FirstAttemptInvariant(p: Params, times: seq<nat>)
    requires p.refill >= 1 && times != [] && Ordered(times)
    ensures var e := After(p, Entry(p.capacity, times[0]), times);
            && times[0] <= e.last <= times[|times| - 1]
            && Admitted(p, Entry(p.capacity, times[0]), times) + e.tokens
               <= p.capacity + Periods(p, e.last - times[0])
  {
    hide Periods;
    var start, n := Entry(p.capacity, times[0]), |times| - 1;
    if n == 0 {
      PeriodsZero(p, 0);
      assert times[..0] == [];
    } else {
      var pre := times[..n];
      assert pre[0] == times[0] && pre[|pre| - 1] == times[n - 1];
      FirstAttemptInvariant(p, pre);
      var e := After(p, start, pre);
      PeriodsAdd(p, e.last - times[0], times[n] - e.last);
    }
  }

  /** From a source's first attempt on, at most the capacity plus one per refill period gets in. */
  lemma AdmissionBound(p: Params, times: seq<nat>)
    requires p.refill >= 1 && times != [] && Ordered(times)
    ensures Admitted(p, Entry(p.capacity, times[0]), times)
         <= p.capacity + Periods(p, times[|times| - 1] - times[0])
  {
    hide Periods, After, Admitted;
    FirstAttemptInvariant(p, times);
    var e := After(p, Entry(p.capacity, times[0]), times);
    PeriodsMonotone(p, e.last - times[0], times[|times| - 1] - times[0]);
  }

  /** Anywhere later, from any state of the bucket: the clock may already have run for part of a
      period, which is worth one more. */
  lemma {:induction false} WindowInvariant(p: Params, start: Entry, times: seq<nat>)
    requires p.refill >= 1 && times != [] && Ordered(times)
    requires start.tokens <= p.capacity && start.last <= times[0]
    ensures var e, a := After(p, start, times), Admitted(p, start, times);
            && e.tokens <= p.capacity && e.last <= times[|times| - 1] < e.last + p.refill
            && (e.last < times[0] ==> a + e.tokens <= p.capacity)
            && (e.last >= times[0] ==> a + e.tokens <= p.capacity + 1 + Periods(p, e.last - times[0]))
  {
    hide Periods;
    var n := |times| - 1;
    var pre := times[..n];
    var e := After(p, start, pre);
    PeriodsZero(p, Elapsed(e.last, times[n]));
    if n == 0 {
      assert pre == [];
    } else {
      assert pre[0] == times[0] && pre[|pre| - 1] == times[n - 1];
      WindowInvariant(p, start, pre);
      if e.last >= times[0] {
        PeriodsAdd(p, e.last - times[0], times[n] - e.last);
      } else {
        PeriodsLate(p, times[n] - e.last, times[n] - times[0]);
      }
    }
  }

  lemma WindowBound(p: Params, start: Entry, times: seq<nat>)
    requires p.refill >= 1 && times != [] && Ordered(times)
    requires start.tokens <= p.capacity && start.last <= times[0]
    ensures Admitted(p, start, times) <= p.capacity + 1 + Periods(p, times[|times| - 1] - times[0])
  {
    hide Periods, After, Admitted;
    WindowInvariant(p, start, times);
    var e := After(p, start, times);
    if e.last >= times[0] {
      PeriodsMonotone(p, e.last - times[0], times[|times| - 1] - times[0]);
    }
  }

  // ---------------------------------------------------------------- how much is refilled

  /** No refill of the run is cut short by the capacity. */
  ghost predicate Uncapped(p: Params, e: Entry, times: seq<nat>)
    requires p.refill >= 1
  {
    forall n :: 0 <= n < |times| ==>
      var b := After(p, e, times[..n]);
      b.tokens + Periods(p, Elapsed(b.last, times[n])) <= p.capacity
  }

  /** Attempts that refill come a whole number of periods after the refill before. */
  ghost predicate OnTheDot(p: Params, e: Entry, times: seq<nat>)
    requires p.refill >= 1
  {
    forall n :: 0 <= n < |times| ==> Whole(p, Elapsed(After(p, e, times[..n]).last, times[n]))
  }

  ghost predicate Whole(p: Params, time: nat)
    requires p.refill >= 1
  {
    time < p.refill || p.refill * Periods(p, time) == time
  }

  /** Tokens paid in over a run. */
  ghost function PaidIn(p: Params, e: Entry, times: seq<nat>): int
    requires p.refill >= 1
  {
    Admitted(p, e, times) + After(p, e, times).tokens - e.tokens
  }

  lemma PrefixRun(p: Params, e: Entry, times: seq<nat>)
    requires p.refill >= 1 && times != []
    ensures var n := |times| - 1;
            var b := After(p, e, times[..n]);
            && (Uncapped(p, e, times) <==>
                  Uncapped(p, e, times[..n]) && b.tokens + Periods(p, Elapsed(b.last, times[n])) <= p.capacity)
            && (OnTheDot(p, e, times) <==> OnTheDot(p, e, times[..n]) && Whole(p, Elapsed(b.last, times[n])))
  {
    hide After, Periods, Whole;
    var pre := times[..|times| - 1];
    assert forall k :: 0 <= k < |pre| ==> pre[..k] == times[..k] && pre[k] == times[k];
  }

  /** One attempt, while the capacity does not cut in: the clock moves by less than twice what is paid in. */
  lemma PaidStep(p: Params, e: Entry, now: nat)
    requires p.refill >= 1 && e.last <= now && e.tokens + Periods(p, now - e.last) <= p.capacity
    ensures var (e', ok) := Attempt(p, e, now);
            var paid := (if ok then 1 else 0) + e'.tokens - e.tokens;
            && paid >= 0 && e.last <= e'.last <= now
            && p.refill * paid <= e'.last - e.last <= 2 * (p.refill * paid)
            && (p.refill * paid == e'.last - e.last <==> Whole(p, now - e.last))
  {
    var k := Periods(p, now - e.last);
    DivBound(now - e.last, p.refill);
    PeriodsZero(p, now - e.last);
    if k > 0 { MulMonotone(p.refill, 1, k); }
    hide Periods;
  }

  /** The clock is restarted at every refill, so part periods are lost. Over any run that never fills the
      bucket, from the first refill to the last: at least half of what the time is worth is paid in, and all
      of it exactly when every refill comes on the dot. */
  lemma {:induction false} RefillBounds(p: Params, e: Entry, times: seq<nat>)
    requires p.refill >= 1 && Ordered(times) && (times != [] ==> e.last <= times[0]) && Uncapped(p, e, times)
    ensures var paid, time := PaidIn(p, e, times), After(p, e, times).last - e.last;
            && 0 <= paid && (times == [] || After(p, e, times).last <= times[|times| - 1])
            && p.refill * paid <= time <= 2 * (p.refill * paid)
            && (p.refill * paid == time <==> OnTheDot(p, e, times))
  {
    hide After, Admitted, Attempt, Periods, Whole, Uncapped, OnTheDot;
    NothingPaid(p, e);
    if times != [] {
      var n := |times| - 1;
      var pre := times[..n];
      PrefixRun(p, e, times);
      LastAttempt(p, e, times);
      RefillBounds(p, e, pre);
      var b, b' := After(p, e, pre), After(p, e, times);
      if pre == [] {
        assert times[n] == times[0];
      } else {
        assert pre[|pre| - 1] == times[n - 1] && times[n - 1] <= times[n];
      }
      PaidStep(p, b, times[n]);
      AddPaid(p.refill, PaidIn(p, e, pre), PaidIn(p, e, times) - PaidIn(p, e, pre), b.last - e.last, b'.last - b.last);
    }
  }

  lemma NothingPaid(p: Params, e: Entry)
    requires p.refill >= 1
    ensures After(p, e, []) == e && PaidIn(p, e, []) == 0 && p.refill * 0 == 0 && OnTheDot(p, e, [])
  {}

  lemma LastAttempt(p: Params, e: Entry, times: seq<nat>)
    requires p.refill >= 1 && times != []
    ensures var n := |times| - 1;
            var (b, ok) := Attempt(p, After(p, e, times[..n]), times[n]);
            && After(p, e, times) == b
            && PaidIn(p, e, times) - PaidIn(p, e, times[..n])
            == (if ok then 1 else 0) + b.tokens - After(p, e, times[..n]).tokens
  {
    hide Attempt, Periods;
  }

  lemma AddPaid(r: nat, a: nat, b: nat, s: int, t: int)
    requires r * a <= s <= 2 * (r * a) && r * b <= t <= 2 * (r * b)
    ensures r * (a + b) <= s + t <= 2 * (r * (a + b))
    ensures r * (a + b) == s + t <==> r * a == s && r * b == t
  {
    MulDistribute(r, a, b);
  }

  // ---------------------------------------------------------------- pruning

  datatype Call = OnAllow(s: Source, now: nat) | OnPrune(now: nat)

  ghost predicate Timed(calls: seq<Call>) {
    forall i, j :: 0 <= i <= j < |calls| ==> calls[i].now <= calls[j].now
  }

  ghost function Run(p: Params, idle: nat, b: Buckets, calls: seq<Call>): Buckets
    requires p.refill >= 1
  {
    if calls == [] then b
    else
      var pre := Run(p, idle, b, calls[..|calls| - 1]);
      match calls[|calls| - 1]
      case OnAllow(s, now) => Allow(p, pre, s, now).0
      case OnPrune(now) => Prune(pre, now, idle)
  }

  /** The same calls with the prunes left out. */
  ghost function RunUnpruned(p: Params, b: Buckets, calls: seq<Call>): Buckets
    requires p.refill >= 1
  {
    if calls == [] then b
    else
      var pre := RunUnpruned(p, b, calls[..|calls| - 1]);
      match calls[|calls| - 1]
      case OnAllow(s, now) => Allow(p, pre, s, now).0
      case OnPrune(_) => pre
  }

  function TimesOf(calls: seq<Call>, s: Source): seq<nat> {
    if calls == [] then []
    else
      var call := calls[|calls| - 1];
      TimesOf(calls[..|calls| - 1], s) + (if call.OnAllow? && call.s == s then [call.now] else [])
  }

  /** A source's bucket is what its own attempts make of it, whoever else comes in between. */
  lemma {:induction false} SourceAlone(p: Params, calls: seq<Call>, s: Source)
    requires p.refill >= 1
    ensures s in RunUnpruned(p, map[], calls) <==> TimesOf(calls, s) != []
    ensures TimesOf(calls, s) != [] ==>
              RunUnpruned(p, map[], calls)[s] == After(p, Entry(p.capacity, TimesOf(calls, s)[0]), TimesOf(calls, s))
  {
    if calls != [] {
      var n := |calls| - 1;
      SourceAlone(p, calls[..n], s);
      hide Attempt;
      var before, call := TimesOf(calls[..n], s), calls[n];
      if call.OnAllow? && call.s == s {
        assert TimesOf(calls, s) == before + [call.now];
        assert (before + [call.now])[..|before|] == before;
      } else {
        assert TimesOf(calls, s) == before;
      }
    }
  }

  /** What pruning may have dropped: buckets that are due to be full again. */
  ghost predicate Indistinguishable(p: Params, full: Buckets, pruned: Buckets, now: nat) {
    && (forall s <- pruned :: s in full && pruned[s] == full[s])
    && (forall s <- full :: s !in pruned ==> full[s].last + p.capacity * p.refill <= now)
    && (forall s <- full :: full[s].tokens <= p.capacity && full[s].last <= now)
  }

  lemma DueIsFull(p: Params, e: Entry, now: nat)
    requires p.refill >= 1 && p.capacity >= 1 && e.tokens <= p.capacity
    requires e.last + p.capacity * p.refill <= now
    ensures Refilled(p, e, now) == Entry(p.capacity, now)
  {
    PeriodsAtLeast(p, now - e.last, p.capacity);
  }

  /** A decision is the same with and without the dropped buckets, and so is what it leaves. */
  lemma SameDecision(p: Params, full: Buckets, pruned: Buckets, s: Source, now: nat)
    requires p.refill >= 1 && p.capacity >= 1 && Indistinguishable(p, full, pruned, now)
    ensures Allow(p, full, s, now).1 == Allow(p, pruned, s, now).1
    ensures Indistinguishable(p, Allow(p, full, s, now).0, Allow(p, pruned, s, now).0, now)
  {
    if s in full && s !in pruned {
      DueIsFull(p, full[s], now);
    }
  }

  lemma {:induction false} PruneInvariant(p: Params, idle: nat, calls: seq<Call>, now: nat)
    requires p.refill >= 1 && p.capacity >= 1 && idle >= p.capacity * p.refill
    requires Timed(calls) && forall i :: 0 <= i < |calls| ==> calls[i].now <= now
    ensures Indistinguishable(p, RunUnpruned(p, map[], calls), Run(p, idle, map[], calls), now)
  {
    if calls != [] {
      var n := |calls| - 1;
      var call := calls[n];
      PruneInvariant(p, idle, calls[..n], call.now);
      match call
      case OnAllow(s, t) =>
        SameDecision(p, RunUnpruned(p, map[], calls[..n]), Run(p, idle, map[], calls[..n]), s, t);
      case OnPrune(t) =>
    }
  }

  lemma {:induction false} ZeroCapacityRun(p: Params, idle: nat, calls: seq<Call>)
    requires p.refill >= 1 && p.capacity == 0
    ensures forall x <- RunUnpruned(p, map[], calls) :: RunUnpruned(p, map[], calls)[x].tokens == 0
    ensures forall x <- Run(p, idle, map[], calls) :: Run(p, idle, map[], calls)[x].tokens == 0
  {
    if calls != [] {
      ZeroCapacityRun(p, idle, calls[..|calls| - 1]);
    }
  }

  ghost predicate PruningInvisible(p: Params, idle: nat)
    requires p.refill >= 1
  {
    forall calls: seq<Call>, s: Source, now: nat ::
      Timed(calls + [OnAllow(s, now)]) ==>
        Allow(p, Run(p, idle, map[], calls), s, now).1 == Allow(p, RunUnpruned(p, map[], calls), s, now).1
  }

  lemma PruningSafe(p: Params, idle: nat, calls: seq<Call>, s: Source, now: nat)
    requires p.refill >= 1 && idle >= p.capacity * p.refill && Timed(calls + [OnAllow(s, now)])
    ensures Allow(p, Run(p, idle, map[], calls), s, now).1 == Allow(p, RunUnpruned(p, map[], calls), s, now).1
  {
    var all := calls + [OnAllow(s, now)];
    forall i, j | 0 <= i <= j < |calls| ensures calls[i].now <= calls[j].now {
      assert all[i] == calls[i] && all[j] == calls[j];
    }
    forall i | 0 <= i < |calls| ensures calls[i].now <= now {
      assert all[i] == calls[i] && all[|calls|] == OnAllow(s, now);
    }
    if p.capacity == 0 {
      ZeroCapacityRun(p, idle, calls);
    } else {
      PruneInvariant(p, idle, calls, now);
      SameDecision(p, RunUnpruned(p, map[], calls), Run(p, idle, map[], calls), s, now);
    }
  }

  // A shorter idle time shows: empty a bucket, prune it away, and it is full again.

  function Burst(s: Source, now: nat, n: nat): seq<Call> {
    if n == 0 then [] else Burst(s, now, n - 1) + [OnAllow(s, now)]
  }

  lemma {:induction false} BurstTimes(s: Source, now: nat, n: nat)
    ensures |Burst(s, now, n)| == n && forall i :: 0 <= i < n ==> Burst(s, now, n)[i] == OnAllow(s, now)
  {
    if n > 0 { BurstTimes(s, now, n - 1); }
  }

  ghost function RunEither(p: Params, idle: nat, calls: seq<Call>, pruning: bool): Buckets
    requires p.refill >= 1
  {
    if pruning then Run(p, idle, map[], calls) else RunUnpruned(p, map[], calls)
  }

  /** A burst at one instant takes one token each. */
  lemma {:induction false} BurstDrains(p: Params, idle: nat, before: seq<Call>, s: Source, now: nat, n: nat, e: Entry,
                                       pruning: bool)
    requires p.refill >= 1
    requires e == Refilled(p, Current(p, RunEither(p, idle, before, pruning), s, now), now) && n <= e.tokens
    ensures Refilled(p, Current(p, RunEither(p, idle, before + Burst(s, now, n), pruning), s, now), now)
         == e.(tokens := e.tokens - n)
    decreases n
  {
    if n == 0 {
      assert before + [] == before;
    } else {
      BurstDrains(p, idle, before, s, now, n - 1, e, pruning);
      var pre, calls := before + Burst(s, now, n - 1), before + Burst(s, now, n);
      assert calls[..|calls| - 1] == pre && calls[|calls| - 1] == OnAllow(s, now);
      TakeOne(p, RunEither(p, idle, pre, pruning), s, now);
    }
  }

  lemma TakeOne(p: Params, b: Buckets, s: Source, now: nat)
    requires p.refill >= 1
    ensures var e := Refilled(p, Current(p, b, s, now), now);
            e.tokens > 0 ==>
              Refilled(p, Current(p, Allow(p, b, s, now).0, s, now), now) == e.(tokens := e.tokens - 1)
  {
    RefillOnce(p, Current(p, b, s, now), now);
  }

  lemma RefillOnce(p: Params, e: Entry, now: nat)
    requires p.refill >= 1
    ensures Refilled(p, Refilled(p, e, now), now) == Refilled(p, e, now)
    ensures forall n :: Refilled(p, Refilled(p, e, now).(tokens := n), now) == Refilled(p, e, now).(tokens := n)
  {
    PeriodsZero(p, 0);
  }

  lemma DrainedEntry(p: Params, b: Buckets, s: Source)
    requires p.refill >= 1 && p.capacity >= 1 && Refilled(p, Current(p, b, s, 0), 0) == Entry(0, 0)
    ensures s in b && b[s] == Entry(0, 0)
  {
    PeriodsZero(p, 0);
  }

  /** What `idle` ticks bring back to an empty bucket. */
  lemma Comeback(p: Params, idle: nat)
    requires p.refill >= 1 && idle < p.capacity * p.refill
    ensures Periods(p, idle) < p.capacity && Refilled(p, Entry(0, 0), idle).tokens == Periods(p, idle)
  {
    PeriodsAtLeast(p, idle, p.capacity);
  }

  lemma EmptyStart(p: Params, s: Source, now: nat)
    requires p.refill >= 1
    ensures Refilled(p, Current(p, map[], s, now), now) == Entry(p.capacity, now)
  {
    PeriodsZero(p, 0);
  }

  ghost function Exposing(p: Params, idle: nat): (seq<Call>, seq<Call>)
    requires p.refill >= 1
  {
    var before := Burst("s", 0, p.capacity) + [OnPrune(idle)];
    (before, before + Burst("s", idle, Periods(p, idle)))
  }

  lemma ExposingTimed(p: Params, idle: nat)
    requires p.refill >= 1
    ensures Timed(Exposing(p, idle).1 + [OnAllow("s", idle)])
  {
    BurstTimes("s", 0, p.capacity);
    BurstTimes("s", idle, Periods(p, idle));
  }

  /** The burst has emptied the bucket when the prune comes, which drops it if pruning is on. */
  lemma DrainedRun(p: Params, idle: nat, pruning: bool)
    requires p.refill >= 1 && p.capacity >= 1
    ensures var b := RunEither(p, idle, Exposing(p, idle).0, pruning);
            && ("s" in b <==> !pruning)
            && (!pruning ==> b["s"] == Entry(0, 0))
  {
    hide Periods, Refilled;
    var drain, before := Burst("s", 0, p.capacity), Exposing(p, idle).0;
    assert [] + drain == drain && before[..|before| - 1] == drain;
    EmptyStart(p, "s", 0);
    BurstDrains(p, idle, [], "s", 0, p.capacity, Entry(p.capacity, 0), pruning);
    DrainedEntry(p, RunEither(p, idle, drain, pruning), "s");
  }

  lemma ExposedUnpruned(p: Params, idle: nat)
    requires p.refill >= 1 && idle < p.capacity * p.refill
    ensures !Allow(p, RunUnpruned(p, map[], Exposing(p, idle).1), "s", idle).1
  {
    hide Periods, Refilled;
    var before := Exposing(p, idle).0;
    Comeback(p, idle);
    DrainedRun(p, idle, false);
    BurstDrains(p, idle, before, "s", idle, Periods(p, idle), Refilled(p, Entry(0, 0), idle), false);
  }

  lemma ExposedPruned(p: Params, idle: nat)
    requires p.refill >= 1 && idle < p.capacity * p.refill
    ensures Allow(p, Run(p, idle, map[], Exposing(p, idle).1), "s", idle).1
  {
    hide Periods, Refilled;
    var before := Exposing(p, idle).0;
    Comeback(p, idle);
    DrainedRun(p, idle, true);
    EmptyStart(p, "s", idle);
    BurstDrains(p, idle, before, "s", idle, Periods(p, idle), Entry(p.capacity, idle), true);
  }

  /** Pruning never shows in a decision exactly when only buckets idle for a full refill are dropped. */
  lemma PruningInvisibleIff(p: Params, idle: nat)
    requires p.refill >= 1
    ensures PruningInvisible(p, idle) <==> idle >= p.capacity * p.refill
  {
    if idle >= p.capacity * p.refill {
      forall calls: seq<Call>, s: Source, now: nat | Timed(calls + [OnAllow(s, now)])
        ensures Allow(p, Run(p, idle, map[], calls), s, now).1 == Allow(p, RunUnpruned(p, map[], calls), s, now).1
      {
        PruningSafe(p, idle, calls, s, now);
      }
    } else {
      ExposingTimed(p, idle);
      ExposedUnpruned(p, idle);
      ExposedPruned(p, idle);
      assert !PruningInvisible(p, idle);
    }
  }

  // ---------------------------------------------------------------- the shared object

  class Gate {
    const p: Params
    var buckets: Buckets

    constructor (capacity: nat, refillSecs: nat)
      ensures p == Params(capacity, if refillSecs == 0 then 1 else refillSecs) && buckets == map[]
    {
      p := Params(capacity, if refillSecs < 1 then 1 else refillSecs);
      buckets := map[];
    }

    method Admit(source: Source, now: nat) returns (ok: bool)
      requires p.refill >= 1
      modifies this
      ensures (buckets, ok) == Allow(p, old(buckets), source, now)
    {
      if source !in buckets {
        buckets := buckets[source := Entry(p.capacity, now)];
      }
      var e := buckets[source];
      var refilled := Periods(p, Elapsed(e.last, now));
      if refilled > 0 {
        e := Entry(if p.capacity < e.tokens + refilled then p.capacity else e.tokens + refilled, now);
      }
      ok := e.tokens > 0;
      if ok {
        e := e.(tokens := e.tokens - 1);
      }
      buckets := buckets[source := e];
      assert buckets == old(buckets)[source := e];
    }

    method DropIdle(idle: nat, now: nat)
      modifies this
      ensures buckets == Prune(old(buckets), now, idle)
    {
      buckets := map s | s in buckets && Elapsed(buckets[s].last, now) < idle :: buckets[s];
    }
  }
}
