/** Handshake replay protection of origin-network: the first eight bytes of each inbound handshake
    frame are remembered, the oldest being dropped once there are too many; the memory survives
    restarts in a file. */
module HandshakeTracker {
  import opened Wrappers
  import Nonces = ChannelCrypto

  const NONCE_LEN := 8
  const REPLAY_CAP := 1048576
  const MAGIC: Bytes := [0x4F, 0x4E, 0x52, 0x50]
  const FORMAT_VERSION: byte := 1

  datatype Memory = Memory(seen: set<Bytes>, order: seq<Bytes>, cap: nat)

  /** Set and queue hold the same nonces. */
  ghost predicate Consistent(m: Memory) {
    m.seen == Elements(m.order)
  }

  function Elements(s: seq<Bytes>): set<Bytes> {
    set x | x in s
  }

  /** Drops from the front until the queue fits; a nonce that is queued again further back stays
      remembered. */
  function Evict(m: Memory): Memory
    decreases |m.order|
  {
    if |m.order| <= m.cap then m else Evict(Dropped(m))
  }

  function CheckAndTrack(m: Memory, frame: Bytes): (Memory, bool) {
    if |frame| < NONCE_LEN then (m, true)
    else
      var nonce := frame[..NONCE_LEN];
      if nonce in m.seen then (m, false)
      else (Evict(m.(seen := m.seen + {nonce}, order := m.order + [nonce])), true)
  }

  function Last<T>(s: seq<T>, n: nat): seq<T> {
    if |s| <= n then s else s[|s| - n..]
  }

  /** Eviction keeps the last `cap` queued nonces and remembers exactly those. */
  lemma {:induction false} EvictKeepsLast(m: Memory)
    requires Consistent(m)
    ensures Evict(m) == Memory(Elements(Last(m.order, m.cap)), Last(m.order, m.cap), m.cap)
    decreases |m.order|
  {
    if |m.order| > m.cap {
      DropFront(m);
      LastOfTail(m.order, m.cap);
      hide Elements, Last;
      EvictKeepsLast(Dropped(m));
    }
  }

  function Dropped(m: Memory): Memory
    requires m.order != []
  {
    var oldest, rest := m.order[0], m.order[1..];
    m.(order := rest, seen := if oldest in rest then m.seen else m.seen - {oldest})
  }

  lemma DropFront(m: Memory)
    requires Consistent(m) && m.order != []
    ensures Consistent(Dropped(m))
  {
    assert forall x <- m.order :: x == m.order[0] || x in m.order[1..];
  }

  lemma LastOfTail(s: seq<Bytes>, n: nat)
    requires |s| > n
    ensures Last(s[1..], n) == Last(s, n)
  {}

  // ---------------------------------------------------------------- runs

  ghost function After(start: Memory, frames: seq<Bytes>): Memory {
    if frames == [] then start else CheckAndTrack(After(start, frames[..|frames| - 1]), frames[|frames| - 1]).0
  }

  /** The nonces that were taken in, in order. */
  ghost function Accepted(start: Memory, frames: seq<Bytes>): seq<Bytes> {
    if frames == [] then []
    else
      var n := |frames| - 1;
      Accepted(start, frames[..n])
      + (if |frames[n]| >= NONCE_LEN && CheckAndTrack(After(start, frames[..n]), frames[n]).1
         then [frames[n][..NONCE_LEN]] else [])
  }

  predicate Takes(m: Memory, frame: Bytes) {
    |frame| >= NONCE_LEN && frame[..NONCE_LEN] !in m.seen
  }

  lemma TrackStep(m: Memory, frame: Bytes)
    requires Consistent(m)
    ensures Takes(m, frame) ==>
              var kept := Last(m.order + [frame[..NONCE_LEN]], m.cap);
              CheckAndTrack(m, frame) == (Memory(Elements(kept), kept, m.cap), true)
    ensures !Takes(m, frame) ==> CheckAndTrack(m, frame).0 == m
    ensures |frame| >= NONCE_LEN ==> (CheckAndTrack(m, frame).1 <==> Takes(m, frame))
  {
    if Takes(m, frame) {
      var nonce := frame[..NONCE_LEN];
      ElementsAppend(m.order, nonce);
      EvictKeepsLast(m.(seen := m.seen + {nonce}, order := m.order + [nonce]));
    }
  }

  /** Whatever was loaded to start with, the queue holds the last `cap` of it and all that was taken
      in since, and the set holds the same. */
  lemma {:induction false} RemembersLast(start: Memory, frames: seq<Bytes>)
    requires Consistent(start)
    ensures var m, all := After(start, frames), start.order + Accepted(start, frames);
            && m.cap == start.cap && Consistent(m)
            && (m.order == Last(all, start.cap) || (Accepted(start, frames) == [] && m.order == start.order))
  {
    hide Evict, CheckAndTrack, Elements, Takes;
    if frames == [] {
      assert start.order + [] == start.order;
    } else {
      var n := |frames| - 1;
      RemembersLast(start, frames[..n]);
      var m, taken, frame := After(start, frames[..n]), Accepted(start, frames[..n]), frames[n];
      TrackStep(m, frame);
      if |frame| >= NONCE_LEN && CheckAndTrack(m, frame).1 {
        var nonce := frame[..NONCE_LEN];
        assert Accepted(start, frames) == taken + [nonce];
        assert start.order + (taken + [nonce]) == start.order + taken + [nonce];
        LastOfLast(start.order + taken, nonce, start.cap);
        assert start.order + [] == start.order;
      } else {
        assert Accepted(start, frames) == taken;
        TakesLong(m, frame);
      }
    }
  }

  lemma TakesLong(m: Memory, frame: Bytes)
    ensures Takes(m, frame) ==> |frame| >= NONCE_LEN
  {}

  lemma LastOfLast<T>(s: seq<T>, x: T, n: nat)
    ensures Last(Last(s, n) + [x], n) == Last(s + [x], n)
  {}

  /** From empty: a frame is refused exactly when its nonce is among the last `cap` taken in, and never
      more than `cap` are remembered. */
  lemma RejectsRecent(cap: nat, frames: seq<Bytes>, frame: Bytes)
    ensures var empty := Memory({}, [], cap);
            var m := After(empty, frames);
            && (!CheckAndTrack(m, frame).1 <==>
                  |frame| >= NONCE_LEN && frame[..NONCE_LEN] in Last(Accepted(empty, frames), cap))
            && |m.seen| <= |m.order| <= cap
  {
    var empty := Memory({}, [], cap);
    RemembersLast(empty, frames);
    assert [] + Accepted(empty, frames) == Accepted(empty, frames);
    ElementsSize(After(empty, frames).order);
  }

  lemma {:induction false} ElementsSize(s: seq<Bytes>)
    ensures |Elements(s)| <= |s|
  {
    if s != [] {
      var n := |s| - 1;
      ElementsSize(s[..n]);
      assert Elements(s) == Elements(s[..n]) + {s[n]};
    }
  }

  // ---------------------------------------------------------------- the file

  datatype LoadResult = Loaded(m: Memory) | Truncated | BadMagic | UnknownVersion | Misaligned

  function Concat(nonces: seq<Bytes>): Bytes {
    if nonces == [] then [] else nonces[0] + Concat(nonces[1..])
  }

  /** The set is written out in whatever order it is walked. */
  function Save(walk: seq<Bytes>): Bytes {
    MAGIC + [FORMAT_VERSION] + Concat(walk)
  }

  function Chunks(body: Bytes): (r: seq<Bytes>)
    requires |body| % NONCE_LEN == 0
    ensures forall c <- r :: |c| == NONCE_LEN
  {
    if body == [] then [] else [body[..NONCE_LEN]] + Chunks(body[NONCE_LEN..])
  }

  function Load(file: Bytes): LoadResult {
    if |file| < 5 then Truncated
    else if file[..4] != MAGIC then BadMagic
    else if file[4] != FORMAT_VERSION then UnknownVersion
    else if |file[5..]| % NONCE_LEN != 0 then Misaligned
    else
      var order := Chunks(file[5..]);
      Loaded(Memory(Elements(order), order, REPLAY_CAP))
  }

  lemma {:induction false} ChunksConcat(nonces: seq<Bytes>)
    requires forall c <- nonces :: |c| == NONCE_LEN
    ensures |Concat(nonces)| % NONCE_LEN == 0 && Chunks(Concat(nonces)) == nonces
  {
    if nonces != [] {
      ChunksConcat(nonces[1..]);
      var all := Concat(nonces);
      assert all[..NONCE_LEN] == nonces[0] && all[NONCE_LEN..] == Concat(nonces[1..]);
    }
  }

  lemma {:induction false} ConcatChunks(body: Bytes)
    requires |body| % NONCE_LEN == 0
    ensures Concat(Chunks(body)) == body
  {
    if body != [] {
      ConcatChunks(body[NONCE_LEN..]);
      assert Chunks(body)[1..] == Chunks(body[NONCE_LEN..]);
    }
  }

  /** What is saved is what is refused after the restart, in whatever order it was written. */
  lemma RestartKeepsRefusals(m: Memory, walk: seq<Bytes>, frame: Bytes)
    requires Elements(walk) == m.seen && forall c <- walk :: |c| == NONCE_LEN
    ensures Load(Save(walk)).Loaded? && Consistent(Load(Save(walk)).m)
    ensures Load(Save(walk)).m.seen == m.seen
    ensures CheckAndTrack(Load(Save(walk)).m, frame).1 == CheckAndTrack(m, frame).1
  {
    SavedLoads(walk);
    hide Load, Save, Elements;
  }

  /** Until the queue is full, everything taken in is new. */
  lemma {:induction false} TakenDistinct(start: Memory, frames: seq<Bytes>)
    requires Consistent(start) && Distinct(start.order) && |start.order| + |Accepted(start, frames)| <= start.cap + 1
    ensures Distinct(start.order + Accepted(start, frames))
  {
    if frames == [] {
      assert start.order + [] == start.order;
    } else {
      var n := |frames| - 1;
      var m, taken := After(start, frames[..n]), Accepted(start, frames[..n]);
      TakenDistinct(start, frames[..n]);
      if |Accepted(start, frames)| > |taken| {
        RemembersLast(start, frames[..n]);
        TrackStep(m, frames[n]);
        var nonce := frames[n][..NONCE_LEN];
        assert start.order + [] == start.order;
        assert m.order == start.order + taken;
        assert nonce !in Elements(m.order);
        assert start.order + Accepted(start, frames) == start.order + taken + [nonce];
      } else {
        assert Accepted(start, frames) == taken;
      }
    }
  }

  /** The nonce at `p` stands there for the last time. */
  ghost predicate LastAt(s: seq<Bytes>, p: nat) {
    p < |s| && forall q :: p < q < |s| ==> s[q] != s[p]
  }

  lemma KeptInLast(all: seq<Bytes>, cap: nat, p: nat)
    requires LastAt(all, p)
    ensures all[p] in Elements(Last(all, cap)) <==> |all| <= cap + p
  {
    if cap < |all| <= cap + p { assert Last(all, cap)[p - (|all| - cap)] == all[p]; }
  }

  /** From any memory, after any run: of what was queued and what was taken in since, in that order, exactly
      the last `cap` are refused, and everything until something is taken in. */
  lemma RefusedIff(start: Memory, frames: seq<Bytes>, p: nat)
    requires Consistent(start) && LastAt(start.order + Accepted(start, frames), p)
    requires |(start.order + Accepted(start, frames))[p]| == NONCE_LEN
    ensures var all := start.order + Accepted(start, frames);
            !CheckAndTrack(After(start, frames), all[p]).1 <==>
              Accepted(start, frames) == [] || |all| <= start.cap + p
  {
    RemembersLast(start, frames);
    var after, all := After(start, frames), start.order + Accepted(start, frames);
    assert all[p][..NONCE_LEN] == all[p];
    if Accepted(start, frames) == [] {
      assert all == start.order;
      assert all[p] in Elements(all);
    }
    hide After, Accepted, Evict, CheckAndTrack;
    KeptInLast(all, start.cap, p);
    TrackStep(after, all[p]);
  }

  /** The set is saved in no particular order, so what counts after a restart is the place in the file, not how
      recent a nonce was: the nonce at place `i`, unless taken in anew, is refused exactly as long as nothing
      was taken in or what is saved before it makes up for what is over the cap. */
  lemma RefusedAfterRestart(m: Memory, walk: seq<Bytes>, frames: seq<Bytes>, i: nat)
    requires Elements(walk) == m.seen && Distinct(walk) && forall c <- walk :: |c| == NONCE_LEN
    requires i < |walk| && Load(Save(walk)).Loaded? && walk[i] !in Accepted(Load(Save(walk)).m, frames)
    ensures var start := Load(Save(walk)).m;
            var taken := Accepted(start, frames);
            && walk[i] in m.seen
            && (!CheckAndTrack(After(start, frames), walk[i]).1 <==> taken == [] || |walk| + |taken| <= REPLAY_CAP + i)
  {
    SavedLoads(walk);
    var start := Load(Save(walk)).m;
    hide Load, Save, After, Accepted, CheckAndTrack;
    var all := walk + Accepted(start, frames);
    assert walk[i] in Elements(walk);
    assert all[i] == walk[i];
    forall q | i < q < |all| ensures all[q] != all[i] {
      if q >= |walk| { assert all[q] in Accepted(start, frames); }
    }
    RefusedIff(start, frames, i);
  }

  // ---------------------------------------------------------------- frames nobody has seen

  function Numbered(k: nat): Bytes {
    Nonces.LittleEndian(k, NONCE_LEN)
  }

  ghost function FirstNumbered(n: nat): set<Bytes> {
    set k: nat | k < n :: Numbered(k)
  }

  lemma {:induction false} NumberedApart(n: nat)
    requires n <= Nonces.Pow256(NONCE_LEN)
    ensures |FirstNumbered(n)| == n
  {
    hide Numbered, Nonces.Pow256;
    if n > 0 {
      NumberedApart(n - 1);
      forall k: nat | k < n - 1 ensures Numbered(k) != Numbered(n - 1) { NumberedOnce(k, n - 1); }
      assert FirstNumbered(n) == FirstNumbered(n - 1) + {Numbered(n - 1)};
    }
  }

  lemma NumberedOnce(k: nat, n: nat)
    requires k < n < Nonces.Pow256(NONCE_LEN)
    ensures Numbered(k) != Numbered(n)
  {
    Nonces.LittleEndianRoundTrip(k, NONCE_LEN);
    Nonces.LittleEndianRoundTrip(n, NONCE_LEN);
    hide Nonces.Pow256, Nonces.LittleEndian, Nonces.FromLittleEndian;
  }

  /** There are more nonces than any tracker remembers. */
  lemma Unseen(seen: set<Bytes>) returns (nonce: Bytes)
    requires |seen| < Nonces.Pow256(NONCE_LEN)
    ensures |nonce| == NONCE_LEN && nonce !in seen
  {
    NumberedApart(|seen| + 1);
    if FirstNumbered(|seen| + 1) <= seen {
      SubsetNoLarger(FirstNumbered(|seen| + 1), seen);
    }
    nonce :| nonce in FirstNumbered(|seen| + 1) && nonce !in seen;
  }

  lemma SubsetNoLarger(a: set<Bytes>, b: set<Bytes>)
    requires a <= b
    ensures |a| <= |b|
  {
    assert b == a + (b - a);
  }

  /** Frames that are all taken in. */
  lemma {:induction false} NewFrames(start: Memory, t: nat) returns (frames: seq<Bytes>)
    requires Consistent(start) && |start.order| < Nonces.Pow256(NONCE_LEN) && start.cap < Nonces.Pow256(NONCE_LEN)
    ensures |Accepted(start, frames)| == t
    decreases t
  {
    if t == 0 {
      frames := [];
    } else {
      var pre := NewFrames(start, t - 1);
      var m := After(start, pre);
      RemembersLast(start, pre);
      ElementsSize(m.order);
      var nonce := Unseen(m.seen);
      frames := pre + [nonce];
      assert frames[..|frames| - 1] == pre && nonce[..NONCE_LEN] == nonce;
      TrackStep(m, nonce);
    }
  }

  /** So the file can be such that, after a restart, frames can come that make the tracker forget the newest
      nonce of all and no other: it is taken for new again, and all others are still refused. */
  lemma NewestForgottenFirst(m: Memory) returns (walk: seq<Bytes>, frames: seq<Bytes>)
    requires Consistent(m) && Distinct(m.order) && 0 < |m.order| <= REPLAY_CAP && forall c <- m.order :: |c| == NONCE_LEN
    ensures Elements(walk) == m.seen && Distinct(walk) && |walk| == |m.order| && Load(Save(walk)).Loaded?
    ensures forall n <- m.seen ::
              CheckAndTrack(After(Load(Save(walk)).m, frames), n).1 <==> n == m.order[|m.order| - 1]
  {
    var last := |m.order| - 1;
    walk := [m.order[last]] + m.order[..last];
    assert forall x :: x in walk <==> x in m.order;
    assert Elements(walk) == Elements(m.order);
    SavedLoads(walk);
    var start := Load(Save(walk)).m;
    hide Load, Save, CheckAndTrack, After, Accepted;
    assert Nonces.Pow256(NONCE_LEN) > REPLAY_CAP + 1 by { assert Nonces.Pow256(4) == 0x1_0000_0000; }
    frames := NewFrames(start, REPLAY_CAP + 1 - |walk|);
    TakenDistinct(start, frames);
    var all := walk + Accepted(start, frames);
    forall n <- m.seen ensures CheckAndTrack(After(start, frames), n).1 <==> n == walk[0] {
      var i :| 0 <= i < |walk| && walk[i] == n;
      assert all[i] == n && all[0] == walk[0];
      RefusedIff(start, frames, i);
    }
  }

  /** A refused frame leaves the memory as it was: a replay does not make its nonce recent again. */
  lemma RefusedUnchanged(m: Memory, frame: Bytes)
    requires Consistent(m) && m.cap > 0
    ensures CheckAndTrack(m, frame).0 == m <==> !Takes(m, frame)
  {
    TrackStep(m, frame);
    if Takes(m, frame) {
      var all := m.order + [frame[..NONCE_LEN]];
      var kept := Last(all, m.cap);
      assert kept[|kept| - 1] == frame[..NONCE_LEN];
      assert frame[..NONCE_LEN] in Elements(kept);
    }
  }

  /** A file is accepted exactly when saving some list of nonces would write it; any file accepted is
      consistent, also with repeats in it. */
  lemma LoadAcceptsSaved(file: Bytes)
    ensures Load(file).Loaded? ==> Consistent(Load(file).m) && file == Save(Load(file).m.order)
    ensures (exists walk :: file == Save(walk) && forall c <- walk :: |c| == NONCE_LEN) ==> Load(file).Loaded?
  {
    if Load(file).Loaded? {
      ConcatChunks(file[5..]);
      assert file == file[..4] + [file[4]] + file[5..];
    }
    if walk :| file == Save(walk) && forall c <- walk :: |c| == NONCE_LEN {
      SavedLoads(walk);
    }
  }

  lemma SavedLoads(walk: seq<Bytes>)
    requires forall c <- walk :: |c| == NONCE_LEN
    ensures Load(Save(walk)) == Loaded(Memory(Elements(walk), walk, REPLAY_CAP))
  {
    hide Elements, Chunks, Concat;
    var file := Save(walk);
    ChunksConcat(walk);
    assert file[..4] == MAGIC && file[4] == FORMAT_VERSION && file[5..] == Concat(walk);
  }

  // ---------------------------------------------------------------- the tracker object

  class Tracker {
    var seen: set<Bytes>
    var order: seq<Bytes>
    const cap: nat

    ghost function Value(): Memory
      reads this
    {
      Memory(seen, order, cap)
    }

    constructor (m: Memory)
      ensures Value() == m
    {
      seen, order, cap := m.seen, m.order, m.cap;
    }

    method Check(frame: Bytes) returns (isNew: bool)
      modifies this
      ensures (Value(), isNew) == CheckAndTrack(old(Value()), frame)
    {
      if |frame| < NONCE_LEN {
        return true;
      }
      var nonce := frame[..NONCE_LEN];
      if nonce in seen {
        return false;
      }
      seen := seen + {nonce};
      order := order + [nonce];
      ghost var grown := Value();
      while |order| > cap
        invariant Evict(Value()) == Evict(grown)
        decreases |order|
      {
        var oldest := order[0];
        order := order[1..];
        if oldest in order {
          continue;
        }
        seen := seen - {oldest};
      }
      return true;
    }

    /** Written out in whatever order the set is walked, the file loads back as the same set. */
    method Write() returns (file: Bytes)
      requires forall n <- seen :: |n| == NONCE_LEN
      ensures Load(file).Loaded? && Load(file).m.seen == seen
    {
      file := MAGIC + [FORMAT_VERSION];
      ghost var walk: seq<Bytes> := [];
      var rest := seen;
      while rest != {}
        invariant rest <= seen && Elements(walk) == seen - rest
        invariant file == Save(walk)
      {
        var nonce :| nonce in rest;
        AppendSaved(walk, nonce);
        ElementsAppend(walk, nonce);
        assert seen - rest + {nonce} == seen - (rest - {nonce});
        file := file + nonce;
        walk := walk + [nonce];
        rest := rest - {nonce};
      }
      assert forall n <- walk :: n in Elements(walk);
      RestartKeepsRefusals(Value(), walk, []);
    }
  }

  lemma ElementsAppend(s: seq<Bytes>, x: Bytes)
    ensures Elements(s + [x]) == Elements(s) + {x}
  {}

  lemma AppendSaved(walk: seq<Bytes>, nonce: Bytes)
    ensures Save(walk + [nonce]) == Save(walk) + nonce
  {
    ConcatAppend(walk, nonce);
  }

  lemma {:induction false} ConcatAppend(walk: seq<Bytes>, nonce: Bytes)
    ensures Concat(walk + [nonce]) == Concat(walk) + nonce
  {
    if walk == [] {
      assert [nonce][1..] == [];
    } else {
      assert (walk + [nonce])[1..] == walk[1..] + [nonce];
      ConcatAppend(walk[1..], nonce);
    }
  }

  /** The file read back chunk by chunk. */
  method Read(file: Bytes) returns (r: LoadResult)
    ensures r == Load(file)
  {
    if |file| < 5 {
      return Truncated;
    }
    if file[..4] != MAGIC {
      return BadMagic;
    }
    if file[4] != FORMAT_VERSION {
      return UnknownVersion;
    }
    var body := file[5..];
    if |body| % NONCE_LEN != 0 {
      return Misaligned;
    }
    var m := ReadBody(body);
    return Loaded(m);
  }

  lemma ChunkOff(order: seq<Bytes>, rest: Bytes)
    requires rest != [] && |rest| % NONCE_LEN == 0
    ensures |rest| >= NONCE_LEN && |rest[NONCE_LEN..]| % NONCE_LEN == 0
    ensures order + Chunks(rest) == order + [rest[..NONCE_LEN]] + Chunks(rest[NONCE_LEN..])
  {}

  lemma NothingRead()
    ensures Elements([]) == {} && Chunks([]) == []
  {}

  method ReadBody(body: Bytes) returns (m: Memory)
    requires |body| % NONCE_LEN == 0
    ensures m == Memory(Elements(Chunks(body)), Chunks(body), REPLAY_CAP)
  {
    hide Elements, Chunks;
    var seen: set<Bytes> := {};
    var order: seq<Bytes> := [];
    var rest := body;
    NothingRead();
    while rest != []
      invariant |rest| % NONCE_LEN == 0
      invariant order + Chunks(rest) == Chunks(body)
      invariant seen == Elements(order)
      decreases |rest|
    {
      var nonce := rest[..NONCE_LEN];
      ElementsAppend(order, nonce);
      ChunkOff(order, rest);
      seen := seen + {nonce};
      order := order + [nonce];
      rest := rest[NONCE_LEN..];
    }
    assert order + [] == order;
    m := Memory(seen, order, REPLAY_CAP);
  }
}
