/** What a session still understands after frames that were not due: one stray frame, or those that were
    under way when the keys were rotated. */
module Strays {
  import opened Wrappers
  import opened ChannelCrypto
  import opened Session
  import Replay = ReplayWindow

  /** Frames taken one after the other, and what each gave. */
  function TakeAll(c: Suite, r: Session, fs: seq<Flight>): (Session, seq<Outcome<Bytes>>) {
    if fs == [] then (r, [])
    else
      var n := |fs| - 1;
      var (r', got) := TakeAll(c, r, fs[..n]);
      var (r'', p) := Decrypt(c, r', fs[n].m);
      (r'', got + [p])
  }

  /** How many of the `q` numbers from `d` on a window lets by. */
  function Lets(seen: Replay.SeenSet, d: nat, q: nat): (n: nat)
    ensures n <= q
  {
    if q == 0 then 0 else Lets(seen, d, q - 1) + (if seen.Accepts(d + q - 1) then 1 else 0)
  }

  /** Message `q` is let by, and the chain, `p` places on to begin with, has come to its place. */
  predicate InTurn(seen: Replay.SeenSet, d: nat, p: nat, q: nat) {
    seen.Accepts(d + q) && p + Lets(seen, d, q) == q
  }

  ghost predicate Room(r: Session, fs: seq<Flight>) {
    r.received.messages + |fs| <= r.limits.maxMessages && r.received.bytes + TotalLen(fs) <= r.limits.maxBytes
  }

  /** Taking a number changes nothing for larger ones. */
  lemma AcceptAhead(seen: Replay.SeenSet, x: nat, n: nat)
    requires seen.Valid() && x < n
    ensures seen.Accept(x).Valid() && (seen.Accept(x).Accepts(n) <==> seen.Accepts(n))
  {}

  /** Where the receiver stands after the messages `fs`, numbered from `d` on, were taken in order. */
  ghost predicate Arrived(c: Suite, r: Session, chain: Bytes, d: nat, p: nat, fs: seq<Flight>, r': Session,
                          got: seq<Outcome<Bytes>>) {
    var let := Lets(r.replay, d, |fs|);
    && |got| == |fs|
    && r'.limits == r.limits && r'.keys.recv == ChainAt(c, chain, p + let)
    && r'.received.messages == r.received.messages + let
    && r'.received.bytes <= r.received.bytes + TotalLen(fs)
    && r'.replay.Valid() && (forall n :: n >= d + |fs| ==> (r'.replay.Accepts(n) <==> r.replay.Accepts(n)))
    && forall q :: 0 <= q < |fs| ==> if InTurn(r.replay, d, p, q) then got[q] == Ok(fs[q].plain) else got[q].Err?
  }

  /** In whatever state the receiver is: of messages that follow in order it understands exactly those
      that are in turn. */
  lemma {:induction false} InOrderFrom(c: Suite, r: Session, chain: Bytes, d: nat, p: nat, fs: seq<Flight>)
    requires AeadLaw(c) && InFlight(c, chain, d, fs) && OwnKeyOnly(c, chain, fs, p + |fs|)
    requires r.replay.Valid() && r.keys.recv == ChainAt(c, chain, p) && Room(r, fs)
    ensures Arrived(c, r, chain, d, p, fs, TakeAll(c, r, fs).0, TakeAll(c, r, fs).1)
  {
    if fs != [] {
      var n := |fs| - 1;
      var pre := fs[..n];
      assert fs == pre + [fs[n]];
      TotalLenAppend(pre, fs[n]);
      InOrderFrom(c, r, chain, d, p, pre);
      OneMore(c, r, chain, d, p, fs, TakeAll(c, r, pre).0, TakeAll(c, r, pre).1);
    }
  }

  lemma OneMore(c: Suite, r: Session, chain: Bytes, d: nat, p: nat, fs: seq<Flight>, r': Session, got: seq<Outcome<Bytes>>)
    requires AeadLaw(c) && InFlight(c, chain, d, fs) && OwnKeyOnly(c, chain, fs, p + |fs|) && fs != [] && Room(r, fs)
    requires TotalLen(fs) == TotalLen(fs[..|fs| - 1]) + |fs[|fs| - 1].plain|
    requires Arrived(c, r, chain, d, p, fs[..|fs| - 1], r', got)
    ensures var (r'', last) := Decrypt(c, r', fs[|fs| - 1].m);
            Arrived(c, r, chain, d, p, fs, r'', got + [last])
  {
    hide CounterToNonce, MessageKey, NextChain, TotalLen;
    var n := |fs| - 1;
    var (r'', last) := Decrypt(c, r', fs[n].m);
    var key, nonce := MessageKey(c, ChainAt(c, chain, n)), CounterToNonce(d + n);
    assert fs[n].m == Message(d + n, nonce, c.seal(key, nonce, fs[n].plain));
    assert c.open(key, nonce, c.seal(key, nonce, fs[n].plain)) == Some(fs[n].plain);
    assert |c.seal(key, nonce, fs[n].plain)| == |fs[n].plain| + TAG_LEN;
    assert r'.replay.Accepts(d + n) <==> r.replay.Accepts(d + n);
    forall x | x >= d + |fs| ensures r''.replay.Accepts(x) <==> r.replay.Accepts(x) {
      AcceptAhead(r'.replay, d + n, x);
    }
    AcceptAhead(r'.replay, d + n, d + n + 1);
  }

  // ---------------------------------------------------------------- one stray frame

  /** Which messages are still understood after a frame with the number of the `j`-th message to come was
      taken before them. A frame charged to the chain puts it one place ahead until the `j`-th message is
      refused as a repeat; one that only had its number taken leaves it one place behind from there on.
      From a whole window ahead, the window refuses messages to come as well: the first of these makes up
      for the place used, any more are never made up for. */
  predicate Survives(j: nat, charged: bool, k: nat) {
    if charged then (j < WINDOW && k > j) || (j == WINDOW && 1 <= k < j) else j < WINDOW && k < j
  }

  /** What the window has seen: the numbers below `d`, and `d + j`. */
  ghost predicate SeenAhead(seen: Replay.SeenSet, d: nat, j: nat) {
    && seen.window == WINDOW && seen.highest == d + j
    && (forall x: nat :: x in seen.accepted <==> x < d || x == d + j)
  }

  lemma AheadAccepts(seen: Replay.SeenSet, d: nat, j: nat, k: nat)
    requires SeenAhead(seen, d, j)
    ensures seen.Accepts(d + k) <==> k != j && k + WINDOW > j
  {
    assert d + j in seen.accepted;
  }

  lemma {:induction false} AheadLets(seen: Replay.SeenSet, d: nat, j: nat, q: nat)
    requires SeenAhead(seen, d, j)
    ensures var passed := if j < WINDOW then 0 else j + 1 - WINDOW;
            Lets(seen, d, q) == (if q <= passed then 0 else q - passed) - (if q > j then 1 else 0)
  {
    if q > 0 {
      AheadLets(seen, d, j, q - 1);
      AheadAccepts(seen, d, j, q - 1);
    }
  }

  /** Any frame at all, genuine or not, that the window takes in place of the message due: of the messages
      under way then delivered in order, exactly the survivors are understood. */
  lemma StrayEffect(c: Suite, s: Session, r: Session, fs: seq<Flight>, m: Message, j: nat)
    requires AeadLaw(c) && Linked(c, s, r, fs) && OwnKeyOnly(c, r.keys.recv, fs, |fs| + 1)
    requires m.number == r.received.messages + j && Room(Decrypt(c, r, m).0, fs)
    ensures r.replay.Accepts(m.number)
    ensures var charged := WithinBudget(r.received, r.limits, PlainLen(|m.ciphertext|));
            var got := TakeAll(c, Decrypt(c, r, m).0, fs).1;
            && |got| == |fs|
            && forall k :: 0 <= k < |fs| ==> if Survives(j, charged, k) then got[k] == Ok(fs[k].plain) else got[k].Err?
  {
    var d, r' := r.received.messages, Decrypt(c, r, m).0;
    var charged := WithinBudget(r.received, r.limits, PlainLen(|m.ciphertext|));
    var p := if charged then 1 else 0;
    StrayTaken(c, r, m, j);
    assert ChainAt(c, r.keys.recv, 1) == NextChain(c, ChainAt(c, r.keys.recv, 0));
    KeysBelow(c, r.keys.recv, fs, p + |fs|, |fs| + 1);
    hide *;
    Taken(c, r', r.keys.recv, d, p, fs);
    forall k | 0 <= k < |fs| ensures InTurn(r'.replay, d, p, k) <==> Survives(j, charged, k) {
      SurvivesIff(r'.replay, d, j, charged, k);
    }
  }

  /** The outcome of taking messages in order, without the state it leaves. */
  lemma Taken(c: Suite, r: Session, chain: Bytes, d: nat, p: nat, fs: seq<Flight>)
    requires AeadLaw(c) && InFlight(c, chain, d, fs) && OwnKeyOnly(c, chain, fs, p + |fs|)
    requires r.replay.Valid() && r.keys.recv == ChainAt(c, chain, p) && Room(r, fs)
    ensures var got := TakeAll(c, r, fs).1;
            && |got| == |fs|
            && forall q :: 0 <= q < |fs| ==> if InTurn(r.replay, d, p, q) then got[q] == Ok(fs[q].plain) else got[q].Err?
  {
    InOrderFrom(c, r, chain, d, p, fs);
  }

  lemma SurvivesIff(seen: Replay.SeenSet, d: nat, j: nat, charged: bool, k: nat)
    requires SeenAhead(seen, d, j)
    ensures InTurn(seen, d, if charged then 1 else 0, k) <==> Survives(j, charged, k)
  {
    AheadAccepts(seen, d, j, k);
    AheadLets(seen, d, j, k);
  }

  lemma KeysBelow(c: Suite, chain: Bytes, fs: seq<Flight>, low: nat, high: nat)
    requires OwnKeyOnly(c, chain, fs, high) && low <= high
    ensures OwnKeyOnly(c, chain, fs, low)
  {}

  lemma StrayTaken(c: Suite, r: Session, m: Message, j: nat)
    requires SeenFirst(r.replay, r.received.messages) && m.number == r.received.messages + j
    ensures r.replay.Accepts(m.number)
    ensures var r' := Decrypt(c, r, m).0;
            && r'.replay.Valid() && SeenAhead(r'.replay, r.received.messages, j)
            && r'.keys.recv == if WithinBudget(r.received, r.limits, PlainLen(|m.ciphertext|)) then NextChain(c, r.keys.recv)
                               else r.keys.recv
  {
    hide NextChain, MessageKey;
    var d := r.received.messages;
    if d > 0 { assert d - 1 in r.replay.accepted; }
  }

  // ---------------------------------------------------------------- rotation with messages under way

  /** No frame of the old epoch opens under the keys it meets in the new one. */
  ghost predicate StaleApart(c: Suite, chain: Bytes, fs: seq<Flight>) {
    forall i :: 0 <= i < |fs| ==> c.open(MessageKey(c, ChainAt(c, chain, i)), fs[i].m.nonce, fs[i].m.ciphertext).None?
  }

  ghost predicate SeenRange(seen: Replay.SeenSet, g: nat, n: nat) {
    && seen.window == WINDOW && seen.highest == (if n == 0 then 0 else g + n - 1)
    && (forall x: nat :: x in seen.accepted <==> g <= x < g + n)
  }

  /** What the frames of the old epoch, numbered from `g` on, do to the new one. */
  ghost predicate Spoilt(c: Suite, r: Session, g: nat, fs: seq<Flight>, r': Session, got: seq<Outcome<Bytes>>) {
    && SeenRange(r'.replay, g, |fs|) && r'.replay.Valid()
    && r'.limits == r.limits && r'.received.messages == |fs| && r'.received.bytes == TotalLen(fs)
    && r'.keys.recv == ChainAt(c, r.keys.recv, |fs|)
    && |got| == |fs| && forall i :: 0 <= i < |fs| ==> got[i] == Err(Decryption)
  }

  lemma {:induction false} StaleSpoil(c: Suite, keys: RatchetKeys, limits: Limits, past: Bytes, g: nat, fs: seq<Flight>)
    requires AeadLaw(c) && InFlight(c, past, g, fs) && StaleApart(c, keys.recv, fs) && Room(New(keys, limits), fs)
    ensures var (r', got) := TakeAll(c, New(keys, limits), fs); Spoilt(c, New(keys, limits), g, fs, r', got)
  {
    hide Spoilt, Decrypt, MessageKey, CounterToNonce, ChainAt;
    NothingSpoilt(c, keys, limits, g);
    if fs != [] {
      var n := |fs| - 1;
      var pre := fs[..n];
      assert fs == pre + [fs[n]];
      TotalLenAppend(pre, fs[n]);
      StaleSpoil(c, keys, limits, past, g, pre);
      StaleOne(c, New(keys, limits), past, g, fs, TakeAll(c, New(keys, limits), pre).0, TakeAll(c, New(keys, limits), pre).1);
    }
  }

  lemma NothingSpoilt(c: Suite, keys: RatchetKeys, limits: Limits, g: nat)
    ensures Spoilt(c, New(keys, limits), g, [], New(keys, limits), [])
  {}

  lemma StaleOne(c: Suite, r: Session, past: Bytes, g: nat, fs: seq<Flight>, r': Session, got: seq<Outcome<Bytes>>)
    requires AeadLaw(c) && InFlight(c, past, g, fs) && StaleApart(c, r.keys.recv, fs) && fs != []
    requires |fs| <= r.limits.maxMessages && TotalLen(fs) <= r.limits.maxBytes
    requires TotalLen(fs) == TotalLen(fs[..|fs| - 1]) + |fs[|fs| - 1].plain|
    requires Spoilt(c, r, g, fs[..|fs| - 1], r', got)
    ensures var (r'', last) := Decrypt(c, r', fs[|fs| - 1].m); Spoilt(c, r, g, fs, r'', got + [last])
  {
    hide CounterToNonce, MessageKey, NextChain, TotalLen;
    var n := |fs| - 1;
    var key, nonce := MessageKey(c, ChainAt(c, past, n)), CounterToNonce(g + n);
    assert fs[n].m == Message(g + n, nonce, c.seal(key, nonce, fs[n].plain));
    assert |c.seal(key, nonce, fs[n].plain)| == |fs[n].plain| + TAG_LEN;
    assert c.open(MessageKey(c, ChainAt(c, r.keys.recv, n)), fs[n].m.nonce, fs[n].m.ciphertext).None?;
    if n > 0 { assert g + n - 1 in r'.replay.accepted; }
  }

  /** Which messages of the new epoch are understood after `n` of the old one, numbered from `g` on, came
      first. Each of the old ones has used up a place of the chain and a number, so the two agree again
      past the last number used, provided every number up to there was refused for being used. Where the
      window has moved past unused numbers too, they agree only if it has passed as many as were used. */
  predicate Recovers(g: nat, n: nat, q: nat) {
    || n == 0
    || (q >= g + n && (g + n <= WINDOW || g == 0))
    || (g == WINDOW && n <= q < g)
  }

  lemma RangeAccepts(seen: Replay.SeenSet, g: nat, n: nat, q: nat)
    requires SeenRange(seen, g, n)
    ensures seen.Accepts(q) <==> n == 0 || (!(g <= q < g + n) && q + WINDOW >= g + n)
  {
    if n > 0 { assert g in seen.accepted; }
  }

  /** Of the first `q` numbers, those below `low` and those from `g` to `g + n` are refused. */
  lemma {:induction false} RangeLets(seen: Replay.SeenSet, g: nat, n: nat, q: nat)
    requires SeenRange(seen, g, n)
    ensures var low := if n == 0 || g + n <= WINDOW then 0 else g + n - WINDOW;
            var below := if q < low then q else low;
            var from := if low < g then g else low;
            var used := if q <= from then 0 else if q < g + n then q - from else g + n - from;
            Lets(seen, 0, q) == q - below - used
  {
    if q > 0 {
      RangeLets(seen, g, n, q - 1);
      RangeAccepts(seen, g, n, q - 1);
    }
  }

  /** Both sides rotate while `fs` is under way, and `gs` is sent in the new epoch. With everything
      delivered in order, all of `fs` is lost, and of `gs` all but what recovers. So nothing is lost
      exactly when nothing was under way. */
  lemma RotationLoses(c: Suite, s: Session, r: Session, fs: seq<Flight>, keys: RatchetKeys, gs: seq<Flight>)
    requires AeadLaw(c) && Linked(c, s, r, fs)
    requires StaleApart(c, keys.recv, fs) && InFlight(c, keys.recv, 0, gs) && OwnKeyOnly(c, keys.recv, gs, |fs| + |gs|)
    requires |fs| + |gs| <= r.limits.maxMessages && TotalLen(fs) + TotalLen(gs) <= r.limits.maxBytes
    ensures var (r', lost) := TakeAll(c, Rotate(r, keys), fs);
            var got := TakeAll(c, r', gs).1;
            && |lost| == |fs| && (forall i :: 0 <= i < |fs| ==> lost[i] == Err(Decryption))
            && |got| == |gs|
            && (forall q :: 0 <= q < |gs| ==>
                  if Recovers(r.received.messages, |fs|, q) then got[q] == Ok(gs[q].plain) else got[q].Err?)
  {
    var g, n := r.received.messages, |fs|;
    hide CounterToNonce, MessageKey, NextChain, TotalLen, Decrypt, TakeAll, OwnKeyOnly, InFlight, SeenRange, Lets, StaleApart;
    StaleSpoil(c, keys, r.limits, r.keys.recv, g, fs);
    var r' := TakeAll(c, Rotate(r, keys), fs).0;
    hide *;
    Taken(c, r', keys.recv, 0, n, gs);
    forall q | 0 <= q < |gs| ensures InTurn(r'.replay, 0, n, q) <==> Recovers(g, n, q) {
      RecoversIff(r'.replay, g, n, q);
    }
  }

  lemma RecoversIff(seen: Replay.SeenSet, g: nat, n: nat, q: nat)
    requires SeenRange(seen, g, n)
    ensures InTurn(seen, 0, n, q) <==> Recovers(g, n, q)
  {
    RangeAccepts(seen, g, n, q);
    RangeLets(seen, g, n, q);
  }

  // ---------------------------------------------------------------- rotation without swapping

  /** The messages under way, taken in order, are all understood. */
  lemma {:induction false} LinkedTakes(c: Suite, s: Session, r: Session, fs: seq<Flight>, n: nat)
    requires AeadLaw(c) && Linked(c, s, r, fs) && n <= |fs|
    ensures var (r', got) := TakeAll(c, r, fs[..n]);
            && Linked(c, s, r', fs[n..])
            && |got| == n && forall i :: 0 <= i < n ==> got[i] == Ok(fs[i].plain)
    decreases n
  {
    hide Linked, Decrypt, AeadLaw;
    if n == 0 {
      assert fs[..0] == [] && fs[0..] == fs;
    } else {
      LinkedTakes(c, s, r, fs, n - 1);
      assert fs[..n][..n - 1] == fs[..n - 1];
      assert fs[n - 1..][0] == fs[n - 1] && fs[n - 1..][1..] == fs[n..];
      DeliverLinks(c, s, TakeAll(c, r, fs[..n - 1]).0, fs[n - 1..]);
    }
  }

  /** Both sides rotate to the ratchet step's result as it comes, and one sends `fs`, which a peer that swaps
      would find linked. The other understands all of it if the two chains coincide, and none otherwise. */
  lemma UnswappedUnderstoodIff(c: Suite, root: Bytes, shared: Bytes, limits: Limits, s: Session, fs: seq<Flight>)
    requires AeadLaw(c) && fs != []
    requires Linked(c, s, New(DhRatchet(c, root, shared).Mirrored(), limits), fs)
    requires var k := DhRatchet(c, root, shared); k.send != k.recv ==> StaleApart(c, k.recv, fs)
    ensures var k := DhRatchet(c, root, shared);
            var got := TakeAll(c, New(k, limits), fs).1;
            && |got| == |fs|
            && forall i :: 0 <= i < |fs| ==> got[i] == if k.send == k.recv then Ok(fs[i].plain) else Err(Decryption)
  {
    var k := DhRatchet(c, root, shared);
    if k.send == k.recv {
      assert k.Mirrored() == k && fs[..|fs|] == fs;
      hide *;
      LinkedTakes(c, s, New(k, limits), fs, |fs|);
    } else {
      FreshFlight(c, s, k, limits, fs);
      hide AeadLaw, Linked, InFlight, StaleApart, Room, TakeAll, New, DhRatchet;
      StaleSpoil(c, k, limits, k.send, 0, fs);
    }
  }

  lemma FreshFlight(c: Suite, s: Session, k: RatchetKeys, limits: Limits, fs: seq<Flight>)
    requires Linked(c, s, New(k.Mirrored(), limits), fs)
    ensures InFlight(c, k.send, 0, fs) && Room(New(k, limits), fs)
  {}
}
