/** Ratcheted sessions of origin-channel: encryption and decryption over the key schedule, the nonce
    counter, the replay window and the usage budget. */
module Session {
  import opened Wrappers
  import opened ChannelCrypto
  import Replay = ReplayWindow

  const WINDOW := 1024

  datatype Message = Message(number: nat, nonce: Bytes, ciphertext: Bytes)

  datatype Session = Session(
    keys: RatchetKeys,
    nextNonce: nat,
    replay: Replay.SeenSet,
    limits: Limits,
    sent: Direction,
    received: Direction,
    sendSeq: nat)

  function New(keys: RatchetKeys, limits: Limits): Session {
    Session(keys, 0, Replay.Empty(WINDOW), limits, UNUSED, UNUSED, 0)
  }

  /** The budget is charged and the chain advanced before the nonce is drawn. */
  function Encrypt(c: Suite, s: Session, plain: Bytes): (Session, Outcome<Message>) {
    if !WithinBudget(s.sent, s.limits, |plain|) then (s, Err(UsageLimitExceeded))
    else
      var charged := s.(sent := Record(s.sent, s.limits, |plain|),
                        keys := s.keys.(send := NextChain(c, s.keys.send)));
      if s.nextNonce == NONCE_MAX then (charged, Err(NonceExhausted))
      else
        var nonce := CounterToNonce(s.nextNonce);
        (charged.(nextNonce := s.nextNonce + 1, sendSeq := s.sendSeq + 1),
         Ok(Message(s.sendSeq, nonce, c.seal(MessageKey(c, s.keys.send), nonce, plain))))
  }

  /** The window, the budget and the chain all move before authentication is checked. */
  function Decrypt(c: Suite, s: Session, m: Message): (Session, Outcome<Bytes>) {
    if !s.replay.Accepts(m.number) then (s, Err(ChannelError.Replay(m.number)))
    else
      var marked := s.(replay := s.replay.Accept(m.number));
      var len := PlainLen(|m.ciphertext|);
      if !WithinBudget(s.received, s.limits, len) then (marked, Err(UsageLimitExceeded))
      else
        var stepped := marked.(received := Record(s.received, s.limits, len),
                               keys := s.keys.(recv := NextChain(c, s.keys.recv)));
        match c.open(MessageKey(c, s.keys.recv), m.nonce, m.ciphertext)
        case Some(plain) => (stepped, Ok(plain))
        case None => (stepped, Err(Decryption))
  }

  function Rotate(s: Session, keys: RatchetKeys): Session {
    New(keys, s.limits)
  }

  // ---------------------------------------------------------------- one side, any peer

  datatype Op = Send(plain: Bytes) | Receive(m: Message)

  datatype Log = Log(s: Session, out: seq<Message>)

  function Do(c: Suite, l: Log, op: Op): Log {
    match op
    case Send(plain) =>
      var (s', r) := Encrypt(c, l.s, plain);
      Log(s', if r.Ok? then l.out + [r.value] else l.out)
    case Receive(m) => Log(Decrypt(c, l.s, m).0, l.out)
  }

  function DoAll(c: Suite, l: Log, ops: seq<Op>): Log {
    if ops == [] then l else Do(c, DoAll(c, l, ops[..|ops| - 1]), ops[|ops| - 1])
  }

  /** Sequence number, nonce counter, message count and chain position move together, and the
      `i`-th message out carries number `i` and the `i`-th nonce. */
  ghost predicate Lockstep(c: Suite, start: RatchetKeys, limits: Limits, l: Log) {
    var s := l.s;
    && s.limits == limits
    && |l.out| == s.sendSeq == s.nextNonce == s.sent.messages <= limits.maxMessages
    && s.sent.bytes <= limits.maxBytes
    && s.received.messages <= limits.maxMessages && s.received.bytes <= limits.maxBytes
    && s.keys.send == ChainAt(c, start.send, s.sendSeq)
    && s.keys.recv == ChainAt(c, start.recv, s.received.messages)
    && s.keys.root == start.root
    && forall i :: 0 <= i < |l.out| ==> l.out[i].number == i && l.out[i].nonce == CounterToNonce(i)
  }

  lemma DoLockstep(c: Suite, start: RatchetKeys, limits: Limits, l: Log, op: Op)
    requires limits.maxMessages <= NONCE_MAX && Lockstep(c, start, limits, l)
    ensures Lockstep(c, start, limits, Do(c, l, op))
  {
    hide CounterToNonce, MessageKey, NextChain;
  }

  lemma {:induction false} AlwaysLockstep(c: Suite, keys: RatchetKeys, limits: Limits, ops: seq<Op>)
    requires limits.maxMessages <= NONCE_MAX
    ensures Lockstep(c, keys, limits, DoAll(c, Log(New(keys, limits), []), ops))
  {
    if ops != [] {
      AlwaysLockstep(c, keys, limits, ops[..|ops| - 1]);
      DoLockstep(c, keys, limits, DoAll(c, Log(New(keys, limits), []), ops[..|ops| - 1]), ops[|ops| - 1]);
    }
  }

  /** In one epoch, whatever the peer does: no two messages share a nonce or a number, and neither
      budget is overrun. */
  lemma EpochSafety(c: Suite, keys: RatchetKeys, limits: Limits, ops: seq<Op>, i: nat, j: nat)
    requires limits.maxMessages <= NONCE_MAX
    requires i < j < |DoAll(c, Log(New(keys, limits), []), ops).out|
    ensures var l := DoAll(c, Log(New(keys, limits), []), ops);
            && l.out[i].nonce != l.out[j].nonce && l.out[i].number != l.out[j].number
            && |l.out| <= limits.maxMessages
            && l.s.sent.bytes <= limits.maxBytes && l.s.received.bytes <= limits.maxBytes
  {
    AlwaysLockstep(c, keys, limits, ops);
    if CounterToNonce(i) == CounterToNonce(j) { NonceInjective(i, j); }
  }

  // What goes out, told by the plaintexts alone.

  function TotalBytes(plains: seq<Bytes>): nat {
    if plains == [] then 0 else TotalBytes(plains[..|plains| - 1]) + |plains[|plains| - 1]|
  }

  /** One more plaintext is within the limits of an epoch. */
  predicate Fits(limits: Limits, sent: seq<Bytes>, plain: Bytes) {
    |sent| < limits.maxMessages && TotalBytes(sent) + |plain| <= limits.maxBytes
  }

  /** The plaintexts of a run that go out: each that fits after those before it. */
  function SentOf(limits: Limits, ops: seq<Op>): seq<Bytes> {
    if ops == [] then []
    else
      var last, sent := ops[|ops| - 1], SentOf(limits, ops[..|ops| - 1]);
      if last.Send? && Fits(limits, sent, last.plain) then sent + [last.plain] else sent
  }

  /** One plaintext, when those of the epoch so far are known. */
  lemma EncryptExactly(c: Suite, s: Session, sent: seq<Bytes>, plain: Bytes)
    requires s.limits.maxMessages <= NONCE_MAX
    requires s.sent == Direction(|sent|, TotalBytes(sent)) && s.nextNonce == s.sendSeq == |sent|
    ensures var (s', r) := Encrypt(c, s, plain);
            && (r.Ok? <==> Fits(s.limits, sent, plain))
            && (r.Ok? ==> var sent' := sent + [plain];
                          && s'.sent == Direction(|sent'|, TotalBytes(sent')) && s'.nextNonce == s'.sendSeq == |sent'|
                          && s'.keys == s.keys.(send := NextChain(c, s.keys.send))
                          && r.value == Message(|sent|, CounterToNonce(|sent|),
                                                c.seal(MessageKey(c, s.keys.send), CounterToNonce(|sent|), plain)))
            && (r.Err? ==> s' == s && r.error == UsageLimitExceeded)
  {
    assert (sent + [plain])[..|sent|] == sent;
  }

  ghost predicate Outgoing(c: Suite, keys: RatchetKeys, limits: Limits, l: Log, sent: seq<Bytes>) {
    && l.s.limits == limits && l.s.sent == Direction(|sent|, TotalBytes(sent)) && l.s.nextNonce == l.s.sendSeq == |sent|
    && l.s.keys.send == ChainAt(c, keys.send, |sent|)
    && |l.out| == |sent| && forall i :: 0 <= i < |sent| ==> l.out[i] == Sealed(c, keys.send, i, sent[i])
  }

  /** In an epoch, whatever the peer does: exactly the plaintexts that fit go out, each sealed under its own
      number, nonce and key. */
  lemma {:induction false} SendsExactly(c: Suite, keys: RatchetKeys, limits: Limits, ops: seq<Op>)
    requires limits.maxMessages <= NONCE_MAX
    ensures Outgoing(c, keys, limits, DoAll(c, Log(New(keys, limits), []), ops), SentOf(limits, ops))
  {
    hide CounterToNonce, MessageKey, NextChain, Fits, TotalBytes;
    if ops == [] {
      NoBytes();
    } else {
      var n := |ops| - 1;
      SendsExactly(c, keys, limits, ops[..n]);
      var l, sent := DoAll(c, Log(New(keys, limits), []), ops[..n]), SentOf(limits, ops[..n]);
      if ops[n].Send? {
        EncryptExactly(c, l.s, sent, ops[n].plain);
        hide Encrypt;
      }
    }
  }

  lemma NoBytes()
    ensures TotalBytes([]) == 0
  {}

  /** So after any run of an epoch a plaintext goes out exactly when fewer messages went out than the limit
      and their bytes leave room for it; if not, nothing moves. */
  lemma SendSucceedsIff(c: Suite, keys: RatchetKeys, limits: Limits, ops: seq<Op>, plain: Bytes)
    requires limits.maxMessages <= NONCE_MAX
    ensures var s, sent := DoAll(c, Log(New(keys, limits), []), ops).s, SentOf(limits, ops);
            var (s', r) := Encrypt(c, s, plain);
            && (r.Ok? <==> |sent| < limits.maxMessages && TotalBytes(sent) + |plain| <= limits.maxBytes)
            && (r.Ok? ==> r.value == Sealed(c, keys.send, |sent|, plain))
            && (r.Err? ==> s' == s && r.error == UsageLimitExceeded)
  {
    SendsExactly(c, keys, limits, ops);
    EncryptExactly(c, DoAll(c, Log(New(keys, limits), []), ops).s, SentOf(limits, ops), plain);
    hide Encrypt, DoAll, SentOf;
  }

  /** A frame leaves the session as it was exactly when the window refuses its number, whether or not it
      would have opened; and it uses up a place of the chain exactly when window and budget let it by. */
  lemma MovesIff(c: Suite, s: Session, m: Message)
    ensures Decrypt(c, s, m).0 == s <==> !s.replay.Accepts(m.number)
    ensures Decrypt(c, s, m).0.received.messages == s.received.messages + 1 <==>
              s.replay.Accepts(m.number) && WithinBudget(s.received, s.limits, PlainLen(|m.ciphertext|))
  {
    if s.replay.Accepts(m.number) {
      var s' := Decrypt(c, s, m).0;
      assert m.number in s'.replay.accepted;
      assert s.replay.accepted == {} || m.number !in s.replay.accepted;
    }
  }

  /** A ciphertext shorter than the tag is meant to count in full. What is charged is the meant length
      exactly when it is not that short, or empty. */
  lemma ShortChargedIff(c: Suite, s: Session, m: Message)
    requires Decrypt(c, s, m).0.received.messages == s.received.messages + 1
    ensures var len := |m.ciphertext|;
            var meant := if len < TAG_LEN then len else len - TAG_LEN;
            Decrypt(c, s, m).0.received.bytes == s.received.bytes + meant <==> len == 0 || len >= TAG_LEN
  {
    MovesIff(c, s, m);
  }

  /** The numbers of the frames that arrived, in order. */
  function Numbers(ops: seq<Op>): seq<nat> {
    if ops == [] then []
    else
      var last := ops[|ops| - 1];
      Numbers(ops[..|ops| - 1]) + (if last.Receive? then [last.m.number] else [])
  }

  lemma {:induction false} WindowOfRun(c: Suite, keys: RatchetKeys, limits: Limits, ops: seq<Op>)
    ensures DoAll(c, Log(New(keys, limits), []), ops).s.replay == Replay.After(WINDOW, Numbers(ops))
  {
    if ops != [] {
      var pre := ops[..|ops| - 1];
      WindowOfRun(c, keys, limits, pre);
      var ns := Numbers(ops);
      if ops[|ops| - 1].Receive? { assert ns[..|ns| - 1] == Numbers(pre); } else { assert ns == Numbers(pre); }
    }
  }

  /** Whatever the frames of an epoch contained: a message is refused as a replay exactly when a frame
      with its number passed the window before, or one with a number a whole window above. */
  lemma NumberBurnt(c: Suite, keys: RatchetKeys, limits: Limits, ops: seq<Op>, m: Message)
    ensures var ns := Numbers(ops);
            Decrypt(c, DoAll(c, Log(New(keys, limits), []), ops).s, m).1 == Err(ChannelError.Replay(m.number)) <==>
              exists j :: 0 <= j < |ns| && Replay.Answer(WINDOW, ns, j) && (ns[j] == m.number || m.number + WINDOW <= ns[j])
  {
    WindowOfRun(c, keys, limits, ops);
    Replay.RefusedIff(WINDOW, Numbers(ops), m.number);
  }

  /** The message that the peer sends as number `n` of an epoch. */
  function Sealed(c: Suite, chain: Bytes, n: nat, plain: Bytes): Message {
    Message(n, CounterToNonce(n), c.seal(MessageKey(c, ChainAt(c, chain, n)), CounterToNonce(n), plain))
  }

  lemma {:induction false} ChargedAtMost(c: Suite, l: Log, ops: seq<Op>)
    ensures DoAll(c, l, ops).s.received.messages <= l.s.received.messages + |ops|
  {
    if ops != [] { ChargedAtMost(c, l, ops[..|ops| - 1]); }
  }

  /** After any arrivals whatever: a message of the peer is understood exactly when the window takes its
      number, the budget has room, and its number is how many frames were charged before it. */
  lemma UnderstoodIff(c: Suite, keys: RatchetKeys, limits: Limits, ops: seq<Op>, n: nat, plain: Bytes)
    requires AeadLaw(c) && limits.maxMessages <= NONCE_MAX
    requires var m := Sealed(c, keys.recv, n, plain);
             forall p :: 0 <= p <= |ops| && p != n ==>
               c.open(MessageKey(c, ChainAt(c, keys.recv, p)), m.nonce, m.ciphertext).None?
    ensures var s := DoAll(c, Log(New(keys, limits), []), ops).s;
            Decrypt(c, s, Sealed(c, keys.recv, n, plain)).1.Ok? <==>
              s.replay.Accepts(n) && WithinBudget(s.received, limits, |plain|) && s.received.messages == n
  {
    AlwaysLockstep(c, keys, limits, ops);
    ChargedAtMost(c, Log(New(keys, limits), []), ops);
    hide CounterToNonce, MessageKey, ChainAt, DoAll;
    var key, nonce := MessageKey(c, ChainAt(c, keys.recv, n)), CounterToNonce(n);
    assert c.open(key, nonce, c.seal(key, nonce, plain)) == Some(plain);
    assert |c.seal(key, nonce, plain)| == |plain| + TAG_LEN;
  }

  // ---------------------------------------------------------------- two sides, faithful channel

  /** A message under way, with what it is meant to say. */
  datatype Flight = Flight(m: Message, plain: Bytes)

  function TotalLen(fs: seq<Flight>): nat {
    if fs == [] then 0 else |fs[0].plain| + TotalLen(fs[1..])
  }

  lemma {:induction false} TotalLenAppend(fs: seq<Flight>, f: Flight)
    ensures TotalLen(fs + [f]) == TotalLen(fs) + |f.plain|
  {
    if fs == [] {
      assert [f][1..] == [];
    } else {
      assert (fs + [f])[1..] == fs[1..] + [f];
      TotalLenAppend(fs[1..], f);
    }
  }

  lemma {:induction false} TotalLenAt(fs: seq<Flight>, i: nat)
    requires i < |fs|
    ensures |fs[i].plain| <= TotalLen(fs)
  {
    if i > 0 { TotalLenAt(fs[1..], i - 1); }
  }

  /** The window has seen exactly the first `n` numbers. */
  ghost predicate SeenFirst(r: Replay.SeenSet, n: nat) {
    && r.window == WINDOW
    && (forall x: nat :: x in r.accepted <==> x < n)
    && r.highest == if n == 0 then 0 else n - 1
  }

  ghost predicate InFlight(c: Suite, chain: Bytes, got: nat, fs: seq<Flight>) {
    forall i :: 0 <= i < |fs| ==>
      var nonce := CounterToNonce(got + i);
      fs[i].m == Message(got + i, nonce, c.seal(MessageKey(c, ChainAt(c, chain, i)), nonce, fs[i].plain))
  }

  /** The sender is ahead of the receiver by exactly the messages under way. */
  ghost predicate Linked(c: Suite, s: Session, r: Session, fs: seq<Flight>) {
    var got := r.received.messages;
    && s.limits == r.limits && s.limits.maxMessages <= NONCE_MAX
    && s.sendSeq == s.nextNonce == s.sent.messages == got + |fs|
    && s.sent.messages <= s.limits.maxMessages
    && s.sent.bytes == r.received.bytes + TotalLen(fs) <= s.limits.maxBytes
    && s.keys.send == ChainAt(c, r.keys.recv, |fs|)
    && SeenFirst(r.replay, got)
    && InFlight(c, r.keys.recv, got, fs)
  }

  lemma NothingInFlight(c: Suite, chain: Bytes)
    ensures InFlight(c, chain, 0, [])
  {}

  lemma SendLinks(c: Suite, s: Session, r: Session, fs: seq<Flight>, plain: Bytes)
    requires Linked(c, s, r, fs)
    ensures var (s', out) := Encrypt(c, s, plain);
            Linked(c, s', r, if out.Ok? then fs + [Flight(out.value, plain)] else fs)
  {
    hide CounterToNonce, MessageKey, NextChain;
    var (s', out) := Encrypt(c, s, plain);
    if out.Ok? {
      TotalLenAppend(fs, Flight(out.value, plain));
    }
  }

  /** The oldest message under way is always understood. */
  lemma DeliverLinks(c: Suite, s: Session, r: Session, fs: seq<Flight>)
    requires AeadLaw(c) && Linked(c, s, r, fs) && fs != []
    ensures var (r', got) := Decrypt(c, r, fs[0].m);
            got == Ok(fs[0].plain) && Linked(c, s, r', fs[1..])
  {
    hide CounterToNonce, MessageKey, NextChain;
    var n := r.received.messages;
    var (r', got) := Decrypt(c, r, fs[0].m);
    var nonce, key := CounterToNonce(n), MessageKey(c, r.keys.recv);
    assert fs[0].m == Message(n, nonce, c.seal(key, nonce, fs[0].plain));
    assert c.open(key, nonce, c.seal(key, nonce, fs[0].plain)) == Some(fs[0].plain);
    assert TotalLen(fs) == |fs[0].plain| + TotalLen(fs[1..]);
    NextSeen(r.replay, n);
    ChainAhead(c, r.keys.recv, |fs| - 1);
    forall i | 0 <= i < |fs| - 1
      ensures fs[1..][i].m == Message(n + 1 + i, CounterToNonce(n + 1 + i),
                c.seal(MessageKey(c, ChainAt(c, r'.keys.recv, i)), CounterToNonce(n + 1 + i), fs[1..][i].plain))
    {
      ChainAhead(c, r.keys.recv, i);
      assert fs[1..][i] == fs[i + 1];
    }
  }

  lemma NextSeen(r: Replay.SeenSet, n: nat)
    requires SeenFirst(r, n)
    ensures r.Accepts(n) && SeenFirst(r.Accept(n), n + 1)
  {
    if n > 0 { assert 0 in r.accepted; }
  }

  /** Linking looks only at the sender's sending half and the receiver's receiving half. */
  lemma LinkedFrame(c: Suite, s: Session, r: Session, s': Session, r': Session, fs: seq<Flight>)
    requires Linked(c, s, r, fs)
    requires s'.limits == s.limits && s'.sendSeq == s.sendSeq && s'.nextNonce == s.nextNonce && s'.sent == s.sent
    requires s'.keys.send == s.keys.send
    requires r'.limits == r.limits && r'.received == r.received && r'.replay == r.replay && r'.keys.recv == r.keys.recv
    ensures Linked(c, s', r', fs)
  {}

  /** Encrypting leaves the receiving half alone, and decrypting the sending half. */
  lemma HalvesApart(c: Suite)
    ensures forall s: Session, p: Bytes :: var s' := Encrypt(c, s, p).0;
              s'.limits == s.limits && s'.received == s.received && s'.replay == s.replay && s'.keys.recv == s.keys.recv
    ensures forall s: Session, m: Message :: var s' := Decrypt(c, s, m).0;
              && s'.limits == s.limits && s'.sent == s.sent && s'.nextNonce == s.nextNonce && s'.sendSeq == s.sendSeq
              && s'.keys.send == s.keys.send
  {}

  // ---------------------------------------------------------------- reordering

  /** No message under way opens under the key of another position of the chain, up to a bound. */
  ghost predicate OwnKeyOnly(c: Suite, chain: Bytes, fs: seq<Flight>, bound: nat) {
    forall i, p :: 0 <= i < |fs| && 0 <= p <= bound && p != i ==>
      c.open(MessageKey(c, ChainAt(c, chain, p)), fs[i].m.nonce, fs[i].m.ciphertext).None?
  }

  /** Although the replay window tolerates reordering, decryption does not: of the messages under way,
      only the oldest is understood. */
  lemma OnlyInOrder(c: Suite, s: Session, r: Session, fs: seq<Flight>, i: nat)
    requires AeadLaw(c) && Linked(c, s, r, fs) && OwnKeyOnly(c, r.keys.recv, fs, 0)
    requires i < |fs|
    ensures Decrypt(c, r, fs[i].m).1.Ok? <==> i == 0
    ensures r.replay.Accepts(fs[i].m.number)
  {
    hide CounterToNonce, MessageKey, NextChain;
    var n := r.received.messages;
    if n > 0 { assert n - 1 in r.replay.accepted; }
    if i == 0 {
      DeliverLinks(c, s, r, fs);
    } else {
      assert c.open(MessageKey(c, ChainAt(c, r.keys.recv, 0)), fs[i].m.nonce, fs[i].m.ciphertext).None?;
    }
  }

  // ---------------------------------------------------------------- the session object

  class RatchetedSession {
    var keys: RatchetKeys
    var nextNonce: nat
    var replay: Replay.Window
    const limits: Limits
    var sent: Direction
    var received: Direction
    var sendSeq: nat

    ghost predicate Valid()
      reads this, replay, replay.bitmap
    {
      replay.Valid()
    }

    ghost function Value(): Session
      reads this, replay
    {
      Session(keys, nextNonce, replay.seen, limits, sent, received, sendSeq)
    }

    constructor (keys: RatchetKeys, limits: Limits)
      ensures Valid() && Value() == New(keys, limits)
      ensures fresh(replay) && fresh(replay.bitmap)
    {
      this.keys, this.limits := keys, limits;
      nextNonce, sent, received, sendSeq := 0, UNUSED, UNUSED, 0;
      var window := new Replay.Window(WINDOW);
      replay := window;
    }

    method CheckSend(len: nat) returns (ok: bool)
      modifies this`sent
      ensures ok == WithinBudget(old(sent), limits, len)
      ensures sent == Record(old(sent), limits, len)
    {
      ok := WithinBudget(sent, limits, len);
      if ok {
        sent := Direction(sent.messages + 1, sent.bytes + len);
      }
    }

    method CheckRecv(cipherLen: nat) returns (ok: bool)
      modifies this`received
      ensures ok == WithinBudget(old(received), limits, PlainLen(cipherLen))
      ensures received == Record(old(received), limits, PlainLen(cipherLen))
    {
      var len := PlainLen(cipherLen);
      ok := WithinBudget(received, limits, len);
      if ok {
        received := Direction(received.messages + 1, received.bytes + len);
      }
    }

    method EncryptMessage(c: Suite, plain: Bytes) returns (r: Outcome<Message>)
      requires Valid()
      modifies this
      ensures Valid() && replay == old(replay)
      ensures (Value(), r) == Encrypt(c, old(Value()), plain)
    {
      var ok := CheckSend(|plain|);
      if !ok {
        return Err(UsageLimitExceeded);
      }
      var key := MessageKey(c, keys.send);
      keys := keys.(send := NextChain(c, keys.send));
      if nextNonce == NONCE_MAX {
        return Err(NonceExhausted);
      }
      var nonce := CounterToNonce(nextNonce);
      nextNonce := nextNonce + 1;
      var ciphertext := c.seal(key, nonce, plain);
      var number := sendSeq;
      sendSeq := sendSeq + 1;
      return Ok(Message(number, nonce, ciphertext));
    }

    method DecryptMessage(c: Suite, m: Message) returns (r: Outcome<Bytes>)
      requires Valid() && m.number <= NONCE_MAX
      modifies this, replay, replay.bitmap
      ensures Valid() && replay == old(replay)
      ensures (Value(), r) == Decrypt(c, old(Value()), m)
    {
      var accepted := replay.Accept(m.number);
      if !accepted {
        return Err(ChannelError.Replay(m.number));
      }
      var ok := CheckRecv(|m.ciphertext|);
      if !ok {
        return Err(UsageLimitExceeded);
      }
      var key := MessageKey(c, keys.recv);
      keys := keys.(recv := NextChain(c, keys.recv));
      match c.open(key, m.nonce, m.ciphertext)
      case Some(plain) => return Ok(plain);
      case None => return Err(Decryption);
    }

    method RotateKeys(newKeys: RatchetKeys)
      modifies this
      ensures Valid() && fresh(replay) && fresh(replay.bitmap)
      ensures Value() == Rotate(old(Value()), newKeys)
    {
      keys := newKeys;
      sent, received := UNUSED, UNUSED;
      nextNonce := 0;
      sendSeq := 0;
      var window := new Replay.Window(WINDOW);
      replay := window;
    }
  }
}
