/** The three-message handshake of origin-channel. */
module Handshake {
  import opened Wrappers
  import opened ChannelCrypto

  const MSG1 := 0x01
  const MSG2 := 0x02
  const MSG3 := 0x03

  datatype HandshakeMessage = HandshakeMessage(msgType: nat, ephemeral: Bytes)

  datatype State = State(
    staticSecret: Bytes,
    ephemeralSecret: Option<Bytes>,
    peerStatic: Bytes,
    peerEphemeral: Option<Bytes>,
    transcript: Bytes,
    initiator: bool,
    step: nat)

  function New(staticSecret: Bytes, peerStatic: Bytes, initiator: bool): State {
    State(staticSecret, None, peerStatic, None, [], initiator, 0)
  }

  function Start(c: Suite, s: State, secret: Bytes): (State, Outcome<HandshakeMessage>) {
    if !s.initiator then (s, Err(WrongRole))
    else (s.(transcript := s.transcript + c.public(secret), ephemeralSecret := Some(secret), step := 1),
          Ok(HandshakeMessage(MSG1, c.public(secret))))
  }

  function ProcessMsg1(c: Suite, s: State, m: HandshakeMessage, secret: Bytes): (State, Outcome<HandshakeMessage>) {
    if s.initiator then (s, Err(WrongRole))
    else if m.msgType != MSG1 then (s, Err(WrongMessage))
    else (s.(peerEphemeral := Some(m.ephemeral), transcript := s.transcript + m.ephemeral + c.public(secret),
             ephemeralSecret := Some(secret), step := 2),
          Ok(HandshakeMessage(MSG2, c.public(secret))))
  }

  function ProcessMsg2(s: State, m: HandshakeMessage): (State, Outcome<HandshakeMessage>) {
    if !s.initiator then (s, Err(WrongRole))
    else if m.msgType != MSG2 then (s, Err(WrongMessage))
    else (s.(peerEphemeral := Some(m.ephemeral), transcript := s.transcript + m.ephemeral, step := 3),
          Ok(HandshakeMessage(MSG3, seq(32, _ => 0))))
  }

  function ProcessMsg3(s: State, m: HandshakeMessage): (State, Outcome<()>) {
    if s.initiator then (s, Err(WrongRole))
    else if m.msgType != MSG3 then (s, Err(WrongMessage))
    else (s.(step := 3), Ok(()))
  }

  datatype Secrets = Secrets(shared: Bytes, sessionId: Bytes)

  /** Four exchanges, in an order that both roles agree on. */
  function Finalize(c: Suite, s: State): Outcome<Secrets> {
    if s.step < 3 then Err(Incomplete)
    else if s.ephemeralSecret.None? || s.peerEphemeral.None? then Err(NoKey)
    else
      var eph, peerEph := s.ephemeralSecret.value, s.peerEphemeral.value;
      var ee := c.dh(eph, peerEph);
      var es := if s.initiator then c.dh(eph, s.peerStatic) else c.dh(s.staticSecret, peerEph);
      var se := if s.initiator then c.dh(s.staticSecret, peerEph) else c.dh(eph, s.peerStatic);
      var ss := c.dh(s.staticSecret, s.peerStatic);
      if ee.None? then Err(BadPeerKey("dh_ee"))
      else if es.None? then Err(BadPeerKey("dh_es"))
      else if se.None? then Err(BadPeerKey("dh_se"))
      else if ss.None? then Err(BadPeerKey("dh_ss"))
      else
        var shared := c.hkdf(ee.value + es.value + se.value + ss.value + s.transcript, None,
                             "origin-channel:handshake:ss:v1", 0);
        Ok(Secrets(shared, c.sha3(s.transcript + shared)))
  }

  /** An undisturbed run between the holders of two static keys. */
  ghost predicate HonestRun(c: Suite, sa: Bytes, sb: Bytes, ea: Bytes, eb: Bytes, a: State, b: State) {
    var (a1, m1) := Start(c, New(sa, c.public(sb), true), ea);
    m1.Ok? &&
    var (b1, m2) := ProcessMsg1(c, New(sb, c.public(sa), false), m1.value, eb);
    m2.Ok? &&
    var (a2, m3) := ProcessMsg2(a1, m2.value);
    m3.Ok? &&
    var (b2, done) := ProcessMsg3(b1, m3.value);
    done.Ok? && a == a2 && b == b2
  }

  /** An undisturbed run always completes, and both sides then derive the same secret and session
      id, or both refuse for the same reason. */
  lemma HonestAgreement(c: Suite, sa: Bytes, sb: Bytes, ea: Bytes, eb: Bytes)
    requires DhLaw(c)
    ensures exists a, b :: HonestRun(c, sa, sb, ea, eb, a, b)
    ensures forall a, b :: HonestRun(c, sa, sb, ea, eb, a, b) ==> Finalize(c, a) == Finalize(c, b)
    ensures forall a, b :: HonestRun(c, sa, sb, ea, eb, a, b) ==>
              (Finalize(c, a).Ok? <==>
                 && c.dh(ea, c.public(eb)).Some? && c.dh(ea, c.public(sb)).Some?
                 && c.dh(sa, c.public(eb)).Some? && c.dh(sa, c.public(sb)).Some?)
  {
    var a := State(sa, Some(ea), c.public(sb), Some(c.public(eb)), c.public(ea) + c.public(eb), true, 3);
    var b := State(sb, Some(eb), c.public(sa), Some(c.public(ea)), c.public(ea) + c.public(eb), false, 3);
    assert HonestRun(c, sa, sb, ea, eb, a, b);
    forall x, y | HonestRun(c, sa, sb, ea, eb, x, y) ensures x == a && y == b {}
    assert c.dh(ea, c.public(eb)) == c.dh(eb, c.public(ea));
    assert c.dh(ea, c.public(sb)) == c.dh(sb, c.public(ea));
    assert c.dh(sa, c.public(eb)) == c.dh(eb, c.public(sa));
    assert c.dh(sa, c.public(sb)) == c.dh(sb, c.public(sa));
  }

  // The four exchanges, named by whose key meets whose: ephemeral or static, the initiator's first.

  function Ee(c: Suite, s: State): Option<Bytes>
    requires s.ephemeralSecret.Some? && s.peerEphemeral.Some?
  {
    c.dh(s.ephemeralSecret.value, s.peerEphemeral.value)
  }

  function Es(c: Suite, s: State): Option<Bytes>
    requires s.ephemeralSecret.Some? && s.peerEphemeral.Some?
  {
    if s.initiator then c.dh(s.ephemeralSecret.value, s.peerStatic) else c.dh(s.staticSecret, s.peerEphemeral.value)
  }

  function Se(c: Suite, s: State): Option<Bytes>
    requires s.ephemeralSecret.Some? && s.peerEphemeral.Some?
  {
    if s.initiator then c.dh(s.staticSecret, s.peerEphemeral.value) else c.dh(s.ephemeralSecret.value, s.peerStatic)
  }

  function Ss(c: Suite, s: State): Option<Bytes> {
    c.dh(s.staticSecret, s.peerStatic)
  }

  const DH_LEN := 32

  /** Completed, with all four exchanges made and each of 32 bytes. */
  predicate Exchanged(c: Suite, s: State) {
    && s.step >= 3 && s.ephemeralSecret.Some? && s.peerEphemeral.Some?
    && Ee(c, s).Some? && |Ee(c, s).value| == DH_LEN && Es(c, s).Some? && |Es(c, s).value| == DH_LEN
    && Se(c, s).Some? && |Se(c, s).value| == DH_LEN && Ss(c, s).Some? && |Ss(c, s).value| == DH_LEN
  }

  /** What the shared secret is derived from. */
  function SecretInput(c: Suite, s: State): Bytes
    requires Exchanged(c, s)
  {
    Ee(c, s).value + Es(c, s).value + Se(c, s).value + Ss(c, s).value + s.transcript
  }

  function SecretFrom(c: Suite, input: Bytes): Bytes {
    c.hkdf(input, None, "origin-channel:handshake:ss:v1", 0)
  }

  /** Whatever happened on the wire: two sides that end up with the same secret made the same four exchanges
      and saw the same ephemeral keys, or their own inputs to the derivation collide. */
  lemma SecretBinds(c: Suite, a: State, b: State)
    requires Exchanged(c, a) && Exchanged(c, b)
    ensures Finalize(c, a).Ok? && Finalize(c, b).Ok?
    ensures Finalize(c, a).value.shared == Finalize(c, b).value.shared ==>
              || (&& Ee(c, a) == Ee(c, b) && Es(c, a) == Es(c, b) && Se(c, a) == Se(c, b) && Ss(c, a) == Ss(c, b)
                  && a.transcript == b.transcript)
              || (&& SecretInput(c, a) != SecretInput(c, b)
                  && SecretFrom(c, SecretInput(c, a)) == SecretFrom(c, SecretInput(c, b)))
  {
    SecretIs(c, a);
    SecretIs(c, b);
    var x, y := SecretInput(c, a), SecretInput(c, b);
    if x == y {
      SplitInput(c, a);
      SplitInput(c, b);
    }
  }

  lemma SecretIs(c: Suite, s: State)
    requires Exchanged(c, s)
    ensures Finalize(c, s).Ok? && Finalize(c, s).value.shared == SecretFrom(c, SecretInput(c, s))
    ensures Finalize(c, s).value.sessionId == c.sha3(s.transcript + Finalize(c, s).value.shared)
  {}

  lemma SplitInput(c: Suite, s: State)
    requires Exchanged(c, s)
    ensures var x := SecretInput(c, s);
            && Ee(c, s) == Some(x[..DH_LEN]) && Es(c, s) == Some(x[DH_LEN..2 * DH_LEN])
            && Se(c, s) == Some(x[2 * DH_LEN..3 * DH_LEN]) && Ss(c, s) == Some(x[3 * DH_LEN..4 * DH_LEN])
            && s.transcript == x[4 * DH_LEN..]
  {
    var x := SecretInput(c, s);
    assert x[..DH_LEN] == Ee(c, s).value && x[DH_LEN..2 * DH_LEN] == Es(c, s).value;
    assert x[2 * DH_LEN..3 * DH_LEN] == Se(c, s).value && x[3 * DH_LEN..4 * DH_LEN] == Ss(c, s).value;
  }

  /** What the session id is the hash of. */
  function IdInput(c: Suite, s: State): Bytes
    requires Finalize(c, s).Ok?
  {
    s.transcript + Finalize(c, s).value.shared
  }

  /** Whatever happened on the wire: two sides that end up with the same session id saw the same
      ephemeral keys in the same order and hold the same secret, or their own id inputs collide. */
  lemma SessionIdBinds(c: Suite, a: State, b: State)
    requires Finalize(c, a).Ok? && Finalize(c, b).Ok?
    requires |Finalize(c, a).value.shared| == |Finalize(c, b).value.shared|
    requires Finalize(c, a).value.sessionId == Finalize(c, b).value.sessionId
    ensures || (a.transcript == b.transcript && Finalize(c, a) == Finalize(c, b))
            || (IdInput(c, a) != IdInput(c, b) && c.sha3(IdInput(c, a)) == c.sha3(IdInput(c, b)))
  {
    var x, y := IdInput(c, a), IdInput(c, b);
    if x == y {
      assert a.transcript == x[..|x| - |Finalize(c, a).value.shared|];
      assert b.transcript == y[..|y| - |Finalize(c, b).value.shared|];
      assert Finalize(c, a).value.shared == x[|a.transcript|..];
      assert Finalize(c, b).value.shared == y[|b.transcript|..];
    }
  }

  // ---------------------------------------------------------------- any calls in any order

  datatype Call =
    | CallStart(secret: Bytes)
    | CallMsg1(m: HandshakeMessage, secret: Bytes)
    | CallMsg2(m: HandshakeMessage)
    | CallMsg3(m: HandshakeMessage)

  function Do(c: Suite, s: State, call: Call): State {
    match call
    case CallStart(secret) => Start(c, s, secret).0
    case CallMsg1(m, secret) => ProcessMsg1(c, s, m, secret).0
    case CallMsg2(m) => ProcessMsg2(s, m).0
    case CallMsg3(m) => ProcessMsg3(s, m).0
  }

  function DoAll(c: Suite, s: State, calls: seq<Call>): State {
    if calls == [] then s else Do(c, DoAll(c, s, calls[..|calls| - 1]), calls[|calls| - 1])
  }

  /** The calls a role takes: the initiator starts and receives message 2, the responder messages 1 and 3. */
  predicate Takes(initiator: bool, call: Call) {
    match call
    case CallStart(_) => initiator
    case CallMsg1(m, _) => !initiator && m.msgType == 0x01
    case CallMsg2(m) => initiator && m.msgType == 0x02
    case CallMsg3(m) => !initiator && m.msgType == 0x03
  }

  /** The calls a role has taken. */
  function Taken(initiator: bool, calls: seq<Call>): seq<Call> {
    if calls == [] then []
    else
      var last := calls[|calls| - 1];
      Taken(initiator, calls[..|calls| - 1]) + (if Takes(initiator, last) then [last] else [])
  }

  /** The public ephemeral keys that calls put on the wire or bring from it, in order. */
  function KeysSeen(c: Suite, calls: seq<Call>): Bytes {
    if calls == [] then []
    else
      KeysSeen(c, calls[..|calls| - 1])
      + (match calls[|calls| - 1]
         case CallStart(secret) => c.public(secret)
         case CallMsg1(m, secret) => m.ephemeral + c.public(secret)
         case CallMsg2(m) => m.ephemeral
         case CallMsg3(_) => [])
  }

  /** The last call taken ends the handshake for its role, and one that makes the role's own key came before. */
  ghost predicate Complete(initiator: bool, taken: seq<Call>) {
    && taken != []
    && (if initiator then taken[|taken| - 1].CallMsg2? else taken[|taken| - 1].CallMsg3?)
    && exists k :: 0 <= k < |taken| && OwnKey(initiator, taken[k])
  }

  predicate OwnKey(initiator: bool, call: Call) {
    if initiator then call.CallStart? else call.CallMsg1?
  }

  /** Where a party stands, told by the calls it has taken. */
  ghost predicate Stands(c: Suite, s: State, taken: seq<Call>) {
    && s.transcript == KeysSeen(c, taken)
    && (s.ephemeralSecret.Some? <==> exists k :: 0 <= k < |taken| && OwnKey(s.initiator, taken[k]))
    && (s.step >= 3 <==> taken != [] && (taken[|taken| - 1].CallMsg2? || taken[|taken| - 1].CallMsg3?))
    && (s.ephemeralSecret.Some? && s.step >= 3 ==> s.peerEphemeral.Some?)
    && (s.ephemeralSecret.Some? && !s.initiator ==> s.peerEphemeral.Some?)
    && (forall k :: 0 <= k < |taken| ==> Takes(s.initiator, taken[k]))
  }

  lemma {:induction false} AlwaysStands(c: Suite, own: Bytes, peer: Bytes, initiator: bool, calls: seq<Call>)
    ensures var s := DoAll(c, New(own, peer, initiator), calls);
            s.initiator == initiator && s.staticSecret == own && s.peerStatic == peer && Stands(c, s, Taken(initiator, calls))
  {
    if calls != [] {
      var n := |calls| - 1;
      AlwaysStands(c, own, peer, initiator, calls[..n]);
      var s, taken := DoAll(c, New(own, peer, initiator), calls[..n]), Taken(initiator, calls[..n]);
      if Takes(initiator, calls[n]) { StandsOn(c, s, taken, calls[n]); } else { assert taken + [] == taken; }
    }
  }

  lemma StandsOn(c: Suite, s: State, taken: seq<Call>, call: Call)
    requires Stands(c, s, taken) && Takes(s.initiator, call)
    ensures Stands(c, Do(c, s, call), taken + [call])
  {
    var more := taken + [call];
    assert more[..|taken|] == taken && more[|taken|] == call;
    forall k | 0 <= k < |taken| ensures more[k] == taken[k] {}
    assert s.transcript + (if call.CallMsg1? then call.m.ephemeral + c.public(call.secret) else [])
        == s.transcript + (if call.CallMsg1? then call.m.ephemeral else [])
           + (if call.CallMsg1? then c.public(call.secret) else []);
    assert (exists k :: 0 <= k < |more| && OwnKey(s.initiator, more[k]))
      <==> (exists k :: 0 <= k < |taken| && OwnKey(s.initiator, taken[k])) || OwnKey(s.initiator, call) by {
      if k :| 0 <= k < |taken| && OwnKey(s.initiator, taken[k]) { assert OwnKey(s.initiator, more[k]); }
      if OwnKey(s.initiator, call) { assert OwnKey(s.initiator, more[|taken|]); }
    }
  }

  /** Whatever is called in whatever order, with whatever messages: keys are derived or refused only once the
      role's handshake is complete, calls that are not the role's change nothing, and the transcript is the
      keys seen. */
  lemma CompletesIff(c: Suite, own: Bytes, peer: Bytes, initiator: bool, calls: seq<Call>)
    ensures var s, taken := DoAll(c, New(own, peer, initiator), calls), Taken(initiator, calls);
            && (Finalize(c, s) != Err(Incomplete) && Finalize(c, s) != Err(NoKey) <==> Complete(initiator, taken))
            && s.transcript == KeysSeen(c, taken)
  {
    AlwaysStands(c, own, peer, initiator, calls);
    hide DoAll, Taken, KeysSeen;
  }

  // ---------------------------------------------------------------- the handshake object

  class Party {
    const staticSecret: Bytes
    const peerStatic: Bytes
    const initiator: bool
    var ephemeralSecret: Option<Bytes>
    var peerEphemeral: Option<Bytes>
    var transcript: Bytes
    var step: nat

    ghost function Value(): State
      reads this
    {
      State(staticSecret, ephemeralSecret, peerStatic, peerEphemeral, transcript, initiator, step)
    }

    constructor (staticSecret: Bytes, peerStatic: Bytes, initiator: bool)
      ensures Value() == New(staticSecret, peerStatic, initiator)
    {
      this.staticSecret, this.peerStatic, this.initiator := staticSecret, peerStatic, initiator;
      ephemeralSecret, peerEphemeral, transcript, step := None, None, [], 0;
    }

    method Begin(c: Suite, secret: Bytes) returns (r: Outcome<HandshakeMessage>)
      modifies this
      ensures (Value(), r) == Start(c, old(Value()), secret)
    {
      if !initiator {
        return Err(WrongRole);
      }
      transcript := transcript + c.public(secret);
      ephemeralSecret := Some(secret);
      step := 1;
      return Ok(HandshakeMessage(MSG1, c.public(secret)));
    }

    method OnMsg1(c: Suite, m: HandshakeMessage, secret: Bytes) returns (r: Outcome<HandshakeMessage>)
      modifies this
      ensures (Value(), r) == ProcessMsg1(c, old(Value()), m, secret)
    {
      if initiator {
        return Err(WrongRole);
      }
      if m.msgType != MSG1 {
        return Err(WrongMessage);
      }
      peerEphemeral := Some(m.ephemeral);
      transcript := transcript + m.ephemeral;
      transcript := transcript + c.public(secret);
      ephemeralSecret := Some(secret);
      step := 2;
      return Ok(HandshakeMessage(MSG2, c.public(secret)));
    }

    method OnMsg2(m: HandshakeMessage) returns (r: Outcome<HandshakeMessage>)
      modifies this
      ensures (Value(), r) == ProcessMsg2(old(Value()), m)
    {
      if !initiator {
        return Err(WrongRole);
      }
      if m.msgType != MSG2 {
        return Err(WrongMessage);
      }
      peerEphemeral := Some(m.ephemeral);
      transcript := transcript + m.ephemeral;
      step := 3;
      r := Ok(HandshakeMessage(MSG3, seq(32, _ => 0)));
    }

    method OnMsg3(m: HandshakeMessage) returns (r: Outcome<()>)
      modifies this
      ensures (Value(), r) == ProcessMsg3(old(Value()), m)
    {
      if initiator {
        return Err(WrongRole);
      }
      if m.msgType != MSG3 {
        return Err(WrongMessage);
      }
      step := 3;
      return Ok(());
    }

    method Finish(c: Suite) returns (r: Outcome<Secrets>)
      ensures r == Finalize(c, Value())
    {
      r := Finalize(c, State(staticSecret, ephemeralSecret, peerStatic, peerEphemeral, transcript, initiator, step));
    }
  }

  /** Two parties driven through the three messages end with one secret and one session id, the hash of
      both ephemeral keys and the secret; they fail, alike, exactly when an exchange is refused. */
  method Exchange(c: Suite, sa: Bytes, sb: Bytes, ea: Bytes, eb: Bytes) returns (ra: Outcome<Secrets>, rb: Outcome<Secrets>)
    requires DhLaw(c)
    ensures ra == rb
    ensures ra.Ok? <==>
              && c.dh(ea, c.public(eb)).Some? && c.dh(ea, c.public(sb)).Some?
              && c.dh(sa, c.public(eb)).Some? && c.dh(sa, c.public(sb)).Some?
    ensures ra.Ok? ==>
              && ra.value.shared == SecretFrom(c, c.dh(ea, c.public(eb)).value + c.dh(ea, c.public(sb)).value
                                                  + c.dh(sa, c.public(eb)).value + c.dh(sa, c.public(sb)).value
                                                  + (c.public(ea) + c.public(eb)))
              && ra.value.sessionId == c.sha3(c.public(ea) + c.public(eb) + ra.value.shared)
  {
    var a := new Party(sa, c.public(sb), true);
    var b := new Party(sb, c.public(sa), false);
    var m1 := a.Begin(c, ea);
    var m2 := b.OnMsg1(c, m1.value, eb);
    var m3 := a.OnMsg2(m2.value);
    var done := b.OnMsg3(m3.value);
    ra := a.Finish(c);
    rb := b.Finish(c);
    assert HonestRun(c, sa, sb, ea, eb, a.Value(), b.Value());
    hide Finalize, HonestRun, SecretFrom;
    HonestSecret(c, sa, sb, ea, eb, a.Value(), b.Value());
  }

  lemma HonestSecret(c: Suite, sa: Bytes, sb: Bytes, ea: Bytes, eb: Bytes, a: State, b: State)
    requires DhLaw(c) && HonestRun(c, sa, sb, ea, eb, a, b)
    ensures var ra, rb := Finalize(c, a), Finalize(c, b);
            && ra == rb
            && (ra.Ok? <==>
                  && c.dh(ea, c.public(eb)).Some? && c.dh(ea, c.public(sb)).Some?
                  && c.dh(sa, c.public(eb)).Some? && c.dh(sa, c.public(sb)).Some?)
            && (ra.Ok? ==>
                  && ra.value.shared == SecretFrom(c, c.dh(ea, c.public(eb)).value + c.dh(ea, c.public(sb)).value
                                                      + c.dh(sa, c.public(eb)).value + c.dh(sa, c.public(sb)).value
                                                      + (c.public(ea) + c.public(eb)))
                  && ra.value.sessionId == c.sha3(c.public(ea) + c.public(eb) + ra.value.shared))
  {
    HonestAgreement(c, sa, sb, ea, eb);
    assert [] + c.public(ea) == c.public(ea);
    assert a.transcript == c.public(ea) + c.public(eb);
  }
}
