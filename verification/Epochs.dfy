/** Two sessions over many epochs: each side sends, receives and rotates its keys when it likes, and the
    channel keeps the order each way. */
module Epochs {
  import opened Wrappers
  import opened ChannelCrypto
  import opened Session
  import Handshake

  /** The keys of side A in the first epoch, and the exchanged secret each rotation mixes in. */
  datatype Setting = Setting(c: Suite, first: RatchetKeys, secrets: nat -> Bytes, limits: Limits) {
    function Keys(e: nat): RatchetKeys {
      if e == 0 then first else DhRatchet(c, Keys(e - 1).root, secrets(e - 1))
    }

    /** Side B uses the two chains the other way round. */
    function KeysOf(b: bool, e: nat): RatchetKeys {
      if b then Keys(e).Mirrored() else Keys(e)
    }

    ghost predicate Valid() {
      AeadLaw(c) && limits.maxMessages <= NONCE_MAX
    }
  }

  /** A message under way, with the epoch its sender was in. */
  datatype Framed = Framed(f: Flight, epoch: nat)

  datatype Duo = Duo(
    a: Session, b: Session, ea: nat, eb: nat, ab: seq<Framed>, ba: seq<Framed>,
    sentA: seq<Bytes>, sentB: seq<Bytes>, gotA: seq<Outcome<Bytes>>, gotB: seq<Outcome<Bytes>>)

  datatype Act = SendA(plain: Bytes) | SendB(plain: Bytes) | DeliverToA | DeliverToB | RotateA | RotateB

  function Step(st: Setting, d: Duo, act: Act): Duo {
    match act
    case SendA(p) =>
      var (a', m) := Encrypt(st.c, d.a, p);
      if m.Ok? then d.(a := a', ab := d.ab + [Framed(Flight(m.value, p), d.ea)], sentA := d.sentA + [p]) else d.(a := a')
    case SendB(p) =>
      var (b', m) := Encrypt(st.c, d.b, p);
      if m.Ok? then d.(b := b', ba := d.ba + [Framed(Flight(m.value, p), d.eb)], sentB := d.sentB + [p]) else d.(b := b')
    case DeliverToA =>
      if d.ba == [] then d
      else
        var (a', p) := Decrypt(st.c, d.a, d.ba[0].f.m);
        d.(a := a', ba := d.ba[1..], gotA := d.gotA + [p])
    case DeliverToB =>
      if d.ab == [] then d
      else
        var (b', p) := Decrypt(st.c, d.b, d.ab[0].f.m);
        d.(b := b', ab := d.ab[1..], gotB := d.gotB + [p])
    case RotateA => d.(a := Rotate(d.a, DhRatchet(st.c, d.a.keys.root, st.secrets(d.ea))), ea := d.ea + 1)
    case RotateB => d.(b := Rotate(d.b, DhRatchet(st.c, d.b.keys.root, st.secrets(d.eb)).Mirrored()), eb := d.eb + 1)
  }

  function Steps(st: Setting, acts: seq<Act>): Duo {
    if acts == [] then Duo(New(st.first, st.limits), New(st.first.Mirrored(), st.limits), 0, 0, [], [], [], [], [], [])
    else Step(st, Steps(st, acts[..|acts| - 1]), acts[|acts| - 1])
  }

  /** A delivery finds its receiver in the epoch the message was sent in. */
  predicate InEpoch(d: Duo, act: Act) {
    && (act.DeliverToA? && d.ba != [] ==> d.ba[0].epoch == d.ea)
    && (act.DeliverToB? && d.ab != [] ==> d.ab[0].epoch == d.eb)
  }

  ghost predicate AlwaysInEpoch(st: Setting, acts: seq<Act>) {
    forall n :: 0 <= n < |acts| ==> InEpoch(Steps(st, acts[..n]), acts[n])
  }

  // ---------------------------------------------------------------- one way

  /** Sender, receiver, their epochs, and what is under way; `toB` says which way it goes. */
  datatype Way = Way(toB: bool, s: Session, es: nat, r: Session, er: nat, fs: seq<Framed>)

  function Tagged(fs: seq<Flight>, e: nat): (r: seq<Framed>)
    ensures |r| == |fs|
  {
    seq(|fs|, i requires 0 <= i < |fs| => Framed(fs[i], e))
  }

  /** The messages of consecutive epochs, one after the other. */
  function Line(blocks: seq<seq<Flight>>, e: nat): seq<Framed>
    decreases |blocks|
  {
    if blocks == [] then [] else Tagged(blocks[0], e) + Line(blocks[1..], e + 1)
  }

  function FreshAt(st: Setting, toB: bool, e: nat): Session {
    New(st.KeysOf(toB, e), st.limits)
  }

  /** Who sent block `y`, and who will receive it: the sender as it left that epoch, and the receiver as
      it will enter it. */
  ghost predicate BlockLinked(st: Setting, w: Way, past: seq<Session>, blocks: seq<seq<Flight>>, y: nat)
    requires y < |blocks| == |past| + 1
  {
    Linked(st.c, if y == |past| then w.s else past[y], if y == 0 then w.r else FreshAt(st, w.toB, w.er + y), blocks[y])
  }

  /** The sender is in the receiver's epoch or in a later one, and what is under way is the rest of the
      receiver's epoch and all of the later ones. */
  ghost predicate OnLine(st: Setting, w: Way, past: seq<Session>, blocks: seq<seq<Flight>>) {
    && |blocks| == |past| + 1 && w.es == w.er + |past|
    && w.fs == Line(blocks, w.er)
    && forall y :: 0 <= y < |blocks| ==> BlockLinked(st, w, past, blocks, y)
  }

  /** The receiver has gone ahead with nothing under way, and waits at the start of its epoch. */
  ghost predicate Ahead(st: Setting, w: Way) {
    && w.es < w.er && w.fs == []
    && w.r.received == UNUSED && w.r.replay == FreshAt(st, w.toB, w.er).replay
    && w.r.keys.recv == st.KeysOf(w.toB, w.er).recv
  }

  /** The receiver has left the epoch of the next message. */
  predicate Stuck(w: Way) {
    w.fs != [] && w.fs[0].epoch < w.er
  }

  ghost predicate InStep(st: Setting, w: Way) {
    && w.s.limits == st.limits && w.r.limits == st.limits
    && (Stuck(w) || Ahead(st, w) || exists past, blocks :: OnLine(st, w, past, blocks))
  }

  lemma LineTags(blocks: seq<seq<Flight>>, e: nat)
    ensures Line(blocks, e) != [] ==> Line(blocks, e)[0].epoch >= e
    ensures blocks != [] && blocks[0] != [] ==>
              && Line(blocks, e) != [] && Line(blocks, e)[0] == Framed(blocks[0][0], e)
              && Line(blocks, e)[1..] == Line([blocks[0][1..]] + blocks[1..], e)
    ensures blocks != [] && blocks[0] == [] ==> Line(blocks, e) == Line(blocks[1..], e + 1)
  {
    LineStartsAt(blocks, e);
    if blocks != [] {
      LineUnfolds(blocks, e);
      hide Line;
      if blocks[0] != [] {
        var rest := [blocks[0][1..]] + blocks[1..];
        assert rest[1..] == blocks[1..];
        LineUnfolds(rest, e);
        assert Tagged(blocks[0], e)[1..] == Tagged(blocks[0][1..], e);
      } else {
        assert Tagged(blocks[0], e) == [];
      }
    }
  }

  lemma {:induction false} LineStartsAt(blocks: seq<seq<Flight>>, e: nat)
    ensures Line(blocks, e) != [] ==> Line(blocks, e)[0].epoch >= e
    decreases |blocks|
  {
    LineUnfolds(blocks, e);
    hide Line;
    if blocks != [] {
      LineStartsAt(blocks[1..], e + 1);
      if blocks[0] == [] { assert Tagged(blocks[0], e) == []; }
    }
  }

  /** A message more in the last block is a message more at the end. */
  lemma {:induction false} LineGrows(blocks: seq<seq<Flight>>, e: nat, f: Flight)
    requires blocks != []
    ensures var n := |blocks| - 1;
            Line(blocks[n := blocks[n] + [f]], e) == Line(blocks, e) + [Framed(f, e + n)]
    decreases |blocks|
  {
    var n := |blocks| - 1;
    var grown := blocks[n := blocks[n] + [f]];
    LineUnfolds(blocks, e);
    LineUnfolds(grown, e);
    TaggedGrows(blocks[n], e, f);
    hide Line, Tagged;
    if n == 0 {
      assert grown[1..] == [] && blocks[1..] == [];
      LineUnfolds([], e + 1);
      assert Tagged(blocks[0], e) + [Framed(f, e)] + [] == Tagged(blocks[0], e) + [] + [Framed(f, e)];
    } else {
      LineGrows(blocks[1..], e + 1, f);
      assert grown[1..] == blocks[1..][n - 1 := blocks[1..][n - 1] + [f]];
      assert Tagged(blocks[0], e) + (Line(blocks[1..], e + 1) + [Framed(f, e + n)])
          == Tagged(blocks[0], e) + Line(blocks[1..], e + 1) + [Framed(f, e + n)];
    }
  }

  lemma LineUnfolds(blocks: seq<seq<Flight>>, e: nat)
    ensures Line(blocks, e) == if blocks == [] then [] else Tagged(blocks[0], e) + Line(blocks[1..], e + 1)
  {}

  lemma TaggedGrows(fs: seq<Flight>, e: nat, f: Flight)
    ensures Tagged(fs + [f], e) == Tagged(fs, e) + [Framed(f, e)]
  {}

  /** An empty block at the end adds nothing. */
  lemma {:induction false} LineOpens(blocks: seq<seq<Flight>>, e: nat)
    ensures Line(blocks + [[]], e) == Line(blocks, e)
    decreases |blocks|
  {
    if blocks == [] {
      assert Line([[]][1..], e + 1) == [];
    } else {
      LineOpens(blocks[1..], e + 1);
      assert (blocks + [[]])[1..] == blocks[1..] + [[]];
    }
  }

  lemma FreshLinked(st: Setting, s: Session, r: Session, toB: bool, e: nat)
    requires st.Valid() && s.limits == r.limits == st.limits
    requires s.sent == UNUSED && s.nextNonce == s.sendSeq == 0 && s.keys.send == st.KeysOf(toB, e).recv
    requires r.received == UNUSED && r.replay == FreshAt(st, toB, e).replay && r.keys.recv == st.KeysOf(toB, e).recv
    ensures Linked(st.c, s, r, [])
  {
    hide InFlight;
    NothingInFlight(st.c, r.keys.recv);
  }

  /** What the other way does to the two sessions is not seen this way. */
  lemma WayFrame(st: Setting, w: Way, s': Session, r': Session)
    requires InStep(st, w)
    requires s'.limits == w.s.limits && s'.sendSeq == w.s.sendSeq && s'.nextNonce == w.s.nextNonce && s'.sent == w.s.sent
    requires s'.keys.send == w.s.keys.send
    requires r'.limits == w.r.limits && r'.received == w.r.received && r'.replay == w.r.replay
    requires r'.keys.recv == w.r.keys.recv
    ensures InStep(st, w.(s := s', r := r'))
  {
    hide Linked;
    var w' := w.(s := s', r := r');
    if past, blocks :| OnLine(st, w, past, blocks) {
      forall y | 0 <= y < |blocks| ensures BlockLinked(st, w', past, blocks, y) {
        assert BlockLinked(st, w, past, blocks, y);
        LinkedFrame(st.c, if y == |past| then w.s else past[y], if y == 0 then w.r else FreshAt(st, w.toB, w.er + y),
                    if y == |past| then s' else past[y], if y == 0 then r' else FreshAt(st, w.toB, w.er + y), blocks[y]);
      }
      assert OnLine(st, w', past, blocks);
    }
  }

  lemma WaySend(st: Setting, w: Way, plain: Bytes)
    requires InStep(st, w)
    ensures var (s', m) := Encrypt(st.c, w.s, plain);
            InStep(st, w.(s := s', fs := if m.Ok? then w.fs + [Framed(Flight(m.value, plain), w.es)] else w.fs))
  {
    hide OnLine, Encrypt;
    var (s', m) := Encrypt(st.c, w.s, plain);
    HalvesApart(st.c);
    var w' := w.(s := s', fs := if m.Ok? then w.fs + [Framed(Flight(m.value, plain), w.es)] else w.fs);
    if past, blocks :| OnLine(st, w, past, blocks) {
      var blocks' := OnLineSend(st, w, past, blocks, plain);
      assert OnLine(st, w', past, blocks');
    }
  }

  lemma OnLineSend(st: Setting, w: Way, past: seq<Session>, blocks: seq<seq<Flight>>, plain: Bytes)
    returns (blocks': seq<seq<Flight>>)
    requires OnLine(st, w, past, blocks)
    ensures var (s', m) := Encrypt(st.c, w.s, plain);
            var fs' := if m.Ok? then w.fs + [Framed(Flight(m.value, plain), w.es)] else w.fs;
            OnLine(st, w.(s := s', fs := fs'), past, blocks')
  {
    hide Linked, Encrypt, Line, FreshAt;
    var n := |past|;
    var (s', m) := Encrypt(st.c, w.s, plain);
    assert BlockLinked(st, w, past, blocks, n);
    SendLinks(st.c, w.s, if n == 0 then w.r else FreshAt(st, w.toB, w.er + n), blocks[n], plain);
    blocks' := blocks;
    if m.Ok? {
      LineGrows(blocks, w.er, Flight(m.value, plain));
      blocks' := blocks[n := blocks[n] + [Flight(m.value, plain)]];
    }
    var w' := w.(s := s', fs := if m.Ok? then w.fs + [Framed(Flight(m.value, plain), w.es)] else w.fs);
    forall y | 0 <= y < |blocks'| ensures BlockLinked(st, w', past, blocks', y) {
      assert BlockLinked(st, w, past, blocks, y);
    }
  }

  /** A message delivered in its own epoch is understood. */
  lemma WayDeliver(st: Setting, w: Way)
    requires st.Valid() && InStep(st, w) && w.fs != [] && w.fs[0].epoch == w.er
    ensures var (r', got) := Decrypt(st.c, w.r, w.fs[0].f.m);
            got == Ok(w.fs[0].f.plain) && InStep(st, w.(r := r', fs := w.fs[1..]))
  {
    hide OnLine, Decrypt, AeadLaw;
    HalvesApart(st.c);
    var past, blocks :| OnLine(st, w, past, blocks);
    HeadBlock(st, w, past, blocks);
    OnLineDeliver(st, w, past, blocks);
    assert OnLine(st, w.(r := Decrypt(st.c, w.r, w.fs[0].f.m).0, fs := w.fs[1..]), past, [blocks[0][1..]] + blocks[1..]);
  }

  /** What is next comes first in the block of the receiver's epoch. */
  lemma HeadBlock(st: Setting, w: Way, past: seq<Session>, blocks: seq<seq<Flight>>)
    requires OnLine(st, w, past, blocks) && w.fs != [] && w.fs[0].epoch == w.er
    ensures blocks != [] && blocks[0] != [] && w.fs[0] == Framed(blocks[0][0], w.er)
    ensures w.fs[1..] == Line([blocks[0][1..]] + blocks[1..], w.er)
  {
    LineTags(blocks, w.er);
    LineTags(blocks[1..], w.er + 1);
  }

  lemma OnLineDeliver(st: Setting, w: Way, past: seq<Session>, blocks: seq<seq<Flight>>)
    requires st.Valid() && OnLine(st, w, past, blocks) && blocks[0] != [] && w.fs != []
    requires w.fs[0] == Framed(blocks[0][0], w.er) && w.fs[1..] == Line([blocks[0][1..]] + blocks[1..], w.er)
    ensures var (r', got) := Decrypt(st.c, w.r, w.fs[0].f.m);
            && got == Ok(w.fs[0].f.plain)
            && OnLine(st, w.(r := r', fs := w.fs[1..]), past, [blocks[0][1..]] + blocks[1..])
  {
    hide Linked, Decrypt, AeadLaw, Line, FreshAt;
    var (r', got) := Decrypt(st.c, w.r, w.fs[0].f.m);
    assert BlockLinked(st, w, past, blocks, 0);
    DeliverLinks(st.c, if |past| == 0 then w.s else past[0], w.r, blocks[0]);
    var w', blocks' := w.(r := r', fs := w.fs[1..]), [blocks[0][1..]] + blocks[1..];
    forall y | 0 <= y < |blocks'| ensures BlockLinked(st, w', past, blocks', y) {
      assert BlockLinked(st, w, past, blocks, y);
    }
  }

  lemma WayRotateSender(st: Setting, w: Way, s': Session)
    requires st.Valid() && InStep(st, w) && s' == FreshAt(st, !w.toB, w.es + 1)
    ensures InStep(st, w.(s := s', es := w.es + 1))
  {
    hide OnLine;
    var w' := w.(s := s', es := w.es + 1);
    if past, blocks :| OnLine(st, w, past, blocks) {
      OnLineOpens(st, w, past, blocks, s');
      assert OnLine(st, w', past + [w.s], blocks + [[]]);
    } else if Ahead(st, w) && w.es + 1 == w.er {
      CaughtUp(st, w, s');
      assert OnLine(st, w', [], [[]]);
    }
  }

  lemma OnLineOpens(st: Setting, w: Way, past: seq<Session>, blocks: seq<seq<Flight>>, s': Session)
    requires st.Valid() && OnLine(st, w, past, blocks) && s' == FreshAt(st, !w.toB, w.es + 1)
    ensures OnLine(st, w.(s := s', es := w.es + 1), past + [w.s], blocks + [[]])
  {
    LineOpens(blocks, w.er);
    hide BlockLinked, Line, FreshAt;
    var w', past', blocks' := w.(s := s', es := w.es + 1), past + [w.s], blocks + [[]];
    forall y | 0 <= y < |blocks'| ensures BlockLinked(st, w', past', blocks', y) {
      if y < |blocks| {
        assert BlockLinked(st, w, past, blocks, y);
        SameBlock(st, w, past, blocks, s', y);
      } else {
        EmptyBlock(st, w, past, blocks, s');
      }
    }
  }

  lemma SameBlock(st: Setting, w: Way, past: seq<Session>, blocks: seq<seq<Flight>>, s': Session, y: nat)
    requires y < |blocks| == |past| + 1 && BlockLinked(st, w, past, blocks, y)
    ensures BlockLinked(st, w.(s := s', es := w.es + 1), past + [w.s], blocks + [[]], y)
  {
    hide Linked, FreshAt;
  }

  lemma EmptyBlock(st: Setting, w: Way, past: seq<Session>, blocks: seq<seq<Flight>>, s': Session)
    requires st.Valid() && |blocks| == |past| + 1 && w.es == w.er + |past| && s' == FreshAt(st, !w.toB, w.es + 1)
    ensures BlockLinked(st, w.(s := s', es := w.es + 1), past + [w.s], blocks + [[]], |blocks|)
  {
    hide Linked;
    FreshLinked(st, s', FreshAt(st, w.toB, w.es + 1), w.toB, w.es + 1);
  }

  lemma CaughtUp(st: Setting, w: Way, s': Session)
    requires st.Valid() && Ahead(st, w) && w.es + 1 == w.er && w.r.limits == st.limits && s' == FreshAt(st, !w.toB, w.er)
    ensures OnLine(st, w.(s := s', es := w.es + 1), [], [[]])
  {
    FreshLinked(st, s', w.r, w.toB, w.er);
    hide Linked, FreshAt;
    assert Line([[]], w.er) == [];
    assert BlockLinked(st, w.(s := s', es := w.es + 1), [], [[]], 0);
  }

  lemma WayRotateReceiver(st: Setting, w: Way, r': Session)
    requires st.Valid() && InStep(st, w) && r' == FreshAt(st, w.toB, w.er + 1)
    ensures InStep(st, w.(r := r', er := w.er + 1))
  {
    hide OnLine;
    var w' := w.(r := r', er := w.er + 1);
    if past, blocks :| OnLine(st, w, past, blocks) {
      OnLineRotate(st, w, past, blocks, r');
      if |past| > 0 && blocks[0] == [] { assert OnLine(st, w', past[1..], blocks[1..]); }
    }
  }

  /** Messages left behind are stuck; otherwise the receiver moves to the next block, or waits for one. */
  lemma OnLineRotate(st: Setting, w: Way, past: seq<Session>, blocks: seq<seq<Flight>>, r': Session)
    requires OnLine(st, w, past, blocks) && r' == FreshAt(st, w.toB, w.er + 1)
    ensures |blocks| == |past| + 1
    ensures blocks[0] != [] ==> Stuck(w.(r := r', er := w.er + 1))
    ensures blocks[0] == [] && |past| > 0 ==> OnLine(st, w.(r := r', er := w.er + 1), past[1..], blocks[1..])
    ensures blocks[0] == [] && |past| == 0 ==> Ahead(st, w.(r := r', er := w.er + 1))
  {
    LineTags(blocks, w.er);
    if blocks[0] == [] && |past| == 0 {
      assert blocks[1..] == [] && Line([], w.er + 1) == [];
    }
    hide Linked, Line, BlockLinked, FreshAt, New;
    if blocks[0] == [] && |past| > 0 {
      var w', past', blocks' := w.(r := r', er := w.er + 1), past[1..], blocks[1..];
      forall y | 0 <= y < |blocks'| ensures BlockLinked(st, w', past', blocks', y) {
        NextBlock(st, w, past, blocks, r', y);
      }
    }
  }

  lemma NextBlock(st: Setting, w: Way, past: seq<Session>, blocks: seq<seq<Flight>>, r': Session, y: nat)
    requires y < |past| && |blocks| == |past| + 1 && BlockLinked(st, w, past, blocks, y + 1)
    requires r' == FreshAt(st, w.toB, w.er + 1)
    ensures BlockLinked(st, w.(r := r', er := w.er + 1), past[1..], blocks[1..], y)
  {
    hide Linked, FreshAt;
  }

  // ---------------------------------------------------------------- both ways

  /** What was got, followed by what is under way, is what was sent. */
  ghost predicate Faithful(got: seq<Outcome<Bytes>>, fs: seq<Framed>, sent: seq<Bytes>) {
    && |sent| == |got| + |fs|
    && (forall i :: 0 <= i < |got| ==> got[i] == Ok(sent[i]))
    && (forall i :: 0 <= i < |fs| ==> fs[i].f.plain == sent[|got| + i])
  }

  function ToB(d: Duo): Way {
    Way(true, d.a, d.ea, d.b, d.eb, d.ab)
  }

  function ToA(d: Duo): Way {
    Way(false, d.b, d.eb, d.a, d.ea, d.ba)
  }

  /** Both sides hold the root of their epoch, both ways are in step, and nothing was lost or changed. */
  ghost predicate Together(st: Setting, d: Duo) {
    && d.a.keys.root == st.Keys(d.ea).root && d.b.keys.root == st.Keys(d.eb).root
    && InStep(st, ToB(d)) && InStep(st, ToA(d))
    && Faithful(d.gotB, d.ab, d.sentA) && Faithful(d.gotA, d.ba, d.sentB)
  }

  lemma RootsStay(c: Suite)
    ensures forall s: Session, p: Bytes :: Encrypt(c, s, p).0.keys.root == s.keys.root
    ensures forall s: Session, m: Message :: Decrypt(c, s, m).0.keys.root == s.keys.root
  {}

  lemma FaithfulSend(got: seq<Outcome<Bytes>>, fs: seq<Framed>, sent: seq<Bytes>, f: Framed)
    requires Faithful(got, fs, sent)
    ensures Faithful(got, fs + [f], sent + [f.f.plain])
  {}

  lemma FaithfulDeliver(got: seq<Outcome<Bytes>>, fs: seq<Framed>, sent: seq<Bytes>)
    requires Faithful(got, fs, sent) && fs != []
    ensures Faithful(got + [Ok(fs[0].f.plain)], fs[1..], sent)
  {}

  lemma StepTogether(st: Setting, d: Duo, act: Act)
    requires st.Valid() && Together(st, d) && InEpoch(d, act)
    ensures Together(st, Step(st, d, act))
  {
    hide InStep, Encrypt, Decrypt, Faithful;
    var d' := Step(st, d, act);
    HalvesApart(st.c);
    RootsStay(st.c);
    match act
    case SendA(p) =>
      WaySend(st, ToB(d), p);
      WayFrame(st, ToA(d), d'.b, d'.a);
      if |d'.ab| > |d.ab| { FaithfulSend(d.gotB, d.ab, d.sentA, d'.ab[|d.ab|]); }
    case SendB(p) =>
      WaySend(st, ToA(d), p);
      WayFrame(st, ToB(d), d'.a, d'.b);
      if |d'.ba| > |d.ba| { FaithfulSend(d.gotA, d.ba, d.sentB, d'.ba[|d.ba|]); }
    case DeliverToA => DeliverTogether(st, d, act);
    case DeliverToB => DeliverTogether(st, d, act);
    case RotateA => RotateTogether(st, d, act);
    case RotateB => RotateTogether(st, d, act);
  }

  lemma DeliverTogether(st: Setting, d: Duo, act: Act)
    requires st.Valid() && Together(st, d) && InEpoch(d, act) && (act.DeliverToA? || act.DeliverToB?)
    ensures Together(st, Step(st, d, act))
  {
    hide InStep, Encrypt, Decrypt, Faithful;
    var d' := Step(st, d, act);
    HalvesApart(st.c);
    RootsStay(st.c);
    if act.DeliverToA? && d.ba != [] {
      WayDeliver(st, ToA(d));
      WayFrame(st, ToB(d), d'.a, d'.b);
      FaithfulDeliver(d.gotA, d.ba, d.sentB);
    } else if act.DeliverToB? && d.ab != [] {
      WayDeliver(st, ToB(d));
      WayFrame(st, ToA(d), d'.b, d'.a);
      FaithfulDeliver(d.gotB, d.ab, d.sentA);
    }
  }

  lemma RotateTogether(st: Setting, d: Duo, act: Act)
    requires st.Valid() && Together(st, d) && (act.RotateA? || act.RotateB?)
    ensures Together(st, Step(st, d, act))
  {
    hide InStep, Encrypt, Decrypt, Faithful;
    var d' := Step(st, d, act);
    Limited(st, d);
    if act.RotateA? {
      WayRotateSender(st, ToB(d), d'.a);
      WayRotateReceiver(st, ToA(d), d'.a);
    } else {
      WayRotateSender(st, ToA(d), d'.b);
      WayRotateReceiver(st, ToB(d), d'.b);
    }
  }

  lemma Limited(st: Setting, d: Duo)
    requires Together(st, d)
    ensures d.a.limits == d.b.limits == st.limits
  {}

  lemma StartTogether(st: Setting)
    requires st.Valid()
    ensures Together(st, Steps(st, []))
  {
    hide Linked;
    var d := Steps(st, []);
    FreshLinked(st, d.a, d.b, true, 0);
    FreshLinked(st, d.b, d.a, false, 0);
    assert Line([[]], 0) == [];
    assert BlockLinked(st, ToB(d), [], [[]], 0) && BlockLinked(st, ToA(d), [], [[]], 0);
    assert OnLine(st, ToB(d), [], [[]]) && OnLine(st, ToA(d), [], [[]]);
  }

  /** Over any number of epochs: while messages are delivered in their own epoch, both sides keep the same
      roots and everything that arrives is what was sent, in order. */
  lemma {:induction false} EpochsTogether(st: Setting, acts: seq<Act>)
    requires st.Valid() && AlwaysInEpoch(st, acts)
    ensures Together(st, Steps(st, acts))
  {
    hide Together, Step, InEpoch;
    if acts == [] {
      StartTogether(st);
    } else {
      PrefixInEpoch(st, acts);
      var pre := acts[..|acts| - 1];
      EpochsTogether(st, pre);
      StepTogether(st, Steps(st, pre), acts[|acts| - 1]);
    }
  }

  lemma PrefixInEpoch(st: Setting, acts: seq<Act>)
    requires acts != []
    ensures var n := |acts| - 1;
            AlwaysInEpoch(st, acts) <==> AlwaysInEpoch(st, acts[..n]) && InEpoch(Steps(st, acts[..n]), acts[n])
  {
    hide Steps, InEpoch;
    var pre := acts[..|acts| - 1];
    assert forall n :: 0 <= n < |pre| ==> pre[..n] == acts[..n] && pre[n] == acts[n];
  }

  /** Everything that arrived so far was understood, and in order. */
  ghost predicate Understood(d: Duo) {
    && |d.gotB| <= |d.sentA| && (forall i :: 0 <= i < |d.gotB| ==> d.gotB[i] == Ok(d.sentA[i]))
    && |d.gotA| <= |d.sentB| && (forall i :: 0 <= i < |d.gotA| ==> d.gotA[i] == Ok(d.sentB[i]))
  }

  /** A message that meets its receiver in another epoch does not open there. */
  ghost predicate Apart(st: Setting, d: Duo, act: Act) {
    && (act.DeliverToA? && d.ba != [] && d.ba[0].epoch != d.ea ==> Shut(st.c, d.a, d.ba[0].f))
    && (act.DeliverToB? && d.ab != [] && d.ab[0].epoch != d.eb ==> Shut(st.c, d.b, d.ab[0].f))
  }

  ghost predicate Shut(c: Suite, r: Session, f: Flight) {
    c.open(MessageKey(c, r.keys.recv), f.m.nonce, f.m.ciphertext).None?
  }

  /** Rotation loses something exactly when some message is delivered in another epoch than its own:
      its receiver has rotated too soon or not yet. */
  lemma {:induction false} LosslessIff(st: Setting, acts: seq<Act>)
    requires st.Valid() && forall n :: 0 <= n < |acts| ==> Apart(st, Steps(st, acts[..n]), acts[n])
    ensures Understood(Steps(st, acts)) <==> AlwaysInEpoch(st, acts)
  {
    hide Apart, Step, Together, InEpoch, Understood, Counted;
    if AlwaysInEpoch(st, acts) {
      EpochsTogether(st, acts);
      TogetherUnderstood(st, Steps(st, acts));
    } else {
      var n := |acts| - 1;
      var pre := acts[..n];
      PrefixInEpoch(st, acts);
      if AlwaysInEpoch(st, pre) {
        EpochsTogether(st, pre);
        OutOfEpochLost(st, Steps(st, pre), acts[n]);
      } else {
        forall k | 0 <= k < |pre| ensures Apart(st, Steps(st, pre[..k]), pre[k]) {
          assert pre[..k] == acts[..k] && Apart(st, Steps(st, acts[..k]), acts[k]);
        }
        LosslessIff(st, pre);
        AllCounted(st, pre);
        StaysLost(st, Steps(st, pre), acts[n]);
      }
    }
  }

  lemma TogetherUnderstood(st: Setting, d: Duo)
    requires Together(st, d)
    ensures Understood(d)
  {}

  lemma OutOfEpochLost(st: Setting, d: Duo, act: Act)
    requires Together(st, d) && Apart(st, d, act) && !InEpoch(d, act)
    ensures !Understood(Step(st, d, act))
  {
    hide InStep, MessageKey;
    var d' := Step(st, d, act);
    if act.DeliverToA? {
      assert d'.gotA[|d.gotA|].Err?;
    } else {
      assert d'.gotB[|d.gotB|].Err?;
    }
  }

  /** No more arrives than was sent. */
  ghost predicate Counted(d: Duo) {
    |d.sentA| == |d.gotB| + |d.ab| && |d.sentB| == |d.gotA| + |d.ba|
  }

  lemma {:induction false} AllCounted(st: Setting, acts: seq<Act>)
    ensures Counted(Steps(st, acts))
  {
    hide Encrypt, Decrypt;
    if acts != [] { AllCounted(st, acts[..|acts| - 1]); }
  }

  lemma StaysLost(st: Setting, d: Duo, act: Act)
    requires Counted(d) && !Understood(d)
    ensures !Understood(Step(st, d, act))
  {
    hide Encrypt, Decrypt;
    var d' := Step(st, d, act);
    if i :| 0 <= i < |d.gotB| && d.gotB[i] != Ok(d.sentA[i]) {
      assert d'.gotB[i] == d.gotB[i] && d'.sentA[i] == d.sentA[i];
    } else {
      var i :| 0 <= i < |d.gotA| && d.gotA[i] != Ok(d.sentB[i]);
      assert d'.gotA[i] == d.gotA[i] && d'.sentB[i] == d.sentB[i];
    }
  }

  // ---------------------------------------------------------------- what is sent

  /** The plaintext a side tries to send in an act, if any. */
  function Tried(act: Act, byB: bool): Option<Bytes> {
    match act
    case SendA(p) => if byB then None else Some(p)
    case SendB(p) => if byB then Some(p) else None
    case _ => None
  }

  predicate Rotates(act: Act, byB: bool) {
    if byB then act.RotateB? else act.RotateA?
  }

  /** What a side has sent since it last rotated: each plaintext that fits after those before it. */
  function SentSince(limits: Limits, acts: seq<Act>, byB: bool): seq<Bytes> {
    if acts == [] then []
    else
      var last, sent := acts[|acts| - 1], SentSince(limits, acts[..|acts| - 1], byB);
      if Rotates(last, byB) then []
      else if Tried(last, byB).Some? && Fits(limits, sent, Tried(last, byB).value) then sent + [Tried(last, byB).value]
      else sent
  }

  /** What a side has sent in all. */
  function SentInAll(limits: Limits, acts: seq<Act>, byB: bool): seq<Bytes> {
    if acts == [] then []
    else
      var pre, last := acts[..|acts| - 1], acts[|acts| - 1];
      var all := SentInAll(limits, pre, byB);
      if Tried(last, byB).Some? && Fits(limits, SentSince(limits, pre, byB), Tried(last, byB).value)
      then all + [Tried(last, byB).value]
      else all
  }

  ghost predicate SendingHalf(s: Session, limits: Limits, sent: seq<Bytes>) {
    s.limits == limits && s.sent == Direction(|sent|, TotalBytes(sent)) && s.nextNonce == s.sendSeq == |sent|
  }

  /** In every run, whatever is delivered when: a side sends exactly the plaintexts that fit its epoch. */
  lemma {:induction false} SentExactly(st: Setting, acts: seq<Act>)
    requires st.limits.maxMessages <= NONCE_MAX
    ensures var d := Steps(st, acts);
            && SendingHalf(d.a, st.limits, SentSince(st.limits, acts, false))
            && SendingHalf(d.b, st.limits, SentSince(st.limits, acts, true))
            && d.sentA == SentInAll(st.limits, acts, false) && d.sentB == SentInAll(st.limits, acts, true)
  {
    hide Fits, TotalBytes, Encrypt, Decrypt, CounterToNonce, MessageKey, NextChain;
    NoBytes();
    if acts != [] {
      var n := |acts| - 1;
      SentExactly(st, acts[..n]);
      var d, last := Steps(st, acts[..n]), acts[n];
      HalvesApart(st.c);
      match last
      case SendA(p) => EncryptExactly(st.c, d.a, SentSince(st.limits, acts[..n], false), p);
      case SendB(p) => EncryptExactly(st.c, d.b, SentSince(st.limits, acts[..n], true), p);
      case DeliverToA =>
      case DeliverToB =>
      case RotateA =>
      case RotateB =>
    }
  }

  // ---------------------------------------------------------------- from a handshake on

  /** Two sessions at the start of an epoch talk to each other exactly when one sends on the chain the
      other receives on; the ratchet step alone gives both sides the same sending chain. */
  lemma FreshLinkedIff(c: Suite, ka: RatchetKeys, kb: RatchetKeys, limits: Limits)
    requires limits.maxMessages <= NONCE_MAX
    ensures Linked(c, New(ka, limits), New(kb, limits), []) <==> ka.send == kb.recv
  {
    hide InFlight;
    NothingInFlight(c, kb.recv);
  }

  /** Rotating both sides with nothing under way links them again, under one root. */
  lemma DrainedRotationLinks(st: Setting, acts: seq<Act>)
    requires st.Valid() && AlwaysInEpoch(st, acts)
    requires var d := Steps(st, acts); d.ea == d.eb && d.ab == [] && d.ba == []
    ensures var d := Step(st, Step(st, Steps(st, acts), RotateA), RotateB);
            && Linked(st.c, d.a, d.b, []) && Linked(st.c, d.b, d.a, [])
            && d.a.keys.root == d.b.keys.root == st.Keys(Steps(st, acts).ea + 1).root
            && d.gotB == Steps(st, acts).gotB && |d.gotB| == |d.sentA| && |d.gotA| == |d.sentB| && Understood(d)
  {
    hide InStep, AlwaysInEpoch, Steps, Linked, New;
    EpochsTogether(st, acts);
    TogetherUnderstood(st, Steps(st, acts));
    Limited(st, Steps(st, acts));
    RotatedLinks(st, Steps(st, acts));
  }

  lemma RotatedLinks(st: Setting, d: Duo)
    requires st.Valid() && d.ea == d.eb && d.a.limits == d.b.limits == st.limits
    requires d.a.keys.root == d.b.keys.root == st.Keys(d.ea).root
    ensures var d' := Step(st, Step(st, d, RotateA), RotateB);
            && Linked(st.c, d'.a, d'.b, []) && Linked(st.c, d'.b, d'.a, [])
            && d'.a.keys.root == d'.b.keys.root == st.Keys(d.ea + 1).root
  {
    hide Linked;
    var d' := Step(st, Step(st, d, RotateA), RotateB);
    FreshLinkedIff(st.c, d'.a.keys, d'.b.keys, st.limits);
    FreshLinkedIff(st.c, d'.b.keys, d'.a.keys, st.limits);
  }

  /** From an undisturbed handshake on: however sends, in-order deliveries and rotations interleave, while
      messages are delivered in their own epoch everything that arrives is what was sent, in order, and
      nothing is refused. */
  lemma HonestSessionsDeliver(st: Setting, sa: Bytes, sb: Bytes, ea: Bytes, eb: Bytes,
                              ha: Handshake.State, hb: Handshake.State, acts: seq<Act>)
    requires st.Valid() && DhLaw(st.c) && AlwaysInEpoch(st, acts)
    requires Handshake.HonestRun(st.c, sa, sb, ea, eb, ha, hb) && Handshake.Finalize(st.c, ha).Ok?
    requires st.first == InitRatchet(st.c, Handshake.Finalize(st.c, ha).value.shared, true)
    ensures Handshake.Finalize(st.c, hb) == Handshake.Finalize(st.c, ha)
    ensures Steps(st, []).b.keys == InitRatchet(st.c, Handshake.Finalize(st.c, hb).value.shared, false)
    ensures var d := Steps(st, acts);
            && Understood(d)
            && d.sentA == SentInAll(st.limits, acts, false) && d.sentB == SentInAll(st.limits, acts, true)
            && |d.sentA| == |d.gotB| + |d.ab| && |d.sentB| == |d.gotA| + |d.ba|
  {
    Handshake.HonestAgreement(st.c, sa, sb, ea, eb);
    EpochsTogether(st, acts);
    TogetherUnderstood(st, Steps(st, acts));
    SentExactly(st, acts);
    AllCounted(st, acts);
  }

  /** Without rotations every delivery is in its epoch. */
  lemma {:induction false} FirstEpochOnly(st: Setting, acts: seq<Act>)
    requires forall act <- acts :: !act.RotateA? && !act.RotateB?
    ensures AlwaysInEpoch(st, acts)
    ensures var d := Steps(st, acts);
            d.ea == d.eb == 0 && (forall x <- d.ab :: x.epoch == 0) && (forall x <- d.ba :: x.epoch == 0)
  {
    hide Encrypt, Decrypt;
    if acts != [] {
      var n := |acts| - 1;
      FirstEpochOnly(st, acts[..n]);
      PrefixInEpoch(st, acts);
      assert acts[n] in acts;
    }
  }
}
