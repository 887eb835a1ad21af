/** The relay client's frame demultiplexer (origin-network): one connection carries presence events
    and responses, and whoever reads a frame meant for the other side sets it aside. */
module RelayDemux {
  import opened Wrappers

  const PRESENCE_EVENT := 0x4C
  const RELAY_DATA := 0x4D
  const ERROR := 0xF0

  type Event = string

  datatype Frame = Frame(tag: nat, body: string)

  /** What a request/response reader gets: a frame with its tag (decoding the body is its own
      business), an error, or the end of the connection. */
  datatype Reply = Got(body: string) | WireError | Unexpected(tag: nat) | BadEvent | Closed

  /** The connection: frames still to arrive, events and frames set aside. The rest is history:
      frames read off the wire, events handed out, frames matched to a reader, frames thrown away
      by a reader that failed. */
  datatype Link = Link(
    wire: seq<Frame>,
    events: seq<Event>,
    pending: seq<Frame>,
    read: seq<Frame>,
    delivered: seq<Event>,
    taken: seq<Frame>,
    discarded: seq<Frame>)
  {
    function Received(): Link
      requires wire != []
    {
      this.(wire := wire[1..], read := read + [wire[0]])
    }
  }

  type Decoder = string -> Option<Event>

  // ---------------------------------------------------------------- the operations

  /** The position of the first frame with a tag, or the length. */
  function Position(frames: seq<Frame>, tag: nat): (p: nat)
    ensures p <= |frames|
    ensures p < |frames| ==> frames[p].tag == tag
    ensures forall j :: 0 <= j < p ==> frames[j].tag != tag
  {
    if frames == [] then 0 else if frames[0].tag == tag then 0 else 1 + Position(frames[1..], tag)
  }

  function ReadEvent(dec: Decoder, s: Link): (Link, Option<Event>)
    decreases |s.wire|
  {
    if s.wire == [] then (s, None)
    else
      var f := s.wire[0];
      if f.tag == PRESENCE_EVENT then
        match dec(f.body)
        case Some(e) => (s.Received().(delivered := s.delivered + [e]), Some(e))
        case None => (s.Received(), None)
      else ReadEvent(dec, s.Received().(pending := s.pending + [f]))
  }

  function TryRecv(s: Link): (Link, Option<Event>) {
    if s.events == [] then (s, None)
    else (s.(events := s.events[1..], delivered := s.delivered + [s.events[0]]), Some(s.events[0]))
  }

  function Recv(dec: Decoder, s: Link): (Link, Option<Event>) {
    if s.events != [] then TryRecv(s) else ReadEvent(dec, s)
  }

  function TakePending(s: Link, pos: nat): Link
    requires pos < |s.pending|
  {
    s.(pending := s.pending[..pos] + s.pending[pos + 1..], taken := s.taken + [s.pending[pos]])
  }

  function AwaitResponse(dec: Decoder, s: Link, tag: nat): (Link, Reply)
    decreases |s.wire|
  {
    if s.wire == [] then (s, Closed)
    else
      var f := s.wire[0];
      if f.tag == PRESENCE_EVENT then
        match dec(f.body)
        case Some(e) => AwaitResponse(dec, s.Received().(events := s.events + [e]), tag)
        case None => (s.Received(), BadEvent)
      else if f.tag == ERROR then (s.Received().(discarded := s.discarded + [f]), WireError)
      else if f.tag == tag then (s.Received().(taken := s.taken + [f]), Got(f.body))
      else (s.Received().(discarded := s.discarded + [f]), Unexpected(f.tag))
  }

  function ReadResponse(dec: Decoder, s: Link, tag: nat): (Link, Reply) {
    var pos := Position(s.pending, tag);
    if pos < |s.pending| then (TakePending(s, pos), Got(s.pending[pos].body)) else AwaitResponse(dec, s, tag)
  }

  function AwaitRelay(dec: Decoder, s: Link): (Link, Reply)
    decreases |s.wire|
  {
    if s.wire == [] then (s, Closed)
    else
      var f := s.wire[0];
      if f.tag == PRESENCE_EVENT then
        match dec(f.body)
        case Some(e) => AwaitRelay(dec, s.Received().(events := s.events + [e]))
        case None => AwaitRelay(dec, s.Received())
      else if f.tag == RELAY_DATA then (s.Received().(taken := s.taken + [f]), Got(f.body))
      else if f.tag == ERROR then (s.Received().(discarded := s.discarded + [f]), WireError)
      else AwaitRelay(dec, s.Received().(pending := s.pending + [f]))
  }

  function RelayRecv(dec: Decoder, s: Link): (Link, Reply) {
    var pos := Position(s.pending, RELAY_DATA);
    if pos < |s.pending| then (TakePending(s, pos), Got(s.pending[pos].body)) else AwaitRelay(dec, s)
  }

  datatype Op = OpResponse(tag: nat) | OpRecv | OpTryRecv | OpRelayRecv

  /** Requests never wait for a presence event or an error frame. */
  predicate Legal(op: Op) {
    op.OpResponse? ==> op.tag != PRESENCE_EVENT && op.tag != ERROR
  }

  function Do(dec: Decoder, s: Link, op: Op): Link {
    match op
    case OpResponse(tag) => ReadResponse(dec, s, tag).0
    case OpRecv => Recv(dec, s).0
    case OpTryRecv => TryRecv(s).0
    case OpRelayRecv => RelayRecv(dec, s).0
  }

  function DoAll(dec: Decoder, s: Link, ops: seq<Op>): Link {
    if ops == [] then s else Do(dec, DoAll(dec, s, ops[..|ops| - 1]), ops[|ops| - 1])
  }

  function Opened(wire: seq<Frame>): Link {
    Link(wire, [], [], [], [], [], [])
  }

  // ---------------------------------------------------------------- what is kept

  function ByTag(frames: seq<Frame>, tag: nat): seq<Frame> {
    if frames == [] then []
    else ByTag(frames[..|frames| - 1], tag) + (if frames[|frames| - 1].tag == tag then [frames[|frames| - 1]] else [])
  }

  /** The events the presence frames carry, undecodable ones left out. */
  function EventsOf(dec: Decoder, frames: seq<Frame>): seq<Event> {
    if frames == [] then []
    else
      var f := frames[|frames| - 1];
      EventsOf(dec, frames[..|frames| - 1])
      + (if f.tag == PRESENCE_EVENT && dec(f.body).Some? then [dec(f.body).value] else [])
  }

  function Responses(frames: seq<Frame>): seq<Frame> {
    if frames == [] then []
    else
      Responses(frames[..|frames| - 1])
      + (if frames[|frames| - 1].tag != PRESENCE_EVENT then [frames[|frames| - 1]] else [])
  }

  /** No event is lost, duplicated or reordered. */
  ghost predicate EventsInOrder(dec: Decoder, s: Link) {
    s.delivered + s.events == EventsOf(dec, s.read)
  }

  /** Every other frame is matched, set aside, or thrown away, exactly once. */
  ghost predicate FramesConserved(taken: seq<Frame>, pending: seq<Frame>, discarded: seq<Frame>, read: seq<Frame>) {
    && multiset(taken) + multiset(pending) + multiset(discarded) == multiset(Responses(read))
    && (forall f <- pending :: f.tag != PRESENCE_EVENT)
  }

  ghost predicate InOrder(taken: seq<Frame>, pending: seq<Frame>, read: seq<Frame>, tag: nat) {
    ByTag(taken, tag) + ByTag(pending, tag) == ByTag(read, tag)
  }

  /** A tag none of whose frames was thrown away is served in arrival order. */
  ghost predicate TagsInOrder(s: Link) {
    forall tag :: tag != PRESENCE_EVENT && (forall f <- s.discarded :: f.tag != tag) ==>
      InOrder(s.taken, s.pending, s.read, tag)
  }

  ghost predicate Inv(dec: Decoder, s: Link) {
    EventsInOrder(dec, s) && FramesConserved(s.taken, s.pending, s.discarded, s.read) && TagsInOrder(s)
  }

  lemma Appended(dec: Decoder, frames: seq<Frame>, f: Frame)
    ensures EventsOf(dec, frames + [f])
         == EventsOf(dec, frames) + (if f.tag == PRESENCE_EVENT && dec(f.body).Some? then [dec(f.body).value] else [])
    ensures Responses(frames + [f]) == Responses(frames) + (if f.tag != PRESENCE_EVENT then [f] else [])
  {
    assert (frames + [f])[..|frames|] == frames;
  }

  lemma {:induction false} ByTagAbsent(frames: seq<Frame>, tag: nat)
    requires forall j :: 0 <= j < |frames| ==> frames[j].tag != tag
    ensures ByTag(frames, tag) == []
  {
    if frames != [] { ByTagAbsent(frames[..|frames| - 1], tag); }
  }

  lemma {:induction false} ByTagConcat(a: seq<Frame>, b: seq<Frame>, tag: nat)
    ensures ByTag(a + b, tag) == ByTag(a, tag) + ByTag(b, tag)
    decreases |b|
  {
    if b == [] {
      assert a + b == a;
    } else {
      var n := |b| - 1;
      ByTagConcat(a, b[..n], tag);
      assert (a + b)[..|a + b| - 1] == a + b[..n];
    }
  }

  /** One more frame read, and one more at the end of what is matched or set aside. */
  lemma GrowInOrder(taken: seq<Frame>, pending: seq<Frame>, read: seq<Frame>, f: Frame, tag: nat)
    requires InOrder(taken, pending, read, tag)
    ensures InOrder(taken, pending + [f], read + [f], tag)
    ensures f.tag != tag ==> InOrder(taken, pending, read + [f], tag)
    ensures (forall j :: 0 <= j < |pending| ==> pending[j].tag != f.tag) ==> InOrder(taken + [f], pending, read + [f], tag)
  {
    hide ByTag;
    ByTagConcat(read, [f], tag);
    ByTagConcat(pending, [f], tag);
    ByTagConcat(taken, [f], tag);
    ByTagOne(f, tag);
    if f.tag == tag {
      assert ByTag(taken, tag) + (ByTag(pending, tag) + [f]) == ByTag(read, tag) + [f];
      if forall j :: 0 <= j < |pending| ==> pending[j].tag != f.tag {
        ByTagAbsent(pending, tag);
        assert ByTag(taken, tag) + [f] + [] == ByTag(taken, tag) + [] + [f];
      }
    }
  }

  lemma ByTagOne(f: Frame, tag: nat)
    ensures ByTag([f], tag) == if f.tag == tag then [f] else []
  {
    assert [f][..0] == [];
  }

  lemma ConservedGrows(taken: seq<Frame>, pending: seq<Frame>, discarded: seq<Frame>, read: seq<Frame>, f: Frame)
    requires FramesConserved(taken, pending, discarded, read)
    ensures f.tag == PRESENCE_EVENT ==> FramesConserved(taken, pending, discarded, read + [f])
    ensures f.tag != PRESENCE_EVENT ==>
              && FramesConserved(taken + [f], pending, discarded, read + [f])
              && FramesConserved(taken, pending + [f], discarded, read + [f])
              && FramesConserved(taken, pending, discarded + [f], read + [f])
  {
    ResponsesAppend(read, f);
    hide Responses;
    assert multiset(Responses(read) + [f]) == multiset(Responses(read)) + multiset{f};
    assert multiset(taken + [f]) == multiset(taken) + multiset{f};
    assert multiset(pending + [f]) == multiset(pending) + multiset{f};
    assert multiset(discarded + [f]) == multiset(discarded) + multiset{f};
  }

  lemma ResponsesAppend(read: seq<Frame>, f: Frame)
    ensures Responses(read + [f]) == Responses(read) + (if f.tag != PRESENCE_EVENT then [f] else [])
  {
    assert (read + [f])[..|read|] == read;
  }

  /** A frame for somebody else, set aside. */
  lemma StashKeeps(dec: Decoder, s: Link)
    requires Inv(dec, s) && s.wire != [] && s.wire[0].tag != PRESENCE_EVENT
    ensures Inv(dec, s.Received().(pending := s.pending + [s.wire[0]]))
  {
    var f := s.wire[0];
    var s' := s.Received().(pending := s.pending + [f]);
    hide ByTag, InOrder, FramesConserved;
    Appended(dec, s.read, f);
    ConservedGrows(s.taken, s.pending, s.discarded, s.read, f);
    forall tag | tag != PRESENCE_EVENT && forall x <- s'.discarded :: x.tag != tag
      ensures InOrder(s'.taken, s'.pending, s'.read, tag)
    {
      assert InOrder(s.taken, s.pending, s.read, tag);
      GrowInOrder(s.taken, s.pending, s.read, f, tag);
    }
  }

  /** A frame that is thrown away. */
  lemma DiscardKeeps(dec: Decoder, s: Link)
    requires Inv(dec, s) && s.wire != [] && s.wire[0].tag != PRESENCE_EVENT
    ensures Inv(dec, s.Received().(discarded := s.discarded + [s.wire[0]]))
  {
    var f := s.wire[0];
    var s' := s.Received().(discarded := s.discarded + [f]);
    hide ByTag, InOrder, FramesConserved;
    Appended(dec, s.read, f);
    ConservedGrows(s.taken, s.pending, s.discarded, s.read, f);
    forall tag | tag != PRESENCE_EVENT && forall x <- s'.discarded :: x.tag != tag
      ensures InOrder(s'.taken, s'.pending, s'.read, tag)
    {
      assert f in s'.discarded;
      assert forall x <- s.discarded :: x in s'.discarded;
      assert InOrder(s.taken, s.pending, s.read, tag);
      GrowInOrder(s.taken, s.pending, s.read, f, tag);
    }
  }

  /** A frame that arrives for its reader, when none with its tag is set aside. */
  lemma MatchKeeps(dec: Decoder, s: Link)
    requires Inv(dec, s) && s.wire != [] && s.wire[0].tag != PRESENCE_EVENT
    requires forall j :: 0 <= j < |s.pending| ==> s.pending[j].tag != s.wire[0].tag
    ensures Inv(dec, s.Received().(taken := s.taken + [s.wire[0]]))
  {
    var f := s.wire[0];
    var s' := s.Received().(taken := s.taken + [f]);
    hide ByTag, InOrder, FramesConserved;
    Appended(dec, s.read, f);
    ConservedGrows(s.taken, s.pending, s.discarded, s.read, f);
    forall tag | tag != PRESENCE_EVENT && forall x <- s'.discarded :: x.tag != tag
      ensures InOrder(s'.taken, s'.pending, s'.read, tag)
    {
      assert InOrder(s.taken, s.pending, s.read, tag);
      GrowInOrder(s.taken, s.pending, s.read, f, tag);
    }
  }

  /** An event that goes straight to its reader, when none is buffered. */
  lemma DeliverKeeps(dec: Decoder, s: Link)
    requires Inv(dec, s) && s.wire != [] && s.wire[0].tag == PRESENCE_EVENT && s.events == []
    ensures dec(s.wire[0].body).Some? ==>
              Inv(dec, s.Received().(delivered := s.delivered + [dec(s.wire[0].body).value]))
    ensures dec(s.wire[0].body).None? ==> Inv(dec, s.Received())
  {
    EventRead(dec, s);
  }

  lemma BufferKeeps(dec: Decoder, s: Link)
    requires Inv(dec, s) && s.wire != [] && s.wire[0].tag == PRESENCE_EVENT
    ensures dec(s.wire[0].body).Some? ==>
              Inv(dec, s.Received().(events := s.events + [dec(s.wire[0].body).value]))
    ensures dec(s.wire[0].body).None? ==> Inv(dec, s.Received())
  {
    EventRead(dec, s);
    if dec(s.wire[0].body).Some? {
      var e := dec(s.wire[0].body).value;
      assert s.delivered + (s.events + [e]) == s.delivered + s.events + [e];
    }
  }

  lemma EventRead(dec: Decoder, s: Link)
    requires Inv(dec, s) && s.wire != [] && s.wire[0].tag == PRESENCE_EVENT
    ensures FramesConserved(s.taken, s.pending, s.discarded, s.Received().read) && TagsInOrder(s.Received())
    ensures var d := dec(s.wire[0].body);
            EventsOf(dec, s.Received().read) == s.delivered + s.events + (if d.Some? then [d.value] else [])
  {
    hide ByTag, InOrder, FramesConserved;
    Appended(dec, s.read, s.wire[0]);
    ConservedGrows(s.taken, s.pending, s.discarded, s.read, s.wire[0]);
    forall tag | tag != PRESENCE_EVENT && forall x <- s.discarded :: x.tag != tag
      ensures InOrder(s.taken, s.pending, s.Received().read, tag)
    {
      assert InOrder(s.taken, s.pending, s.read, tag);
      GrowInOrder(s.taken, s.pending, s.read, s.wire[0], tag);
    }
  }

  /** Taking the first set-aside frame with a tag. */
  lemma TakeKeeps(dec: Decoder, s: Link, tag: nat)
    requires Inv(dec, s) && Position(s.pending, tag) < |s.pending|
    ensures Inv(dec, TakePending(s, Position(s.pending, tag)))
  {
    var pos := Position(s.pending, tag);
    var f, a, b := s.pending[pos], s.pending[..pos], s.pending[pos + 1..];
    var s' := TakePending(s, pos);
    assert s.pending == a + [f] + b;
    assert FramesConserved(s'.taken, s'.pending, s'.discarded, s'.read) by {
      assert multiset(s.pending) == multiset(a) + multiset{f} + multiset(b);
      assert forall x <- s'.pending :: x in s.pending;
      assert f in s.pending;
    }
    forall t | t != PRESENCE_EVENT && forall x <- s'.discarded :: x.tag != t
      ensures InOrder(s'.taken, s'.pending, s'.read, t)
    {
      assert InOrder(s.taken, s.pending, s.read, t);
      TakeInOrder(s.taken, a, f, b, s.read, t);
    }
  }

  lemma TakeInOrder(taken: seq<Frame>, a: seq<Frame>, f: Frame, b: seq<Frame>, read: seq<Frame>, t: nat)
    requires forall j :: 0 <= j < |a| ==> a[j].tag != f.tag
    requires InOrder(taken, a + [f] + b, read, t)
    ensures InOrder(taken + [f], a + b, read, t)
  {
    hide ByTag;
    ByTagConcat(a + [f], b, t);
    ByTagConcat(a, [f], t);
    ByTagConcat(a, b, t);
    ByTagConcat(taken, [f], t);
    ByTagOne(f, t);
    if t == f.tag {
      ByTagAbsent(a, t);
      MoveAcross(ByTag(taken, t), f, ByTag(b, t));
    } else {
      assert ByTag(a, t) + [] + ByTag(b, t) == ByTag(a, t) + ByTag(b, t);
    }
  }

  lemma MoveAcross(taken: seq<Frame>, f: Frame, rest: seq<Frame>)
    ensures taken + ([] + [f] + rest) == (taken + [f]) + ([] + rest)
  {}

  lemma {:induction false} ReadEventKeeps(dec: Decoder, s: Link)
    requires Inv(dec, s) && s.events == []
    ensures Inv(dec, ReadEvent(dec, s).0)
    decreases |s.wire|
  {
    hide Inv;
    if s.wire != [] {
      if s.wire[0].tag == PRESENCE_EVENT {
        DeliverKeeps(dec, s);
      } else {
        StashKeeps(dec, s);
        ReadEventKeeps(dec, s.Received().(pending := s.pending + [s.wire[0]]));
      }
    }
  }

  lemma {:induction false} AwaitResponseKeeps(dec: Decoder, s: Link, tag: nat)
    requires Inv(dec, s) && tag != PRESENCE_EVENT
    requires forall j :: 0 <= j < |s.pending| ==> s.pending[j].tag != tag
    ensures Inv(dec, AwaitResponse(dec, s, tag).0)
    decreases |s.wire|
  {
    hide Inv;
    if s.wire != [] {
      var f := s.wire[0];
      if f.tag == PRESENCE_EVENT {
        BufferKeeps(dec, s);
        if dec(f.body).Some? {
          AwaitResponseKeeps(dec, s.Received().(events := s.events + [dec(f.body).value]), tag);
        }
      } else if f.tag == ERROR || f.tag != tag {
        DiscardKeeps(dec, s);
      } else {
        MatchKeeps(dec, s);
      }
    }
  }

  lemma {:induction false} AwaitRelayKeeps(dec: Decoder, s: Link)
    requires Inv(dec, s)
    requires forall j :: 0 <= j < |s.pending| ==> s.pending[j].tag != RELAY_DATA
    ensures Inv(dec, AwaitRelay(dec, s).0)
    decreases |s.wire|
  {
    hide Inv;
    if s.wire != [] {
      var f := s.wire[0];
      if f.tag == PRESENCE_EVENT {
        BufferKeeps(dec, s);
        if dec(f.body).Some? {
          AwaitRelayKeeps(dec, s.Received().(events := s.events + [dec(f.body).value]));
        } else {
          AwaitRelayKeeps(dec, s.Received());
        }
      } else if f.tag == RELAY_DATA {
        MatchKeeps(dec, s);
      } else if f.tag == ERROR {
        DiscardKeeps(dec, s);
      } else {
        StashKeeps(dec, s);
        AwaitRelayKeeps(dec, s.Received().(pending := s.pending + [f]));
      }
    }
  }

  lemma TryRecvKeeps(dec: Decoder, s: Link)
    requires Inv(dec, s)
    ensures Inv(dec, TryRecv(s).0)
  {
    if s.events != [] {
      assert s.delivered + [s.events[0]] + s.events[1..] == s.delivered + s.events;
      var s' := TryRecv(s).0;
      forall tag | tag != PRESENCE_EVENT && forall x <- s'.discarded :: x.tag != tag
        ensures InOrder(s'.taken, s'.pending, s'.read, tag)
      {
        assert InOrder(s.taken, s.pending, s.read, tag);
      }
    }
  }

  lemma OpKeeps(dec: Decoder, s: Link, op: Op)
    requires Inv(dec, s) && Legal(op)
    ensures Inv(dec, Do(dec, s, op))
  {
    hide Inv;
    match op
    case OpResponse(tag) =>
      if Position(s.pending, tag) < |s.pending| { TakeKeeps(dec, s, tag); } else { AwaitResponseKeeps(dec, s, tag); }
    case OpRecv =>
      if s.events != [] { TryRecvKeeps(dec, s); } else { ReadEventKeeps(dec, s); }
    case OpTryRecv => TryRecvKeeps(dec, s);
    case OpRelayRecv =>
      if Position(s.pending, RELAY_DATA) < |s.pending| { TakeKeeps(dec, s, RELAY_DATA); } else { AwaitRelayKeeps(dec, s); }
  }

  /** In every interleaving of reads on a fresh connection. */
  lemma {:induction false} Demultiplexed(dec: Decoder, wire: seq<Frame>, ops: seq<Op>)
    requires forall op <- ops :: Legal(op)
    ensures Inv(dec, DoAll(dec, Opened(wire), ops))
  {
    if ops != [] {
      Demultiplexed(dec, wire, ops[..|ops| - 1]);
      OpKeeps(dec, DoAll(dec, Opened(wire), ops[..|ops| - 1]), ops[|ops| - 1]);
    }
  }

  // ---------------------------------------------------------------- what readers are given

  /** The event an operation gives its caller. */
  function EventGiven(dec: Decoder, s: Link, op: Op): seq<Event> {
    var r := if op.OpRecv? then Recv(dec, s).1 else if op.OpTryRecv? then TryRecv(s).1 else None;
    if r.Some? then [r.value] else []
  }

  function ReplyGiven(dec: Decoder, s: Link, op: Op): Option<Reply> {
    match op
    case OpResponse(tag) => Some(ReadResponse(dec, s, tag).1)
    case OpRelayRecv => Some(RelayRecv(dec, s).1)
    case _ => None
  }

  /** The tag a request or a relay read waits for. */
  function Awaited(op: Op): nat {
    if op.OpResponse? then op.tag else RELAY_DATA
  }

  /** The frame whose body a read gives its caller. */
  function FrameGiven(dec: Decoder, s: Link, op: Op): seq<Frame> {
    var r := ReplyGiven(dec, s, op);
    if r.Some? && r.value.Got? then [Frame(Awaited(op), r.value.body)] else []
  }

  /** All events given in a run, and all frames given, in the order of the calls. */
  function EventsGiven(dec: Decoder, s: Link, ops: seq<Op>): seq<Event> {
    if ops == [] then []
    else
      var n := |ops| - 1;
      EventsGiven(dec, s, ops[..n]) + EventGiven(dec, DoAll(dec, s, ops[..n]), ops[n])
  }

  function FramesGiven(dec: Decoder, s: Link, ops: seq<Op>): seq<Frame> {
    if ops == [] then []
    else
      var n := |ops| - 1;
      FramesGiven(dec, s, ops[..n]) + FrameGiven(dec, DoAll(dec, s, ops[..n]), ops[n])
  }

  /** Some read of the run met a frame with the tag that it did not wait for. */
  ghost predicate MetUnexpected(dec: Decoder, s: Link, ops: seq<Op>, tag: nat) {
    exists n :: 0 <= n < |ops| && ReplyGiven(dec, DoAll(dec, s, ops[..n]), ops[n]) == Some(Unexpected(tag))
  }

  /** What is thrown away beside a reply. */
  ghost predicate Throws(s: Link, s': Link, r: Option<Reply>) {
    || s'.discarded == s.discarded
    || (r == Some(WireError) && exists f: Frame :: f.tag == ERROR && s'.discarded == s.discarded + [f])
    || (r.Some? && r.value.Unexpected? && exists f: Frame :: f.tag == r.value.tag && s'.discarded == s.discarded + [f])
  }

  lemma {:induction false} ReadEventGives(dec: Decoder, s: Link)
    ensures var (s', r) := ReadEvent(dec, s);
            && s'.delivered == s.delivered + (if r.Some? then [r.value] else [])
            && s'.taken == s.taken && s'.discarded == s.discarded
    decreases |s.wire|
  {
    if s.wire != [] && s.wire[0].tag != PRESENCE_EVENT {
      ReadEventGives(dec, s.Received().(pending := s.pending + [s.wire[0]]));
    }
  }

  ghost predicate GivesFrame(s: Link, s': Link, tag: nat, reply: Reply) {
    && s'.delivered == s.delivered
    && s'.taken == s.taken + (if reply.Got? then [Frame(tag, reply.body)] else [])
    && Throws(s, s', Some(reply))
  }

  lemma {:induction false} AwaitResponseGives(dec: Decoder, s: Link, tag: nat)
    ensures var (s', reply) := AwaitResponse(dec, s, tag); GivesFrame(s, s', tag, reply)
    decreases |s.wire|
  {
    if s.wire != [] {
      var f := s.wire[0];
      if f.tag == PRESENCE_EVENT && dec(f.body).Some? {
        AwaitResponseGives(dec, s.Received().(events := s.events + [dec(f.body).value]), tag);
      }
    }
  }

  lemma {:induction false} AwaitRelayGives(dec: Decoder, s: Link)
    ensures var (s', reply) := AwaitRelay(dec, s); GivesFrame(s, s', RELAY_DATA, reply)
    decreases |s.wire|
  {
    if s.wire != [] {
      var f := s.wire[0];
      if f.tag != RELAY_DATA && f.tag != ERROR {
        AwaitRelayGives(dec, if f.tag != PRESENCE_EVENT then s.Received().(pending := s.pending + [f])
                             else if dec(f.body).Some? then s.Received().(events := s.events + [dec(f.body).value])
                             else s.Received());
      }
    }
  }

  lemma OpGives(dec: Decoder, s: Link, op: Op)
    ensures var s' := Do(dec, s, op);
            && s'.delivered == s.delivered + EventGiven(dec, s, op)
            && s'.taken == s.taken + FrameGiven(dec, s, op)
            && Throws(s, s', ReplyGiven(dec, s, op))
  {
    hide ReadEvent, AwaitResponse, AwaitRelay;
    match op
    case OpResponse(tag) => if Position(s.pending, tag) == |s.pending| { AwaitResponseGives(dec, s, tag); }
    case OpRecv => if s.events == [] { ReadEventGives(dec, s); }
    case OpTryRecv =>
    case OpRelayRecv => if Position(s.pending, RELAY_DATA) == |s.pending| { AwaitRelayGives(dec, s); }
  }

  lemma {:induction false} GivenIsHistory(dec: Decoder, wire: seq<Frame>, ops: seq<Op>)
    ensures var s := DoAll(dec, Opened(wire), ops);
            && s.delivered == EventsGiven(dec, Opened(wire), ops) && s.taken == FramesGiven(dec, Opened(wire), ops)
            && forall f <- s.discarded :: f.tag == ERROR || MetUnexpected(dec, Opened(wire), ops, f.tag)
  {
    if ops != [] {
      var n, start := |ops| - 1, Opened(wire);
      var pre := ops[..n];
      GivenIsHistory(dec, wire, pre);
      OpGives(dec, DoAll(dec, start, pre), ops[n]);
      hide Do, EventGiven, FrameGiven;
      forall f <- DoAll(dec, start, ops).discarded ensures f.tag == ERROR || MetUnexpected(dec, start, ops, f.tag) {
        if f in DoAll(dec, start, pre).discarded && f.tag != ERROR {
          var k :| 0 <= k < n && ReplyGiven(dec, DoAll(dec, start, pre[..k]), pre[k]) == Some(Unexpected(f.tag));
          assert pre[..k] == ops[..k] && pre[k] == ops[k];
        } else if f.tag != ERROR {
          assert ReplyGiven(dec, DoAll(dec, start, ops[..n]), ops[n]) == Some(Unexpected(f.tag));
        }
      }
    }
  }

  /** In every interleaving of reads on a fresh connection: the events given to callers, followed by those
      buffered, are the decodable events read, in order; and for a tag that no read met unexpectedly, the
      frames given to callers, followed by those set aside, are the frames of that tag read, in order. */
  lemma ReadersGetInOrder(dec: Decoder, wire: seq<Frame>, ops: seq<Op>, tag: nat)
    requires forall op <- ops :: Legal(op)
    ensures var s := DoAll(dec, Opened(wire), ops);
            && EventsGiven(dec, Opened(wire), ops) + s.events == EventsOf(dec, s.read)
            && (tag != PRESENCE_EVENT && tag != ERROR && !MetUnexpected(dec, Opened(wire), ops, tag) ==>
                  ByTag(FramesGiven(dec, Opened(wire), ops), tag) + ByTag(s.pending, tag) == ByTag(s.read, tag))
  {
    Demultiplexed(dec, wire, ops);
    GivenIsHistory(dec, wire, ops);
    hide DoAll, EventsGiven, FramesGiven, ByTag, EventsOf, MetUnexpected, FramesConserved;
    var s := DoAll(dec, Opened(wire), ops);
    if tag != PRESENCE_EVENT && tag != ERROR && !MetUnexpected(dec, Opened(wire), ops, tag) {
      assert forall f <- s.discarded :: f.tag != tag;
      assert InOrder(s.taken, s.pending, s.read, tag);
    }
  }

  // What one read answers, told by what is set aside and what is on the wire.

  /** How many decodable events come first on the wire. */
  function EventsAhead(dec: Decoder, wire: seq<Frame>): (n: nat)
    ensures n <= |wire|
  {
    if wire != [] && wire[0].tag == PRESENCE_EVENT && dec(wire[0].body).Some? then 1 + EventsAhead(dec, wire[1..]) else 0
  }

  /** A request gets the first frame set aside for it; if there is none, the first frame on the wire after
      decodable events decides. */
  lemma {:induction false} ResponseMeans(dec: Decoder, s: Link, tag: nat)
    requires tag != PRESENCE_EVENT && tag != ERROR
    ensures var n := EventsAhead(dec, s.wire);
            ReadResponse(dec, s, tag).1 ==
              if exists f <- s.pending :: f.tag == tag then Got(s.pending[Position(s.pending, tag)].body)
              else if n == |s.wire| then Closed
              else if s.wire[n].tag == PRESENCE_EVENT then BadEvent
              else if s.wire[n].tag == ERROR then WireError
              else if s.wire[n].tag == tag then Got(s.wire[n].body)
              else Unexpected(s.wire[n].tag)
    decreases |s.wire|
  {
    if Position(s.pending, tag) == |s.pending| && EventsAhead(dec, s.wire) > 0 {
      ResponseMeans(dec, s.Received().(events := s.events + [dec(s.wire[0].body).value]), tag);
    }
  }

  /** How many frames come before the next one for the relay, data or error. */
  function BeforeRelay(wire: seq<Frame>): (n: nat)
    ensures n <= |wire|
  {
    if wire == [] || wire[0].tag == RELAY_DATA || wire[0].tag == ERROR then 0 else 1 + BeforeRelay(wire[1..])
  }

  lemma {:induction false} RelayMeans(dec: Decoder, s: Link)
    ensures var n := BeforeRelay(s.wire);
            RelayRecv(dec, s).1 ==
              if exists f <- s.pending :: f.tag == RELAY_DATA then Got(s.pending[Position(s.pending, RELAY_DATA)].body)
              else if n == |s.wire| then Closed
              else if s.wire[n].tag == ERROR then WireError
              else Got(s.wire[n].body)
  {
    if Position(s.pending, RELAY_DATA) == |s.pending| {
      RelayMeansWire(dec, s);
    }
  }

  lemma {:induction false} RelayMeansWire(dec: Decoder, s: Link)
    ensures var n := BeforeRelay(s.wire);
            AwaitRelay(dec, s).1 ==
              if n == |s.wire| then Closed else if s.wire[n].tag == ERROR then WireError else Got(s.wire[n].body)
    decreases |s.wire|
  {
    if BeforeRelay(s.wire) > 0 {
      var f := s.wire[0];
      RelayMeansWire(dec, if f.tag != PRESENCE_EVENT then s.Received().(pending := s.pending + [f])
                          else if dec(f.body).Some? then s.Received().(events := s.events + [dec(f.body).value])
                          else s.Received());
    }
  }

  // ---------------------------------------------------------------- where error frames end up

  /** The presence stream goes to the wire only when no event is buffered. */
  predicate ReadsPresence(s: Link, op: Op) {
    op.OpRecv? && s.events == []
  }

  /** The read reports an error frame to its caller. */
  predicate Reports(dec: Decoder, s: Link, op: Op) {
    match op
    case OpResponse(tag) => ReadResponse(dec, s, tag).1 == WireError
    case OpRelayRecv => RelayRecv(dec, s).1 == WireError
    case OpRecv => false
    case OpTryRecv => false
  }

  /** The frames an operation took off the wire. */
  function Off(s: Link, s': Link): seq<Frame> {
    if |s'.wire| <= |s.wire| then s.wire[..|s.wire| - |s'.wire|] else []
  }

  /** `off` was read; of the error frames, `aside` was set aside and `reported` thrown away. */
  ghost predicate Moved(s: Link, s': Link, off: seq<Frame>, aside: seq<Frame>, reported: seq<Frame>) {
    && s.wire == off + s'.wire && s'.read == s.read + off
    && ByTag(s'.pending, ERROR) == ByTag(s.pending, ERROR) + aside
    && ByTag(s'.discarded, ERROR) == ByTag(s.discarded, ERROR) + reported
  }

  lemma Unmoved(s: Link)
    ensures Moved(s, s, [], [], [])
  {
    assert s.wire == [] + s.wire && s.read == s.read + [];
  }

  /** One frame first, then the rest. */
  lemma MovedOn(s: Link, s1: Link, s': Link, f: Frame, off: seq<Frame>, aside: seq<Frame>, a: seq<Frame>, reported: seq<Frame>)
    requires s.wire != [] && f == s.wire[0] && s1.wire == s.wire[1..] && s1.read == s.read + [f]
    requires s1.discarded == s.discarded && ByTag(s1.pending, ERROR) == ByTag(s.pending, ERROR) + a
    requires Moved(s1, s', off, aside, reported)
    ensures Moved(s, s', [f] + off, a + aside, reported)
  {
    hide ByTag;
    assert s.wire == [f] + (off + s'.wire) == [f] + off + s'.wire;
    assert s.read + [f] + off == s.read + ([f] + off);
    assert ByTag(s.pending, ERROR) + a + aside == ByTag(s.pending, ERROR) + (a + aside);
  }

  lemma NoneFirst(frames: seq<Frame>)
    ensures [] + frames == frames && [] + [] == frames[..0]
  {}

  lemma ErrorsOf(f: Frame, off: seq<Frame>)
    ensures ByTag([f] + off, ERROR) == (if f.tag == ERROR then [f] else []) + ByTag(off, ERROR)
  {
    ByTagConcat([f], off, ERROR);
    ByTagOne(f, ERROR);
  }

  lemma Appends(frames: seq<Frame>, f: Frame)
    ensures ByTag(frames + [f], ERROR) == ByTag(frames, ERROR) + (if f.tag == ERROR then [f] else [])
  {
    ByTagConcat(frames, [f], ERROR);
    ByTagOne(f, ERROR);
  }

  lemma {:induction false} ReadEventMoves(dec: Decoder, s: Link) returns (off: seq<Frame>)
    ensures Moved(s, ReadEvent(dec, s).0, off, ByTag(off, ERROR), [])
    decreases |s.wire|
  {
    hide ByTag, Moved;
    off := [];
    ByTagAbsent([], ERROR);
    Unmoved(s);
    if s.wire != [] {
      var f, s' := s.wire[0], ReadEvent(dec, s).0;
      if f.tag == PRESENCE_EVENT {
        Unmoved(s');
        ErrorsOf(f, []);
        MovedOn(s, s', s', f, [], [], [], []);
        off := [f] + [];
      } else {
        var s1 := s.Received().(pending := s.pending + [f]);
        var rest := ReadEventMoves(dec, s1);
        Appends(s.pending, f);
        ErrorsOf(f, rest);
        MovedOn(s, s1, s', f, rest, ByTag(rest, ERROR), if f.tag == ERROR then [f] else [], []);
        off := [f] + rest;
      }
    }
  }

  /** The last frame of a reader that returns with it. */
  lemma LastMoved(s: Link, s': Link, f: Frame)
    requires s.wire != [] && f == s.wire[0] && s'.wire == s.wire[1..] && s'.read == s.read + [f] && s'.pending == s.pending
    requires s'.discarded == s.discarded + [f] || (s'.discarded == s.discarded && f.tag != ERROR)
    ensures Moved(s, s', [f], [], if f.tag == ERROR then [f] else [])
    ensures ByTag([f], ERROR) == if f.tag == ERROR then [f] else []
  {
    ByTagOne(f, ERROR);
    Appends(s.discarded, f);
  }

  lemma {:induction false} AwaitResponseMoves(dec: Decoder, s: Link, tag: nat) returns (off: seq<Frame>)
    ensures var (s', reply) := AwaitResponse(dec, s, tag);
            && Moved(s, s', off, [], ByTag(off, ERROR))
            && |ByTag(off, ERROR)| == if reply == WireError then 1 else 0
    decreases |s.wire|
  {
    hide ByTag, Moved;
    off := [];
    ByTagAbsent([], ERROR);
    Unmoved(s);
    if s.wire != [] {
      var f, s' := s.wire[0], AwaitResponse(dec, s, tag).0;
      if f.tag == PRESENCE_EVENT && dec(f.body).Some? {
        var s1 := s.Received().(events := s.events + [dec(f.body).value]);
        var rest := AwaitResponseMoves(dec, s1, tag);
        ErrorsOf(f, rest);
        MovedOn(s, s1, s', f, rest, [], [], ByTag(rest, ERROR));
        NoneFirst(ByTag(rest, ERROR));
        off := [f] + rest;
      } else {
        LastMoved(s, s', f);
        off := [f];
      }
    }
  }

  lemma {:induction false} AwaitRelayMoves(dec: Decoder, s: Link) returns (off: seq<Frame>)
    ensures var (s', reply) := AwaitRelay(dec, s);
            && Moved(s, s', off, [], ByTag(off, ERROR))
            && |ByTag(off, ERROR)| == if reply == WireError then 1 else 0
    decreases |s.wire|
  {
    hide ByTag, Moved;
    off := [];
    ByTagAbsent([], ERROR);
    Unmoved(s);
    if s.wire != [] {
      var f, s' := s.wire[0], AwaitRelay(dec, s).0;
      if f.tag == RELAY_DATA || f.tag == ERROR {
        LastMoved(s, s', f);
        off := [f];
      } else {
        var s1 := if f.tag != PRESENCE_EVENT then s.Received().(pending := s.pending + [f])
                  else if dec(f.body).Some? then s.Received().(events := s.events + [dec(f.body).value])
                  else s.Received();
        var rest := AwaitRelayMoves(dec, s1);
        Appends(s.pending, f);
        ErrorsOf(f, rest);
        MovedOn(s, s1, s', f, rest, [], [], ByTag(rest, ERROR));
        NoneFirst(ByTag(rest, ERROR));
        off := [f] + rest;
      }
    }
  }

  lemma TakeKeepsErrors(s: Link, tag: nat)
    requires tag != ERROR && Position(s.pending, tag) < |s.pending|
    ensures ByTag(TakePending(s, Position(s.pending, tag)).pending, ERROR) == ByTag(s.pending, ERROR)
  {
    var pos := Position(s.pending, tag);
    var a, f, b := s.pending[..pos], s.pending[pos], s.pending[pos + 1..];
    assert s.pending == a + [f] + b;
    ByTagConcat(a + [f], b, ERROR);
    ByTagConcat(a, b, ERROR);
    ByTagConcat(a, [f], ERROR);
    ByTagAbsent([f], ERROR);
  }

  /** Whatever the state: an error frame taken off the wire is set aside exactly when the presence stream
      takes it, and otherwise it is the one the caller is told of. */
  lemma ErrorFate(dec: Decoder, s: Link, op: Op)
    requires Legal(op)
    ensures var s' := Do(dec, s, op);
            var errors := ByTag(Off(s, s'), ERROR);
            && (ReadsPresence(s, op) ==> Moved(s, s', Off(s, s'), errors, []))
            && (!ReadsPresence(s, op) ==> Moved(s, s', Off(s, s'), [], errors))
            && (Reports(dec, s, op) <==> errors != [] && !ReadsPresence(s, op))
            && (!ReadsPresence(s, op) ==> |errors| <= 1)
  {
    hide ByTag, ReadEvent, AwaitResponse, AwaitRelay;
    var off: seq<Frame> := [];
    Unmoved(s);
    ByTagAbsent([], ERROR);
    match op
    case OpResponse(tag) =>
      if Position(s.pending, tag) < |s.pending| { TakeKeepsErrors(s, tag); } else { off := AwaitResponseMoves(dec, s, tag); }
    case OpRecv => if s.events == [] { off := ReadEventMoves(dec, s); }
    case OpTryRecv =>
    case OpRelayRecv =>
      if Position(s.pending, RELAY_DATA) < |s.pending| {
        TakeKeepsErrors(s, RELAY_DATA);
      } else {
        off := AwaitRelayMoves(dec, s);
      }
    assert off == Off(s, Do(dec, s, op)) by {
      assert s.wire == off + Do(dec, s, op).wire;
    }
  }

  /** From any state on, an error frame that was set aside stays there. */
  lemma {:induction false} StashedErrorsStay(dec: Decoder, s: Link, ops: seq<Op>)
    requires forall op <- ops :: Legal(op)
    ensures ByTag(s.pending, ERROR) <= ByTag(DoAll(dec, s, ops).pending, ERROR)
  {
    if ops != [] {
      StashedErrorsStay(dec, s, ops[..|ops| - 1]);
      ErrorFate(dec, DoAll(dec, s, ops[..|ops| - 1]), ops[|ops| - 1]);
    }
  }

  /** How many reads of a run reported an error frame. */
  function ReportCount(dec: Decoder, s: Link, ops: seq<Op>): nat {
    if ops == [] then 0
    else
      var n := |ops| - 1;
      ReportCount(dec, s, ops[..n]) + (if Reports(dec, DoAll(dec, s, ops[..n]), ops[n]) then 1 else 0)
  }

  /** The error frames the presence stream took off the wire, in order. */
  function Swallowed(dec: Decoder, s: Link, ops: seq<Op>): seq<Frame> {
    if ops == [] then []
    else
      var n := |ops| - 1;
      var before := DoAll(dec, s, ops[..n]);
      Swallowed(dec, s, ops[..n])
      + (if ReadsPresence(before, ops[n]) then ByTag(Off(before, Do(dec, before, ops[n])), ERROR) else [])
  }

  /** Over any run on a fresh connection: the error frames read are those reported, one read each, and
      those the presence stream took, which are all still set aside at the end and reported by no read. */
  lemma {:induction false} ErrorsSurface(dec: Decoder, wire: seq<Frame>, ops: seq<Op>)
    requires forall op <- ops :: Legal(op)
    ensures var s := DoAll(dec, Opened(wire), ops);
            && ByTag(s.pending, ERROR) == Swallowed(dec, Opened(wire), ops)
            && ReportCount(dec, Opened(wire), ops) == |ByTag(s.discarded, ERROR)|
            && |ByTag(s.read, ERROR)| == ReportCount(dec, Opened(wire), ops) + |Swallowed(dec, Opened(wire), ops)|
  {
    if ops != [] {
      var n := |ops| - 1;
      var s := DoAll(dec, Opened(wire), ops[..n]);
      ErrorsSurface(dec, wire, ops[..n]);
      ErrorFate(dec, s, ops[n]);
      var off := Off(s, Do(dec, s, ops[n]));
      ByTagConcat(s.read, off, ERROR);
      hide ByTag, Off, Do, Reports;
    }
  }

  /** So an error frame that is first on the wire when the presence stream reads is never reported,
      whatever is read after it. */
  lemma SwallowedError(dec: Decoder, f: Frame, wire: seq<Frame>, ops: seq<Op>)
    requires f.tag == ERROR && forall op <- ops :: Legal(op)
    ensures var s := DoAll(dec, Opened([f] + wire), [OpRecv] + ops);
            f in s.pending && |ByTag(s.read, ERROR)| > ReportCount(dec, Opened([f] + wire), [OpRecv] + ops)
  {
    var start, run := Opened([f] + wire), [OpRecv] + ops;
    ErrorsSurface(dec, [f] + wire, run);
    FirstSwallowed(dec, f, wire, ops);
    ByTagMember(DoAll(dec, start, run).pending, ERROR, f);
  }

  lemma {:induction false} FirstSwallowed(dec: Decoder, f: Frame, wire: seq<Frame>, ops: seq<Op>)
    requires f.tag == ERROR
    ensures f in Swallowed(dec, Opened([f] + wire), [OpRecv] + ops)
  {
    var start, run := Opened([f] + wire), [OpRecv] + ops;
    if ops == [] {
      assert run[..0] == [];
      ErrorFate(dec, start, OpRecv);
      var s' := Do(dec, start, OpRecv);
      ShorterWire(dec, start.Received().(pending := start.pending + [f]));
      assert Off(start, s')[0] == f;
      ByTagMember(Off(start, s'), ERROR, f);
    } else {
      var n := |run| - 1;
      assert run[..n] == [OpRecv] + ops[..|ops| - 1];
      FirstSwallowed(dec, f, wire, ops[..|ops| - 1]);
    }
  }

  lemma ShorterWire(dec: Decoder, s: Link)
    ensures |ReadEvent(dec, s).0.wire| <= |s.wire|
  {
    var off := ReadEventMoves(dec, s);
  }

  lemma {:induction false} ByTagMember(frames: seq<Frame>, tag: nat, f: Frame)
    ensures f in ByTag(frames, tag) <==> f in frames && f.tag == tag
  {
    if frames != [] { ByTagMember(frames[..|frames| - 1], tag, f); }
  }

  // ---------------------------------------------------------------- when the presence stream ends

  /** The presence stream gives nothing exactly when no event is buffered and the wire has no presence
      frame left, or the first one does not decode. In that last case the connection is not closed, and
      what came after that frame is still to be read. */
  lemma {:induction false} RecvNoneIff(dec: Decoder, s: Link)
    ensures var p := Position(s.wire, PRESENCE_EVENT);
            && (Recv(dec, s).1 == None <==> s.events == [] && (p == |s.wire| || dec(s.wire[p].body) == None))
            && (s.events == [] ==> Recv(dec, s).0.wire == if p == |s.wire| then [] else s.wire[p + 1..])
    decreases |s.wire|
  {
    if s.events == [] && s.wire != [] && s.wire[0].tag != PRESENCE_EVENT {
      RecvNoneIff(dec, s.Received().(pending := s.pending + [s.wire[0]]));
    }
  }

  // ---------------------------------------------------------------- the shared connection object

  class ConnState {
    var wire: seq<Frame>
    var bufferedEvents: seq<Event>
    var pendingFrames: seq<Frame>
    ghost var read: seq<Frame>
    ghost var delivered: seq<Event>
    ghost var taken: seq<Frame>
    ghost var discarded: seq<Frame>

    ghost function Value(): Link
      reads this
    {
      Link(wire, bufferedEvents, pendingFrames, read, delivered, taken, discarded)
    }

    constructor (wire: seq<Frame>)
      ensures Value() == Opened(wire)
    {
      this.wire, bufferedEvents, pendingFrames := wire, [], [];
      read, delivered, taken, discarded := [], [], [], [];
    }

    method RecvFrame() returns (r: Option<Frame>)
      modifies this
      ensures old(wire) == [] ==> r == None && Value() == old(Value())
      ensures old(wire) != [] ==> r == Some(old(wire)[0]) && Value() == old(Value()).Received()
    {
      if wire == [] {
        return None;
      }
      r := Some(wire[0]);
      read := read + [wire[0]];
      wire := wire[1..];
    }

    method ReadPresence(dec: Decoder) returns (r: Option<Event>)
      modifies this
      ensures (Value(), r) == ReadEvent(dec, old(Value()))
    {
      while true
        invariant ReadEvent(dec, Value()) == ReadEvent(dec, old(Value()))
        decreases |wire|
      {
        var frame := RecvFrame();
        if frame.None? {
          return None;
        }
        if frame.value.tag == PRESENCE_EVENT {
          r := dec(frame.value.body);
          if r.Some? {
            delivered := delivered + [r.value];
          }
          return;
        }
        pendingFrames := pendingFrames + [frame.value];
      }
    }

    method ReceiveEvent(dec: Decoder) returns (r: Option<Event>)
      modifies this
      ensures (Value(), r) == Recv(dec, old(Value()))
    {
      if bufferedEvents != [] {
        r := TryReceiveEvent();
        return;
      }
      r := ReadPresence(dec);
    }

    method TryReceiveEvent() returns (r: Option<Event>)
      modifies this
      ensures (Value(), r) == TryRecv(old(Value()))
    {
      if bufferedEvents == [] {
        return None;
      }
      r := Some(bufferedEvents[0]);
      delivered := delivered + [bufferedEvents[0]];
      bufferedEvents := bufferedEvents[1..];
    }

    /** The search for a frame another reader set aside. */
    method TakeStashed(tag: nat) returns (r: Option<Reply>)
      modifies this
      ensures r.None? <==> Position(old(pendingFrames), tag) == |old(pendingFrames)|
      ensures r.None? ==> Value() == old(Value())
      ensures r.Some? ==> var pos := Position(old(pendingFrames), tag);
                          Value() == TakePending(old(Value()), pos) && r.value == Got(old(pendingFrames)[pos].body)
    {
      var pos := Position(pendingFrames, tag);
      if pos == |pendingFrames| {
        return None;
      }
      r := Some(Got(pendingFrames[pos].body));
      taken := taken + [pendingFrames[pos]];
      pendingFrames := pendingFrames[..pos] + pendingFrames[pos + 1..];
    }

    method Response(dec: Decoder, tag: nat) returns (r: Reply)
      requires tag != PRESENCE_EVENT && tag != ERROR
      modifies this
      ensures (Value(), r) == ReadResponse(dec, old(Value()), tag)
    {
      var stashed := TakeStashed(tag);
      if stashed.Some? {
        return stashed.value;
      }
      while true
        invariant AwaitResponse(dec, Value(), tag) == AwaitResponse(dec, old(Value()), tag)
        decreases |wire|
      {
        var frame := RecvFrame();
        if frame.None? {
          return Closed;
        }
        var f := frame.value;
        if f.tag == PRESENCE_EVENT {
          var event := dec(f.body);
          if event.None? {
            return BadEvent;
          }
          bufferedEvents := bufferedEvents + [event.value];
        } else if f.tag == ERROR {
          discarded := discarded + [f];
          return WireError;
        } else if f.tag == tag {
          taken := taken + [f];
          return Got(f.body);
        } else {
          discarded := discarded + [f];
          return Unexpected(f.tag);
        }
      }
    }

    method RelayReceive(dec: Decoder) returns (r: Reply)
      modifies this
      ensures (Value(), r) == RelayRecv(dec, old(Value()))
    {
      var stashed := TakeStashed(RELAY_DATA);
      if stashed.Some? {
        return stashed.value;
      }
      while true
        invariant AwaitRelay(dec, Value()) == AwaitRelay(dec, old(Value()))
        decreases |wire|
      {
        var frame := RecvFrame();
        if frame.None? {
          return Closed;
        }
        var f := frame.value;
        if f.tag == PRESENCE_EVENT {
          var event := dec(f.body);
          if event.None? {
            continue;
          }
          bufferedEvents := bufferedEvents + [event.value];
        } else if f.tag == RELAY_DATA {
          taken := taken + [f];
          return Got(f.body);
        } else if f.tag == ERROR {
          discarded := discarded + [f];
          return WireError;
        } else {
          pendingFrames := pendingFrames + [f];
        }
      }
    }
  }
}
