/** From the calls the producers make to the bytes on the wire: what an accepted item is, and the
    frames in which it leaves, told by their first bytes. */
module Offers {
  import opened Bytes
  import opened ConnectionState
  import opened Frames
  import opened Receiver
  import opened SendQueue
  import opened ClientModel
  import opened WireFormat

  // ---- What is accepted ----

  /** What an operation adds to the queue: audio while the connection is open, text at any time,
      neither if empty or if 1024 items are waiting. */
  function Offered(c: Client, op: Op): seq<Item> {
    match op
    case SendBinary(data) => if data != [] && c.state == OPEN && |c.queue| < 1024 then [Item(data, true)] else []
    case SendMessage(data) => if data != [] && |c.queue| < 1024 then [Item(data, false)] else []
    case _ => []
  }

  function OfferedBy(c: Client, ops: seq<Op>): seq<Item>
    decreases |ops|
  {
    if ops == [] then [] else Offered(c, ops[0]) + OfferedBy(Step(c, ops[0]), ops[1..])
  }

  lemma AcceptsOffer(c: Client, op: Op)
    ensures Step(c, op).accepted == c.accepted + Offered(c, op)
    ensures !op.DrainSendQueue? ==> Step(c, op).queue == c.queue + Offered(c, op)
  {
    assert c.accepted + [] == c.accepted && c.queue + [] == c.queue;
  }

  /** In every run the items accepted are those offered, and nothing else. */
  lemma {:induction false} AcceptsOffers(c: Client, ops: seq<Op>)
    ensures Run(c, ops).accepted == c.accepted + OfferedBy(c, ops)
    decreases |ops|
  {
    if ops == [] {
      assert c.accepted + [] == c.accepted;
    } else {
      AcceptsOffer(c, ops[0]);
      AcceptsOffers(Step(c, ops[0]), ops[1..]);
      Assoc(c.accepted, Offered(c, ops[0]), OfferedBy(Step(c, ops[0]), ops[1..]));
    }
  }

  // ---- The wire as frames ----

  /** A frame sendFrame writes for some data: masked and final, in the shortest form. */
  predicate IsOurs(w: Layout) {
    && Legal(w) && |w.key| == 4
    && |w.extra| == (if |w.body| < 126 then 0 else if |w.body| < 65536 then 2 else 8)
    && (w.first == 0x81 || w.first == 0x82 || w.first == 0x88 || w.first == 0x89 || w.first == 0x8A)
  }

  predicate AllOurs(list: seq<Layout>) {
    forall i :: 0 <= i < |list| ==> IsOurs(list[i])
  }

  /** The wire is a row of such frames. */
  ghost predicate Framed(wire: seq<byte>) {
    exists list :: AllOurs(list) && StreamBytes(list) == wire
  }

  lemma {:induction false} StreamBytesSnoc(list: seq<Layout>, w: Layout)
    ensures StreamBytes(list + [w]) == StreamBytes(list) + BytesOf(w)
  {
    if list == [] {
      assert [w][1..] == [] && [] + [w] == [w] && BytesOf(w) + [] == BytesOf(w) && [] + BytesOf(w) == BytesOf(w);
    } else {
      assert (list + [w])[0] == list[0] && (list + [w])[1..] == list[1..] + [w];
      StreamBytesSnoc(list[1..], w);
      Assoc(BytesOf(list[0]), StreamBytes(list[1..]), BytesOf(w));
    }
  }

  lemma OneMoreFrame(wire: seq<byte>, w: Layout)
    requires Framed(wire) && IsOurs(w)
    ensures Framed(wire + BytesOf(w))
  {
    var list :| AllOurs(list) && StreamBytes(list) == wire;
    StreamBytesSnoc(list, w);
    assert AllOurs(list + [w]);
  }

  predicate IsOpcode(opcode: byte) {
    opcode == OP_TEXT || opcode == OP_BINARY || opcode == OP_CLOSE || opcode == OP_PING || opcode == OP_PONG
  }

  /** A clean write leaves the wire a row of frames. */
  lemma FrameFrames(wire: seq<byte>, opcode: byte, data: seq<byte>, open: bool, a: Attempt)
    requires Framed(wire) && Clean(a.writes) && |data| <= MAX_VECTOR && IsOpcode(opcode)
    ensures Framed(wire + SentBytes(open, EncodeFrame(opcode, data, a.mask), a.writes))
  {
    var frame := EncodeFrame(opcode, data, a.mask);
    CleanTaken(a.writes, |frame|);
    assert frame[..|frame|] == frame && wire + [] == wire;
    if open && !Fails(a) {
      WritesClientFrame(opcode, data, a.mask);
      OneMoreFrame(wire, Written(opcode, data, a.mask));
    }
  }

  lemma {:induction false} DrainFrames(d: Drain, open: bool, link: Link)
    requires Framed(d.wire) && CleanFrom(link, d.calls) && Sized(d.queue)
    ensures Framed(DrainAll(d, open, link).wire) && Sized(DrainAll(d, open, link).queue)
    decreases |d.queue|, if d.retries < |d.queue| then |d.queue| - d.retries else 0
  {
    if Going(d) {
      var item := d.queue[0];
      if item.data != [] {
        FrameFrames(d.wire, if item.isBinary then OP_BINARY else OP_TEXT, item.data, open, link(d.calls));
      }
      DrainFrames(DrainStep(d, open, link), open, link);
    }
  }

  lemma ReadFrames(c: Client, chunk: seq<byte>, link: Link)
    requires Framed(c.wire) && Cleanly(c, Read(chunk, link))
    ensures Framed(AfterRead(c, chunk, link).wire)
  {
    if c.running {
      var reply := PongFrame(c.sockOpen, link);
      forall w: seq<byte>, p: seq<byte>, j: nat | Framed(w) && |p| <= MAX_VECTOR
        ensures Framed(w + reply(p, j))
      {
        FrameFrames(w, OP_PONG, p, c.sockOpen, link(j));
      }
      EventsAreNoLonger(c.rx + chunk);
      PongsKeep(c.wire, Framed, Consume(c.rx + chunk).events, reply, 0);
    }
  }

  ghost predicate AllCleanly(c: Client, ops: seq<Op>)
    decreases |ops|
  {
    ops == [] || (Cleanly(c, ops[0]) && AllCleanly(Step(c, ops[0]), ops[1..]))
  }

  lemma StepFrames(c: Client, op: Op)
    requires Framed(c.wire) && Sized(c.queue) && Cleanly(c, op)
    ensures Framed(Step(c, op).wire) && Sized(Step(c, op).queue)
  {
    match op
    case DrainSendQueue(link) => DrainFrames(Drain(c.queue, 0, 0, [], c.wire), c.sockOpen, link);
    case Read(chunk, link) => ReadFrames(c, chunk, link);
    case Ping(a) => FrameFrames(c.wire, OP_PING, [], c.sockOpen, a);
    case Cleanup(a) => FrameFrames(c.wire, OP_CLOSE, [], c.sockOpen, a);
    case _ =>
  }

  lemma {:induction false} RunFrames(c: Client, ops: seq<Op>)
    requires Framed(c.wire) && Sized(c.queue) && AllCleanly(c, ops)
    ensures Framed(Run(c, ops).wire)
    decreases |ops|
  {
    if ops != [] {
      StepFrames(c, ops[0]);
      RunFrames(Step(c, ops[0]), ops[1..]);
    }
  }

  // ---- The items in the frames ----

  function ItemOf(w: Layout): seq<Item> {
    if w.first == 0x82 then [Item(DataOf(w), true)]
    else if w.first == 0x81 then [Item(DataOf(w), false)]
    else []
  }

  /** The items of a row of frames, told by their first bytes. */
  function ItemsIn(list: seq<Layout>): seq<Item> {
    if list == [] then [] else ItemOf(list[0]) + ItemsIn(list[1..])
  }

  lemma ItemInFrame(w: Layout)
    requires IsOurs(w)
    ensures ItemsOf([FrameIn(w)]) == ItemOf(w)
  {
    assert ItemsOf([]) == [];
    assert 0x81 as byte & 0x0F == 1 && 0x82 as byte & 0x0F == 2 && 0x88 as byte & 0x0F == 8
        && 0x89 as byte & 0x0F == 9 && 0x8A as byte & 0x0F == 10;
  }

  lemma {:induction false} ItemsInFrames(list: seq<Layout>)
    requires AllOurs(list)
    ensures ItemsOf(FramesIn(list)) == ItemsIn(list)
  {
    if list != [] {
      ItemInFrame(list[0]);
      ItemsInFrames(list[1..]);
      assert [FrameIn(list[0])][1..] == [];
      assert FramesIn(list)[0] == FrameIn(list[0]) && FramesIn(list)[1..] == FramesIn(list[1..]);
    }
  }

  /** What a reader of the wire finds, read off its frames. */
  lemma WireRead(list: seq<Layout>)
    requires AllOurs(list)
    ensures ParseAll(StreamBytes(list)) == Stream(FramesIn(list), [])
    ensures ItemsOf(ParseAll(StreamBytes(list)).frames) == ItemsIn(list)
  {
    ReadsStream(list, []);
    assert StreamBytes(list) + [] == StreamBytes(list);
    ItemsInFrames(list);
  }

  lemma {:induction false} AdmissibleIsClean(c: Client, ops: seq<Op>)
    requires AllAdmissible(c, ops)
    ensures AllCleanly(c, ops)
    decreases |ops|
  {
    if ops != [] {
      AdmissibleIsClean(Step(c, ops[0]), ops[1..]);
    }
  }

  lemma StartIsFramed()
    ensures Framed(Start().wire)
  {
    assert AllOurs([]) && StreamBytes([]) == [];
  }

  /** From call to wire, over every interleaving of producers, drains, reads, pings and closing:
      the wire is a row of masked frames, and those that start with 0x82 and 0x81, then the queue,
      are the audio and the text the producers were let in with, in order. */
  lemma OffersReachWire(ops: seq<Op>) returns (list: seq<Layout>)
    requires AllAdmissible(Start(), ops)
    ensures AllOurs(list) && StreamBytes(list) == Run(Start(), ops).wire
    ensures ItemsIn(list) + Run(Start(), ops).queue == OfferedBy(Start(), ops)
  {
    StartIsFramed();
    AdmissibleIsClean(Start(), ops);
    RunFrames(Start(), ops);
    list :| AllOurs(list) && StreamBytes(list) == Run(Start(), ops).wire;
    WireRead(list);
    EndToEnd(ops);
    AcceptsOffers(Start(), ops);
    assert Start().accepted + OfferedBy(Start(), ops) == OfferedBy(Start(), ops);
  }

  // ---- Opening, closing and control frames ----

  /** If every item gets through, a drain sends them all. */
  lemma DrainSendsAll(c: Client, link: Link)
    requires Filled(c.queue)
    requires forall i :: 0 <= i < |c.queue| ==> Gets(c.queue, c.sockOpen, link, 0, i)
    ensures Drained(c, link).sent == c.queue && Step(c, DrainSendQueue(link)).queue == []
  {
    FilledIsNonEmpty(c.queue);
    DrainSendsLeading(Drain(c.queue, 0, 0, [], c.wire), c.sockOpen, link, |c.queue|);
    assert [] + c.queue[..|c.queue|] == c.queue;
  }

  /** Audio given to a client right after the handshake, and drained, is one frame on the wire. */
  lemma FirstAudio(data: seq<byte>, link: Link)
    requires 0 < |data| <= MAX_VECTOR && Through(Item(data, true), true, link(0))
    ensures var c := Run(Start(), [HandshakeDone, SendBinary(data), DrainSendQueue(link)]);
            var w := Written(2, data, link(0).mask);
            c.queue == [] && c.wire == BytesOf(w) && ClientFrame(w, 2, data, link(0).mask)
  {
    var ops := [HandshakeDone, SendBinary(data), DrainSendQueue(link)];
    var item, open := Item(data, true), Step(Start(), HandshakeDone);
    assert ops[1..] == [SendBinary(data), DrainSendQueue(link)] && ops[1..][1..] == [DrainSendQueue(link)];
    assert ops[1..][1..][1..] == [];
    var ready := Step(open, SendBinary(data));
    assert [] + [item] == [item] && ready.queue == [item];
    assert Run(Start(), ops) == Run(open, ops[1..]) == Run(ready, ops[1..][1..]) == Step(ready, DrainSendQueue(link));
    assert Gets([item], true, link, 0, 0);
    DrainSendsAll(ready, link);
    var d, frame := Drain([item], 0, 0, [], []), FrameOf(item, link(0).mask);
    StepSends(d, true, link);
    assert DrainAll(d, true, link) == DrainStep(d, true, link);
    assert [] + frame[..|frame|] == frame;
    WritesClientFrame(2, data, link(0).mask);
  }

  /** What is read right after the handshake has the effects a reader finds in it. */
  lemma FirstMessages(chunk: seq<byte>, link: Link)
    ensures Run(Start(), [HandshakeDone, Read(chunk, link)]).events == UpToClose(ParseAll(chunk).frames)
  {
    var ops := [HandshakeDone, Read(chunk, link)];
    var open := Step(Start(), HandshakeDone);
    assert ops[1..] == [Read(chunk, link)] && ops[1..][1..] == [];
    assert Run(Start(), ops) == Run(open, ops[1..]) == AfterRead(open, chunk, link);
    assert [] + chunk == chunk && [] + Consume(chunk).events == Consume(chunk).events;
    ConsumeAgrees(chunk);
  }

  /** An empty control frame: two bytes and the key. */
  lemma ControlBytes(c: Client, a: Attempt)
    requires c.sockOpen && Taken(a.writes, 0, 6) == 6
    ensures Step(c, Ping(a)).wire == c.wire + ([0x89, 0x80] + a.mask)
    ensures Step(c, Cleanup(a)).wire == c.wire + ([0x88, 0x80] + a.mask)
  {
    assert EncodeFrame(OP_PING, [], a.mask) == [0x89, 0x80] + a.mask;
    assert EncodeFrame(OP_CLOSE, [], a.mask) == [0x88, 0x80] + a.mask;
    var f, g := EncodeFrame(OP_PING, [], a.mask), EncodeFrame(OP_CLOSE, [], a.mask);
    assert f[..6] == f && g[..6] == g;
  }

  lemma {:induction false} DrainOnClosed(d: Drain, link: Link)
    ensures DrainAll(d, false, link).wire == d.wire
    decreases |d.queue|, if d.retries < |d.queue| then |d.queue| - d.retries else 0
  {
    if Going(d) {
      assert d.wire + [] == d.wire;
      DrainOnClosed(DrainStep(d, false, link), link);
    }
  }

  lemma {:induction false} NoReplies(events: seq<Event>, reply: (seq<byte>, nat) -> seq<byte>, k: nat)
    requires forall p: seq<byte>, j: nat :: reply(p, j) == []
    ensures PongBytes(events, reply, k) == []
  {
    if events != [] {
      NoReplies(events[1..], reply, if events[0].PongReply? then k + 1 else k);
    }
  }

  lemma ReadOnClosed(c: Client, chunk: seq<byte>, link: Link)
    requires !c.sockOpen && c.state != OPEN
    ensures var r := AfterRead(c, chunk, link); r.wire == c.wire && r.state != OPEN
  {
    if c.running {
      var reply := PongFrame(c.sockOpen, link);
      forall p: seq<byte>, j: nat ensures reply(p, j) == [] {
        var nothing := SentBytes(c.sockOpen, EncodeFrame(OP_PONG, p, link(j).mask), link(j).writes);
        assert reply(p, j) == nothing == [];
      }
      NoReplies(Consume(c.rx + chunk).events, reply, 0);
      assert c.wire + [] == c.wire;
    }
  }

  /** No handshake completes any more. */
  predicate NoHandshake(ops: seq<Op>) {
    forall i :: 0 <= i < |ops| ==> !ops[i].HandshakeDone?
  }

  predicate TextOnly(items: seq<Item>) {
    forall i :: 0 <= i < |items| ==> !items[i].isBinary
  }

  lemma StepOnClosed(c: Client, op: Op)
    requires c.state != OPEN && !c.sockOpen && !op.HandshakeDone?
    ensures var r := Step(c, op); r.wire == c.wire && !r.sockOpen && r.state != OPEN && TextOnly(Offered(c, op))
  {
    match op
    case DrainSendQueue(link) => DrainOnClosed(Drain(c.queue, 0, 0, [], c.wire), link);
    case Read(chunk, link) => ReadOnClosed(c, chunk, link);
    case Ping(a) => assert c.wire + [] == c.wire;
    case Cleanup(a) => assert c.wire + [] == c.wire;
    case _ =>
  }

  lemma {:induction false} RunOnClosed(c: Client, ops: seq<Op>)
    requires c.state != OPEN && !c.sockOpen && NoHandshake(ops)
    ensures Run(c, ops).wire == c.wire && TextOnly(OfferedBy(c, ops))
    decreases |ops|
  {
    if ops != [] {
      StepOnClosed(c, ops[0]);
      RunOnClosed(Step(c, ops[0]), ops[1..]);
    }
  }

  /** After the cleanup nothing goes out any more and no audio is accepted, whatever is called. */
  lemma NothingAfterCleanup(c: Client, a: Attempt, ops: seq<Op>)
    requires NoHandshake(ops)
    ensures var r := Step(c, Cleanup(a)); Run(r, ops).wire == r.wire && TextOnly(OfferedBy(r, ops))
  {
    RunOnClosed(Step(c, Cleanup(a)), ops);
  }

  lemma NotRunningStep(c: Client, op: Op)
    requires !c.running
    ensures var r := Step(c, op);
            !r.running && r.events == c.events && r.received == c.received && r.rx == c.rx
  {}

  lemma {:induction false} NotRunningStays(c: Client, ops: seq<Op>)
    requires !c.running
    ensures var r := Run(c, ops);
            r.events == c.events && r.received == c.received && r.rx == c.rx
    decreases |ops|
  {
    if ops != [] {
      NotRunningStep(c, ops[0]);
      NotRunningStays(Step(c, ops[0]), ops[1..]);
    }
  }

  /** Once disconnect() has been called on a client that is connecting, open or closing, nothing
      more is read and no callback for data is made; on any other client it changes nothing. */
  lemma NothingAfterDisconnect(c: Client, ops: seq<Op>)
    ensures var d := Step(c, Disconnect);
            if c.state == DISCONNECTED || c.state == CLOSED then d == c
            else
              var r := Run(d, ops);
              d.state == CLOSING && r.events == c.events && r.received == c.received && r.rx == c.rx
  {
    if c.state != DISCONNECTED && c.state != CLOSED {
      NotRunningStays(Step(c, Disconnect), ops);
    }
  }

  /** The same once a close frame has come in, which a client takes for good. */
  lemma NothingAfterPeerClose(c: Client, chunk: seq<byte>, link: Link, ops: seq<Op>)
    requires Steady(c) && !c.peerClosed
    ensures var d := Step(c, Read(chunk, link));
            var r := Run(d, ops);
            && (d.peerClosed <==> c.running && HasClose(ParseAll(c.received + chunk).frames))
            && (d.peerClosed ==> d.state == CLOSING && r.events == d.events && r.received == d.received)
  {
    var d := Step(c, Read(chunk, link));
    ReadSteady(c, chunk, link);
    if d.peerClosed {
      NotRunningStays(d, ops);
    }
  }
}
