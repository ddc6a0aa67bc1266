/** Pings are answered on the wire: what a reader of the wire finds of the client's pong frames. */
module Pongs {
  import opened Bytes
  import opened Frames
  import opened Receiver
  import opened SendQueue
  import opened ClientModel
  import opened WireFormat
  import opened Offers

  function PongOf(f: Frame): seq<seq<byte>> {
    if f.opcode == OP_PONG then [f.payload] else []
  }

  /** The payloads of the pong frames among the frames. */
  function PongsOf(frames: seq<Frame>): seq<seq<byte>> {
    if frames == [] then [] else PongOf(frames[0]) + PongsOf(frames[1..])
  }

  function ReplyOf(e: Event): seq<seq<byte>> {
    if e.PongReply? then [e.payload] else []
  }

  /** The payloads of the pings answered. */
  function RepliesOf(events: seq<Event>): seq<seq<byte>> {
    if events == [] then [] else ReplyOf(events[0]) + RepliesOf(events[1..])
  }

  lemma Neutral<T>(s: seq<T>)
    ensures s + [] == s && [] + s == s
  {}

  lemma {:induction false} PongsOfSnoc(frames: seq<Frame>, f: Frame)
    ensures PongsOf(frames + [f]) == PongsOf(frames) + PongOf(f)
  {
    if frames == [] {
      assert frames + [f] == [f] && [f][1..] == [];
      Neutral(PongOf(f));
    } else {
      assert (frames + [f])[0] == frames[0] && (frames + [f])[1..] == frames[1..] + [f];
      PongsOfSnoc(frames[1..], f);
      Assoc(PongOf(frames[0]), PongsOf(frames[1..]), PongOf(f));
    }
  }

  lemma {:induction false} RepliesOfAppend(a: seq<Event>, b: seq<Event>)
    ensures RepliesOf(a + b) == RepliesOf(a) + RepliesOf(b)
  {
    if a == [] {
      assert a + b == b;
      Neutral(RepliesOf(b));
    } else {
      assert (a + b)[0] == a[0] && (a + b)[1..] == a[1..] + b;
      RepliesOfAppend(a[1..], b);
      Assoc(ReplyOf(a[0]), RepliesOf(a[1..]), RepliesOf(b));
    }
  }

  /** The wire is whole frames, and its pong frames carry these payloads. */
  predicate Answered(wire: seq<byte>, payloads: seq<seq<byte>>) {
    ParseAll(wire).rest == [] && PongsOf(ParseAll(wire).frames) == payloads
  }

  /** One more frame, clean written. */
  lemma FrameAnswers(wire: seq<byte>, payloads: seq<seq<byte>>, opcode: byte, data: seq<byte>, open: bool, a: Attempt)
    requires Answered(wire, payloads) && Clean(a.writes) && opcode < 16 && |data| <= MAX_VECTOR
    ensures Answered(wire + SentBytes(open, EncodeFrame(opcode, data, a.mask), a.writes),
                     if open && !Fails(a) && opcode == OP_PONG then payloads + [data] else payloads)
  {
    var frame := EncodeFrame(opcode, data, a.mask);
    CleanTaken(a.writes, |frame|);
    assert frame[..|frame|] == frame;
    Neutral(wire);
    Neutral(payloads);
    if open && !Fails(a) {
      ParseAllSnoc(wire, opcode, data, a.mask);
      PongsOfSnoc(ParseAll(wire).frames, Frame(true, opcode, data));
    }
  }

  /** A drain writes data frames only. */
  lemma {:induction false} DrainAnswers(d: Drain, open: bool, link: Link, payloads: seq<seq<byte>>)
    requires Answered(d.wire, payloads) && CleanFrom(link, d.calls) && Sized(d.queue)
    ensures Answered(DrainAll(d, open, link).wire, payloads)
    decreases |d.queue|, if d.retries < |d.queue| then |d.queue| - d.retries else 0
  {
    if Going(d) {
      var item := d.queue[0];
      if item.data != [] {
        FrameAnswers(d.wire, payloads, if item.isBinary then OP_BINARY else OP_TEXT, item.data, open, link(d.calls));
      }
      DrainAnswers(DrainStep(d, open, link), open, link, payloads);
    }
  }

  /** What one reply adds, all of them add, in order. */
  lemma {:induction false} RepliesAnswer(
      wire: seq<byte>, payloads: seq<seq<byte>>, events: seq<Event>, reply: (seq<byte>, nat) -> seq<byte>, k: nat)
    requires Answered(wire, payloads)
    requires forall i :: 0 <= i < |events| ==> |events[i].payload| <= MAX_VECTOR
    requires forall w: seq<byte>, ps: seq<seq<byte>>, p: seq<byte>, j: nat ::
               Answered(w, ps) && |p| <= MAX_VECTOR ==> Answered(w + reply(p, j), ps + [p])
    ensures Answered(wire + PongBytes(events, reply, k), payloads + RepliesOf(events))
    decreases |events|
  {
    if events == [] {
      Neutral(wire);
      Neutral(payloads);
    } else {
      var rest := events[1..];
      if events[0].PongReply? {
        var data := events[0].payload;
        RepliesAnswer(wire + reply(data, k), payloads + [data], rest, reply, k + 1);
        Assoc(wire, reply(data, k), PongBytes(rest, reply, k + 1));
      } else {
        Neutral(payloads);
        RepliesAnswer(wire, payloads, rest, reply, k);
      }
      Assoc(payloads, ReplyOf(events[0]), RepliesOf(rest));
    }
  }

  /** The replies to one read, all of which get through. */
  lemma ReadReplies(wire: seq<byte>, payloads: seq<seq<byte>>, events: seq<Event>, link: Link)
    requires Answered(wire, payloads) && CleanFrom(link, 0) && forall j: nat :: !Fails(link(j))
    requires forall i :: 0 <= i < |events| ==> |events[i].payload| <= MAX_VECTOR
    ensures Answered(wire + PongBytes(events, PongFrame(true, link), 0), payloads + RepliesOf(events))
  {
    var reply := PongFrame(true, link);
    forall w: seq<byte>, ps: seq<seq<byte>>, p: seq<byte>, j: nat | Answered(w, ps) && |p| <= MAX_VECTOR
      ensures Answered(w + reply(p, j), ps + [p])
    {
      FrameAnswers(w, ps, OP_PONG, p, true, link(j));
    }
    RepliesAnswer(wire, payloads, events, reply, 0);
  }

  // ---- Runs ----

  /** Reads come while the socket is open, and every pong is written. */
  ghost predicate Prompt(c: Client, op: Op) {
    op.Read? && c.running ==> c.sockOpen && forall j: nat :: !Fails(op.link(j))
  }

  ghost predicate AllPrompt(c: Client, ops: seq<Op>)
    decreases |ops|
  {
    ops == [] || (Cleanly(c, ops[0]) && Prompt(c, ops[0]) && AllPrompt(Step(c, ops[0]), ops[1..]))
  }

  /** So far every ping has been answered on the wire, and the queue can be sent. */
  ghost predicate Keeping(c: Client) {
    Answered(c.wire, RepliesOf(c.events)) && Sized(c.queue)
  }

  lemma ReadAnswers(c: Client, chunk: seq<byte>, link: Link)
    requires Cleanly(c, Read(chunk, link)) && Prompt(c, Read(chunk, link)) && Keeping(c)
    ensures Keeping(AfterRead(c, chunk, link))
  {
    if c.running {
      var events := Consume(c.rx + chunk).events;
      EventsAreNoLonger(c.rx + chunk);
      ReadReplies(c.wire, RepliesOf(c.events), events, link);
      RepliesOfAppend(c.events, events);
    }
  }

  lemma DrainKeepsUp(c: Client, link: Link)
    requires CleanFrom(link, 0) && Keeping(c)
    ensures Keeping(AfterDrain(c, link))
  {
    var d := Drain(c.queue, 0, 0, [], c.wire);
    var items := ItemsOf(ParseAll(c.wire).frames);
    assert items + [] == items;
    DrainDelivers(d, c.sockOpen, link, items);
    DrainAnswers(d, c.sockOpen, link, RepliesOf(c.events));
  }

  lemma ControlKeepsUp(c: Client, opcode: byte, a: Attempt)
    requires Clean(a.writes) && (opcode == OP_PING || opcode == OP_CLOSE) && Keeping(c)
    ensures Keeping(AfterControl(c, opcode, a))
  {
    FrameAnswers(c.wire, RepliesOf(c.events), opcode, [], c.sockOpen, a);
  }

  lemma EnqueueKeepsUp(c: Client, item: Item)
    requires |item.data| <= MAX_VECTOR && Keeping(c)
    ensures Keeping(Enqueue(c, item))
  {}

  lemma StepAnswers(c: Client, op: Op)
    requires Cleanly(c, op) && Prompt(c, op) && Keeping(c)
    ensures Keeping(Step(c, op))
  {
    match op
    case SendBinary(data) => EnqueueKeepsUp(c, Item(data, true));
    case SendMessage(data) => EnqueueKeepsUp(c, Item(data, false));
    case DrainSendQueue(link) => DrainKeepsUp(c, link);
    case Read(chunk, link) => ReadAnswers(c, chunk, link);
    case Ping(a) => ControlKeepsUp(c, OP_PING, a);
    case Cleanup(a) => ControlKeepsUp(c, OP_CLOSE, a);
    case _ =>
  }

  lemma {:induction false} RunAnswers(c: Client, ops: seq<Op>)
    requires Keeping(c) && AllPrompt(c, ops)
    ensures Keeping(Run(c, ops))
    decreases |ops|
  {
    if ops != [] {
      StepAnswers(c, ops[0]);
      RunAnswers(Step(c, ops[0]), ops[1..]);
    }
  }

  /** When the pongs are written, and no other write leaves a part of a frame, the pong frames a
      reader finds carry the payloads of the pings received, in order, up to the first close. */
  lemma PingsAreAnswered(ops: seq<Op>)
    requires AllPrompt(Start(), ops)
    ensures var c := Run(Start(), ops);
            && PongsOf(ParseAll(c.wire).frames) == RepliesOf(c.events)
            && c.events == UpToClose(ParseAll(c.received).frames)
  {
    StartIsSound();
    RunSteady(Start(), ops);
    assert ParseAll([]) == Stream([], []);
    RunAnswers(Start(), ops);
  }

  // ---- Told by their first bytes ----

  /** The payloads of the frames that start with 0x8A. */
  function PongsIn(list: seq<Layout>): seq<seq<byte>> {
    if list == [] then [] else (if list[0].first == 0x8A then [DataOf(list[0])] else []) + PongsIn(list[1..])
  }

  lemma PongInFrame(w: Layout)
    requires IsOurs(w)
    ensures PongOf(FrameIn(w)) == if w.first == 0x8A then [DataOf(w)] else []
  {
    assert 0x81 as byte & 0x0F == 1 && 0x82 as byte & 0x0F == 2 && 0x88 as byte & 0x0F == 8
        && 0x89 as byte & 0x0F == 9 && 0x8A as byte & 0x0F == 10;
  }

  lemma {:induction false} PongsInFrames(list: seq<Layout>)
    requires AllOurs(list)
    ensures PongsOf(FramesIn(list)) == PongsIn(list)
  {
    if list != [] {
      PongInFrame(list[0]);
      PongsInFrames(list[1..]);
      assert FramesIn(list)[1..] == FramesIn(list[1..]);
    }
  }

  lemma {:induction false} PromptIsClean(c: Client, ops: seq<Op>)
    requires AllPrompt(c, ops)
    ensures AllCleanly(c, ops)
    decreases |ops|
  {
    if ops != [] {
      PromptIsClean(Step(c, ops[0]), ops[1..]);
    }
  }

  /** The same without a reader: the wire is a row of masked frames, and those that start with 0x8A
      carry the payloads of the pings received. */
  lemma PongsOnTheWire(ops: seq<Op>) returns (list: seq<Layout>)
    requires AllPrompt(Start(), ops)
    ensures AllOurs(list) && StreamBytes(list) == Run(Start(), ops).wire
    ensures PongsIn(list) == RepliesOf(Run(Start(), ops).events)
  {
    StartIsFramed();
    PromptIsClean(Start(), ops);
    RunFrames(Start(), ops);
    list :| AllOurs(list) && StreamBytes(list) == Run(Start(), ops).wire;
    WireRead(list);
    PongsInFrames(list);
    PingsAreAnswered(ops);
  }
}
