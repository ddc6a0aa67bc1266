/** The client as a value: what each operation makes of its state, and what every run keeps. */
module ClientModel {
  import opened Bytes
  import opened ConnectionState
  import opened Frames
  import opened Receiver
  import opened SendQueue

  /** The fields of WebSocketClient that sending and receiving use, and the history a run
      leaves: bytes on the wire, items accepted, bytes received, callbacks and pongs. */
  datatype Client = Client(
    state: State, running: bool, sockOpen: bool, queue: seq<Item>, rx: seq<byte>,
    wire: seq<byte>, accepted: seq<Item>, received: seq<byte>, events: seq<Event>, peerClosed: bool)

  function Enqueue(c: Client, item: Item): Client {
    if |c.queue| >= MAX_SEND_QUEUE then c
    else c.(queue := c.queue + [item], accepted := c.accepted + [item])
  }

  function AfterSendBinary(c: Client, data: seq<byte>): Client {
    if data == [] || c.state != OPEN then c else Enqueue(c, Item(data, true))
  }

  function AfterSendMessage(c: Client, data: seq<byte>): Client {
    if data == [] then c else Enqueue(c, Item(data, false))
  }

  function Drained(c: Client, link: Link): Drain {
    DrainAll(Drain(c.queue, 0, 0, [], c.wire), c.sockOpen, link)
  }

  function AfterDrain(c: Client, link: Link): Client {
    c.(queue := Drained(c, link).queue, wire := Drained(c, link).wire)
  }

  function Pongs(events: seq<Event>): nat {
    if events == [] then 0 else (if events[0].PongReply? then 1 else 0) + Pongs(events[1..])
  }

  /** The bytes of the pong replies among the events, `reply` giving those of the k-th frame. */
  function PongBytes(events: seq<Event>, reply: (seq<byte>, nat) -> seq<byte>, k: nat): seq<byte> {
    if events == [] then []
    else if events[0].PongReply? then reply(events[0].payload, k) + PongBytes(events[1..], reply, k + 1)
    else PongBytes(events[1..], reply, k)
  }

  /** What sendFrame(0xA, ...) puts on the wire. */
  function PongFrame(open: bool, link: Link): (seq<byte>, nat) -> seq<byte> {
    (payload: seq<byte>, k: nat) => SentBytes(open, EncodeFrame(OP_PONG, payload, link(k).mask), link(k).writes)
  }

  /** processFrame on the buffer as it stands. */
  function AfterProcess(c: Client, link: Link): Client {
    var r := Consume(c.rx);
    c.(rx := r.rest, events := c.events + r.events,
       wire := c.wire + PongBytes(r.events, PongFrame(c.sockOpen, link), 0),
       state := if r.closed then CLOSING else c.state,
       running := c.running && !r.closed, peerClosed := c.peerClosed || r.closed)
  }

  /** One successful read inside the poll loop. */
  function AfterRead(c: Client, chunk: seq<byte>, link: Link): Client {
    if !c.running then c
    else AfterProcess(c.(rx := c.rx + chunk, received := c.received + chunk), link)
  }

  /** An empty control frame: the keep-alive ping or the closing frame of the cleanup. */
  function AfterControl(c: Client, opcode: byte, a: Attempt): Client {
    c.(wire := c.wire + SentBytes(c.sockOpen, EncodeFrame(opcode, [], a.mask), a.writes))
  }

  function AfterDisconnect(c: Client): Client {
    if c.state.DISCONNECTED? || c.state.CLOSED? then c else c.(state := CLOSING, running := false)
  }

  // ---- Runs ----

  datatype Op =
    | SendBinary(data: seq<byte>)
    | SendMessage(data: seq<byte>)
    | DrainSendQueue(link: Link)
    | Read(chunk: seq<byte>, link: Link)
    | Ping(attempt: Attempt)
    | HandshakeDone
    | Disconnect
    | Cleanup(attempt: Attempt)

  function Step(c: Client, op: Op): Client {
    match op
    case SendBinary(data) => AfterSendBinary(c, data)
    case SendMessage(data) => AfterSendMessage(c, data)
    case DrainSendQueue(link) => AfterDrain(c, link)
    case Read(chunk, link) => AfterRead(c, chunk, link)
    case Ping(a) => AfterControl(c, OP_PING, a)
    case HandshakeDone => c.(state := OPEN, sockOpen := true)
    case Disconnect => AfterDisconnect(c)
    case Cleanup(a) => AfterControl(c, OP_CLOSE, a).(sockOpen := false, state := CLOSED)
  }

  /** Vectors no longer than a vector can be, and writes that take all or nothing. */
  ghost predicate Cleanly(c: Client, op: Op) {
    match op
    case SendBinary(data) => |data| <= MAX_VECTOR
    case SendMessage(data) => |data| <= MAX_VECTOR
    case DrainSendQueue(link) => CleanFrom(link, 0)
    case Read(chunk, link) => CleanFrom(link, 0) && |c.rx| + |chunk| <= MAX_VECTOR
    case Ping(a) => Clean(a.writes)
    case Cleanup(a) => Clean(a.writes)
    case _ => true
  }

  /** No item of a drain gets through behind one that does not. */
  ghost predicate Orderly(c: Client, op: Op) {
    op.DrainSendQueue? ==> NoRecovery(c.queue, c.sockOpen, op.link, 0)
  }

  /** What the claim about the wire needs of the environment. */
  ghost predicate Admissible(c: Client, op: Op) {
    Cleanly(c, op) && Orderly(c, op)
  }

  function Run(c: Client, ops: seq<Op>): Client
    decreases |ops|
  {
    if ops == [] then c else Run(Step(c, ops[0]), ops[1..])
  }

  ghost predicate AllAdmissible(c: Client, ops: seq<Op>)
    decreases |ops|
  {
    ops == [] || (Admissible(c, ops[0]) && AllAdmissible(Step(c, ops[0]), ops[1..]))
  }

  /** The client connect() has just started. */
  function Start(): Client {
    Client(CONNECTING, true, false, [], [], [], [], [], [], false)
  }

  /** Whatever the socket does: the queue is bounded and holds no empty item, and the receive
      side says what the bytes received say read at once. */
  ghost predicate Steady(c: Client) {
    && |c.queue| <= MAX_SEND_QUEUE && Filled(c.queue)
    && Agrees(Receipt(c.events, c.peerClosed, c.rx), c.received)
    && (c.peerClosed ==> !c.running)
  }

  /** The data frames on the wire, in order, then the queue, are the accepted items. */
  ghost predicate Faithful(c: Client) {
    && ParseAll(c.wire).rest == []
    && ItemsOf(ParseAll(c.wire).frames) + c.queue == c.accepted
  }

  ghost predicate Sound(c: Client) {
    Steady(c) && Faithful(c) && Sized(c.queue)
  }

  // ---- What needs no assumption ----

  lemma DrainSteady(c: Client, link: Link)
    requires Steady(c)
    ensures Steady(AfterDrain(c, link))
  {
    DrainKeepsFilled(Drain(c.queue, 0, 0, [], c.wire), c.sockOpen, link);
  }

  lemma ReadSteady(c: Client, chunk: seq<byte>, link: Link)
    requires Steady(c)
    ensures Steady(AfterRead(c, chunk, link))
  {
    if c.running {
      FeedAgrees(Receipt(c.events, false, c.rx), c.received, chunk);
    }
  }

  lemma StepSteady(c: Client, op: Op)
    requires Steady(c)
    ensures Steady(Step(c, op))
  {
    match op
    case DrainSendQueue(link) => DrainSteady(c, link);
    case Read(chunk, link) => ReadSteady(c, chunk, link);
    case _ =>
  }

  lemma {:induction false} RunSteady(c: Client, ops: seq<Op>)
    requires Steady(c)
    ensures Steady(Run(c, ops))
    decreases |ops|
  {
    if ops != [] {
      StepSteady(c, ops[0]);
      RunSteady(Step(c, ops[0]), ops[1..]);
    }
  }

  /** The items an operation sends, as sendFrame reports them. */
  function SentBy(c: Client, op: Op): seq<Item> {
    if op.DrainSendQueue? then Drained(c, op.link).sent else []
  }

  function Sent(c: Client, ops: seq<Op>): seq<Item>
    decreases |ops|
  {
    if ops == [] then [] else SentBy(c, ops[0]) + Sent(Step(c, ops[0]), ops[1..])
  }

  lemma DrainConserved(c: Client, link: Link)
    requires Filled(c.queue)
    ensures multiset(Drained(c, link).sent) + multiset(Drained(c, link).queue) == multiset(c.queue)
  {
    var d := Drain(c.queue, 0, 0, [], c.wire);
    DrainConserves(d, c.sockOpen, link);
    DrainKeepsFilled(d, c.sockOpen, link);
    FilledIsNonEmpty(c.queue);
    FilledIsNonEmpty(Drained(c, link).queue);
  }

  lemma EnqueueConserved(c: Client, item: Item)
    ensures multiset(Enqueue(c, item).queue) + multiset(c.accepted)
         == multiset(c.queue) + multiset(Enqueue(c, item).accepted)
  {}

  lemma StepConserved(c: Client, op: Op)
    requires Filled(c.queue)
    ensures multiset(SentBy(c, op)) + multiset(Step(c, op).queue) + multiset(c.accepted)
         == multiset(c.queue) + multiset(Step(c, op).accepted)
  {
    match op
    case DrainSendQueue(link) => DrainConserved(c, link);
    case SendBinary(data) => EnqueueConserved(c, Item(data, true));
    case SendMessage(data) => EnqueueConserved(c, Item(data, false));
    case _ =>
  }

  /** Two balances make one. */
  lemma Cancel<T>(sent: multiset<T>, mid: multiset<T>, given: multiset<T>, start: multiset<T>,
                  taken: multiset<T>, later: multiset<T>, end: multiset<T>, all: multiset<T>)
    requires sent + mid + given == start + taken && later + end + taken == mid + all
    ensures (sent + later) + end + given == start + all
  {
    forall x: T ensures ((sent + later) + end + given)[x] == (start + all)[x] {
      assert (sent + mid + given)[x] == (start + taken)[x];
      assert (later + end + taken)[x] == (mid + all)[x];
    }
  }

  lemma {:induction false} RunConserves(c: Client, ops: seq<Op>)
    requires Steady(c)
    ensures multiset(Sent(c, ops)) + multiset(Run(c, ops).queue) + multiset(c.accepted)
         == multiset(c.queue) + multiset(Run(c, ops).accepted)
    decreases |ops|
  {
    if ops != [] {
      var next := Step(c, ops[0]);
      StepConserved(c, ops[0]);
      StepSteady(c, ops[0]);
      RunConserves(next, ops[1..]);
      Cancel(multiset(SentBy(c, ops[0])), multiset(next.queue), multiset(c.accepted), multiset(c.queue),
             multiset(next.accepted), multiset(Sent(next, ops[1..])), multiset(Run(c, ops).queue),
             multiset(Run(c, ops).accepted));
    }
  }

  // ---- The order of what is sent, whatever part of a frame a failed write took ----

  ghost predicate AllOrderly(c: Client, ops: seq<Op>)
    decreases |ops|
  {
    ops == [] || (Orderly(c, ops[0]) && AllOrderly(Step(c, ops[0]), ops[1..]))
  }

  lemma SmallerPart(a: seq<Item>, b: seq<Item>, c: seq<Item>)
    requires multiset(a) + multiset(b) == multiset(c)
    ensures |a| <= |c|
  {
    assert |multiset(a) + multiset(b)| == |a| + |b|;
  }

  lemma EnqueueOrders(c: Client, op: Op, before: seq<Item>)
    requires c.accepted == before + c.queue && !op.DrainSendQueue?
    ensures Step(c, op).accepted == before + Step(c, op).queue
  {
    match op
    case SendBinary(data) => Assoc(before, c.queue, [Item(data, true)]);
    case SendMessage(data) => Assoc(before, c.queue, [Item(data, false)]);
    case _ =>
  }

  lemma DrainOrders(c: Client, link: Link)
    requires Filled(c.queue)
    ensures NoRecovery(c.queue, c.sockOpen, link, 0) ==> Drained(c, link).sent + Drained(c, link).queue == c.queue
    ensures !NoRecovery(c.queue, c.sockOpen, link, 0) && Distinct(c.queue) ==> !(Drained(c, link).sent <= c.queue)
    ensures |Drained(c, link).sent| <= |c.queue|
  {
    var d := Drain(c.queue, 0, 0, [], c.wire);
    FilledIsNonEmpty(c.queue);
    DrainConserved(c, link);
    SmallerPart(Drained(c, link).sent, Drained(c, link).queue, c.queue);
    assert [] + c.queue == c.queue;
    if NoRecovery(c.queue, c.sockOpen, link, 0) {
      DrainKeepsOrder(d, c.sockOpen, link);
    } else if Distinct(c.queue) {
      RecoveryReorders(d, c.sockOpen, link);
    }
  }

  /** An orderly operation moves items from the front of the queue to what has been sent. */
  lemma StepOrders(c: Client, op: Op, before: seq<Item>)
    requires Filled(c.queue) && c.accepted == before + c.queue && Orderly(c, op)
    ensures Step(c, op).accepted == (before + SentBy(c, op)) + Step(c, op).queue
  {
    if op.DrainSendQueue? {
      DrainOrders(c, op.link);
      Assoc(before, SentBy(c, op), Step(c, op).queue);
    } else {
      assert before + [] == before;
      EnqueueOrders(c, op, before);
    }
  }

  lemma {:induction false} RunOrders(c: Client, ops: seq<Op>, before: seq<Item>)
    requires Steady(c) && c.accepted == before + c.queue && AllOrderly(c, ops)
    ensures Run(c, ops).accepted == (before + Sent(c, ops)) + Run(c, ops).queue
    decreases |ops|
  {
    if ops == [] {
      assert before + [] == before;
    } else {
      StepOrders(c, ops[0], before);
      StepSteady(c, ops[0]);
      RunOrders(Step(c, ops[0]), ops[1..], before + SentBy(c, ops[0]));
      Assoc(before, SentBy(c, ops[0]), Sent(Step(c, ops[0]), ops[1..]));
    }
  }

  lemma {:induction false} AcceptedGrows(c: Client, ops: seq<Op>)
    ensures c.accepted <= Run(c, ops).accepted
    decreases |ops|
  {
    if ops != [] {
      AcceptedGrows(Step(c, ops[0]), ops[1..]);
    }
  }

  /** What was sent out of turn stays so. */
  lemma OutOfTurn(before: seq<Item>, queue: seq<Item>, sent: seq<Item>, more: seq<Item>, end: seq<Item>, all: seq<Item>)
    requires before + queue <= all && |sent| <= |queue| && !(sent <= queue)
    ensures all != (before + (sent + more)) + end
  {
    var n, k := |before|, |before| + |sent|;
    assert ((before + (sent + more)) + end)[n..k] == sent;
    assert all[n..k] == (before + queue)[n..k] == queue[..|sent|];
  }

  lemma SuffixDistinct(before: seq<Item>, queue: seq<Item>, all: seq<Item>)
    requires before + queue <= all && Distinct(all)
    ensures Distinct(queue)
  {
    assert forall i :: 0 <= i < |queue| ==> queue[i] == all[|before| + i];
  }

  lemma {:induction false} RunReorders(c: Client, ops: seq<Op>, before: seq<Item>)
    requires Steady(c) && c.accepted == before + c.queue && Distinct(Run(c, ops).accepted) && !AllOrderly(c, ops)
    ensures Run(c, ops).accepted != (before + Sent(c, ops)) + Run(c, ops).queue
    decreases |ops|
  {
    var next := Step(c, ops[0]);
    if Orderly(c, ops[0]) {
      StepOrders(c, ops[0], before);
      StepSteady(c, ops[0]);
      RunReorders(next, ops[1..], before + SentBy(c, ops[0]));
      Assoc(before, SentBy(c, ops[0]), Sent(next, ops[1..]));
    } else {
      AcceptedGrows(c, ops);
      SuffixDistinct(before, c.queue, Run(c, ops).accepted);
      DrainOrders(c, ops[0].link);
      OutOfTurn(before, c.queue, SentBy(c, ops[0]), Sent(next, ops[1..]), Run(c, ops).queue, Run(c, ops).accepted);
    }
  }

  // ---- What the wire carries ----

  lemma EnqueueKeeps(c: Client, item: Item)
    requires Sound(c) && item.data != [] && |item.data| <= MAX_VECTOR
    ensures Sound(Enqueue(c, item))
  {
    if |c.queue| < MAX_SEND_QUEUE {
      Assoc(ItemsOf(ParseAll(c.wire).frames), c.queue, [item]);
    }
  }

  /** The wire and the queue changed, nothing was accepted or received. */
  lemma StillFaithful(c: Client, wire: seq<byte>, queue: seq<Item>, before: seq<Item>, now: seq<Item>)
    requires Faithful(c) && Delivered(c.wire, before) && Delivered(wire, before + now)
    requires now + queue == c.queue
    ensures Faithful(c.(wire := wire, queue := queue))
  {
    Assoc(before, now, queue);
  }

  lemma DrainedItems(c: Client, link: Link, sent: seq<Item>)
    requires Delivered(c.wire, sent) && Sized(c.queue) && Filled(c.queue)
    requires Admissible(c, DrainSendQueue(link))
    ensures var r := Drained(c, link);
            && Delivered(r.wire, sent + r.sent)
            && Sized(r.queue)
            && r.sent + r.queue == c.queue
  {
    var d := Drain(c.queue, 0, 0, [], c.wire);
    assert sent + [] == sent && [] + c.queue == c.queue;
    FilledIsNonEmpty(c.queue);
    DrainDelivers(d, c.sockOpen, link, sent);
    DrainKeepsOrder(d, c.sockOpen, link);
  }

  lemma DrainKeeps(c: Client, link: Link)
    requires Sound(c) && Admissible(c, DrainSendQueue(link))
    ensures Sound(AfterDrain(c, link))
  {
    var r, sent := Drained(c, link), ItemsOf(ParseAll(c.wire).frames);
    DrainSteady(c, link);
    DrainedItems(c, link, sent);
    StillFaithful(c, r.wire, r.queue, sent, r.sent);
  }

  lemma PayloadIsNoLonger(s: seq<byte>)
    requires ParseFrame(s).Whole?
    ensures |ParseFrame(s).frame.payload| <= |s|
  {}

  lemma {:induction false} EventsAreNoLonger(s: seq<byte>)
    ensures forall i :: 0 <= i < |Consume(s).events| ==> |Consume(s).events[i].payload| <= |s|
  {
    var p := ParseFrame(s);
    if p.Whole? && p.frame.opcode != OP_CLOSE {
      EventsAreNoLonger(s[p.size..]);
      PayloadIsNoLonger(s);
    }
  }

  /** A control frame, whether it gets through or not, adds no data. */
  lemma ControlFrameDelivers(wire: seq<byte>, items: seq<Item>, opcode: byte, data: seq<byte>, open: bool, a: Attempt)
    requires Delivered(wire, items) && Clean(a.writes) && |data| <= MAX_VECTOR
    requires opcode == OP_PING || opcode == OP_PONG || opcode == OP_CLOSE
    ensures Delivered(wire + SentBytes(open, EncodeFrame(opcode, data, a.mask), a.writes), items)
  {
    FrameDelivers(wire, items, opcode, data, open, a);
    assert ItemsOf([Frame(true, opcode, data)]) == [] && items + [] == items;
  }

  /** What every single reply keeps true of the wire, all of them do. */
  lemma {:induction false} PongsKeep(
      wire: seq<byte>, good: seq<byte> -> bool, events: seq<Event>, reply: (seq<byte>, nat) -> seq<byte>, k: nat)
    requires good(wire)
    requires forall i :: 0 <= i < |events| ==> |events[i].payload| <= MAX_VECTOR
    requires forall w: seq<byte>, p: seq<byte>, j: nat ::
               good(w) && |p| <= MAX_VECTOR ==> good(w + reply(p, j))
    ensures good(wire + PongBytes(events, reply, k))
    decreases |events|
  {
    if events == [] {
      assert wire + [] == wire;
    } else if events[0].PongReply? {
      var pong, more := reply(events[0].payload, k), PongBytes(events[1..], reply, k + 1);
      PongsKeep(wire + pong, good, events[1..], reply, k + 1);
      assert wire + pong + more == wire + (pong + more);
    } else {
      PongsKeep(wire, good, events[1..], reply, k);
    }
  }

  /** Pongs are whole frames and no data. */
  lemma PongsDeliver(wire: seq<byte>, items: seq<Item>, events: seq<Event>, open: bool, link: Link)
    requires Delivered(wire, items) && CleanFrom(link, 0)
    requires forall i :: 0 <= i < |events| ==> |events[i].payload| <= MAX_VECTOR
    ensures Delivered(wire + PongBytes(events, PongFrame(open, link), 0), items)
  {
    var good, reply := (w: seq<byte>) => Delivered(w, items), PongFrame(open, link);
    forall w: seq<byte>, p: seq<byte>, j: nat | good(w) && |p| <= MAX_VECTOR
      ensures good(w + reply(p, j))
    {
      ControlFrameDelivers(w, items, OP_PONG, p, open, link(j));
    }
    PongsKeep(wire, good, events, reply, 0);
  }

  lemma ReadKeeps(c: Client, chunk: seq<byte>, link: Link)
    requires Sound(c) && Admissible(c, Read(chunk, link))
    ensures Sound(AfterRead(c, chunk, link))
  {
    ReadSteady(c, chunk, link);
    if c.running {
      var s := c.rx + chunk;
      EventsAreNoLonger(s);
      PongsDeliver(c.wire, ItemsOf(ParseAll(c.wire).frames), Consume(s).events, c.sockOpen, link);
    }
  }

  lemma ControlKeeps(c: Client, opcode: byte, a: Attempt)
    requires Sound(c) && Clean(a.writes) && (opcode == OP_PING || opcode == OP_CLOSE)
    ensures Sound(AfterControl(c, opcode, a))
  {
    ControlFrameDelivers(c.wire, ItemsOf(ParseAll(c.wire).frames), opcode, [], c.sockOpen, a);
  }

  lemma StepKeeps(c: Client, op: Op)
    requires Sound(c) && Admissible(c, op)
    ensures Sound(Step(c, op))
  {
    match op
    case SendBinary(data) => if data != [] { EnqueueKeeps(c, Item(data, true)); }
    case SendMessage(data) => if data != [] { EnqueueKeeps(c, Item(data, false)); }
    case DrainSendQueue(link) => DrainKeeps(c, link);
    case Read(chunk, link) => ReadKeeps(c, chunk, link);
    case Ping(a) => ControlKeeps(c, OP_PING, a);
    case HandshakeDone =>
    case Disconnect =>
    case Cleanup(a) => ControlKeeps(c, OP_CLOSE, a);
  }

  lemma {:induction false} RunKeeps(c: Client, ops: seq<Op>)
    requires Sound(c) && AllAdmissible(c, ops)
    ensures Sound(Run(c, ops))
    decreases |ops|
  {
    if ops != [] {
      StepKeeps(c, ops[0]);
      RunKeeps(Step(c, ops[0]), ops[1..]);
    }
  }

  lemma StartIsSound()
    ensures Sound(Start())
  {
    assert ParseAll([]) == Stream([], []);
  }

  lemma FromNothing<T>(a: multiset<T>, b: multiset<T>, none: multiset<T>, c: multiset<T>)
    requires |none| == 0 && a + b + none == none + c
    ensures a + b == c
  {
    forall x: T ensures (a + b)[x] == c[x] {
      assert none[x] == 0 && (a + b + none)[x] == (none + c)[x];
    }
  }

  /** Sent items and queue are the accepted items, whatever the socket does. */
  lemma NothingLost(ops: seq<Op>)
    ensures multiset(Sent(Start(), ops)) + multiset(Run(Start(), ops).queue) == multiset(Run(Start(), ops).accepted)
  {
    StartIsSound();
    RunConserves(Start(), ops);
    assert Start().accepted == Start().queue == [];
    FromNothing(multiset(Sent(Start(), ops)), multiset(Run(Start(), ops).queue), multiset(Start().queue),
                multiset(Run(Start(), ops).accepted));
  }

  /** Sent items, then queue, are the accepted items in order if no drain recovers; and for
      different items only then. */
  lemma OrderOfRuns(ops: seq<Op>)
    ensures var c := Run(Start(), ops);
            && (AllOrderly(Start(), ops) ==> Sent(Start(), ops) + c.queue == c.accepted)
            && (Distinct(c.accepted) ==> (Sent(Start(), ops) + c.queue == c.accepted <==> AllOrderly(Start(), ops)))
  {
    StartIsSound();
    assert [] + Start().queue == Start().accepted && [] + Sent(Start(), ops) == Sent(Start(), ops);
    if AllOrderly(Start(), ops) {
      RunOrders(Start(), ops, []);
    } else if Distinct(Run(Start(), ops).accepted) {
      RunReorders(Start(), ops, []);
    }
  }

  /** End to end, over every interleaving of producers, drains, reads, pings and closing.
      Whatever the socket does, the queue is bounded, the events are those of the bytes received
      read at once, and sent items and queue are the accepted items; in order, if no drain
      recovers; and the wire carries the accepted items in order, less the queue, if moreover
      writes take all or nothing. */
  lemma EndToEnd(ops: seq<Op>)
    ensures var c := Run(Start(), ops);
            && |c.queue| <= MAX_SEND_QUEUE
            && Agrees(Receipt(c.events, c.peerClosed, c.rx), c.received)
            && multiset(Sent(Start(), ops)) + multiset(c.queue) == multiset(c.accepted)
            && (AllOrderly(Start(), ops) ==> Sent(Start(), ops) + c.queue == c.accepted)
            && (AllAdmissible(Start(), ops) ==> Faithful(c))
  {
    StartIsSound();
    RunSteady(Start(), ops);
    NothingLost(ops);
    OrderOfRuns(ops);
    if AllAdmissible(Start(), ops) {
      RunKeeps(Start(), ops);
    }
  }
}
