/** WebSocketClient: the methods that send and receive, proved against ClientModel. */
module WsClient {
  import opened Bytes
  import opened ConnectionState
  import opened Frames
  import opened Receiver
  import opened SendQueue
  import opened ClientModel

  lemma BigEndianOfTwo(n: nat)
    ensures BigEndian(n, 2) == [ToByte(ShiftRight(n, 1) % 256), ToByte(n % 256)]
  {
    assert BigEndian(n / 256, 1) == [] + [ToByte(n / 256 % 256)];
  }

  /** The length bytes sendFrame assembles: one, three or nine. */
  method BuildLength(len: nat) returns (field: seq<byte>)
    ensures field == LengthField(len)
  {
    if len < 126 {
      field := [0x80 | ToByte(len)];
    } else if len < 65536 {
      field := [0x80 | 126];
      field := field + [ToByte(ShiftRight(len, 1) % 256)];
      field := field + [ToByte(len % 256)];
      BigEndianOfTwo(len);
    } else {
      field := [0x80 | 127];
      var i := 8;
      while i > 0
        invariant 0 <= i <= 8
        invariant field == [0x80 | 127] + BigEndian(ShiftRight(len, i), 8 - i)
      {
        i := i - 1;
        field := field + [ToByte(ShiftRight(len, i) % 256)];
      }
    }
  }

  /** The frame sendFrame assembles in its vector. */
  method BuildFrame(opcode: byte, data: seq<byte>, mask: Mask) returns (frame: seq<byte>)
    ensures frame == EncodeFrame(opcode, data, mask)
  {
    var len := |data|;
    frame := [0x80 | opcode];
    var field := BuildLength(len);
    frame := frame + field;
    frame := frame + mask;
    ghost var header := frame;
    var headerSize := |frame|;
    frame := frame + seq(len, _ => 0);
    for i := 0 to len
      invariant |frame| == headerSize + len && frame[..headerSize] == header
      invariant forall k :: 0 <= k < i ==> frame[headerSize + k] == data[k] ^ mask[k % 4]
    {
      frame := frame[headerSize + i := data[i] ^ mask[i % 4]];
    }
    assert frame[headerSize..] == Masked(data, mask);
    assert frame == header + frame[headerSize..];
  }

  lemma NumberOfTwo(s: seq<byte>)
    requires |s| == 2
    ensures Number(s) == ToNat(s[0]) * 256 + ToNat(s[1])
  {
    assert s[..1][..0] == [];
    assert Number(s[..1]) == Number([]) * 256 + ToNat(s[0]);
  }

  /** The header processFrame reads: complete or not, its size, the payload length, the key. */
  method ReadHeader(data: seq<byte>) returns (complete: bool, headerSize: nat, N: nat, maskKey: Mask)
    ensures complete <==> |data| >= 2 && |data| >= HeaderSize(data[1])
    ensures complete ==> headerSize == HeaderSize(data[1]) && N == PayloadLength(data)
    ensures complete && IsMasked(data[1]) ==> maskKey == data[headerSize - 4..headerSize]
  {
    complete, headerSize, N, maskKey := false, 2, 0, [0, 0, 0, 0];
    if |data| < 2 { return; }
    var masked := data[1] & 0x80 != 0;
    N := ToNat(data[1] & 0x7F);
    if N == 126 {
      headerSize := headerSize + 2;
      if |data| < headerSize { return; }
      N := ToNat(data[2]) * 256 + ToNat(data[3]);
      NumberOfTwo(data[2..4]);
    } else if N == 127 {
      headerSize := headerSize + 8;
      if |data| < headerSize { return; }
      N := 0;
      for i := 0 to 8
        invariant N == Number(data[2..2 + i])
      {
        assert data[2..2 + (i + 1)][..i] == data[2..2 + i];
        N := N * 256 + ToNat(data[2 + i]);
      }
    }
    if masked {
      headerSize := headerSize + 4;
      if |data| < headerSize { return; }
      maskKey := data[headerSize - 4..headerSize];
    }
    complete := true;
  }

  lemma NoWrapBelow(n: nat)
    ensures n < TWO_TO_THE_64 ==> n % TWO_TO_THE_64 == n
  {}

  /** The header, and whether the whole frame is there. */
  method FrameBounds(data: seq<byte>) returns (whole: bool, headerSize: nat, N: nat, maskKey: Mask)
    ensures whole <==> ParseFrame(data).Whole?
    ensures whole ==> headerSize == HeaderSize(data[1]) && N == PayloadLength(data)
    ensures whole && IsMasked(data[1]) ==> maskKey == data[headerSize - 4..headerSize]
  {
    whole, headerSize, N, maskKey := ReadHeader(data);
    if !whole { return; }
    NoWrapBelow(headerSize + N);
    if |data| < (headerSize + N) % TWO_TO_THE_64 {
      whole := false;
    } else if headerSize + N >= TWO_TO_THE_64 {
      whole := false;                                     // the sum wrapped: see `Overlong`
    } else if |data| < headerSize + N {
      whole := false;
    }
  }

  /** processFrame was entered in c and is now, with these events behind it, in state now. */
  ghost predicate InProgress(c: Client, now: Client, done: seq<Event>, link: Link) {
    var r := Consume(now.rx);
    && Consume(c.rx) == Receipt(done + r.events, r.closed, r.rest)
    && now == c.(rx := now.rx, events := c.events + done,
                 wire := c.wire + PongBytes(done, PongFrame(c.sockOpen, link), 0))
  }

  lemma Entered(c: Client, link: Link)
    ensures InProgress(c, c, [], link)
  {
    var r := Consume(c.rx);
    assert [] + r.events == r.events && c.events + [] == c.events && c.wire + [] == c.wire;
  }

  /** The state after a close frame. */
  function Closed(c: Client): Client
    requires ParseFrame(c.rx).Whole?
  {
    c.(rx := UnmaskedInPlace(c.rx), state := CLOSING, running := false, peerClosed := true)
  }

  /** Without a whole frame, and on a close frame, the call ends as the specification does. */
  lemma Ends(c: Client, now: Client, done: seq<Event>, link: Link)
    requires InProgress(c, now, done, link)
    ensures !ParseFrame(now.rx).Whole? ==> AfterProcess(c, link) == now
    ensures ParseFrame(now.rx).Whole? && ParseFrame(now.rx).frame.opcode == OP_CLOSE ==>
              AfterProcess(c, link) == Closed(now)
  {
    assert done + [] == done;
  }

  predicate IsAnswered(f: Frame) {
    EventsOf(f) == [PongReply(f.payload)]
  }

  function Reply(f: Frame, open: bool, a: Attempt): seq<byte> {
    if IsAnswered(f) then SentBytes(open, EncodeFrame(OP_PONG, f.payload, a.mask), a.writes) else []
  }

  /** The state after the frame at the front of the buffer, k frames having been sent. */
  function Next(now: Client, link: Link, k: nat): Client
    requires ParseFrame(now.rx).Whole?
  {
    var f := ParseFrame(now.rx).frame;
    now.(rx := now.rx[ParseFrame(now.rx).size..], events := now.events + EventsOf(f),
         wire := now.wire + Reply(f, now.sockOpen, link(k)))
  }

  lemma {:induction false} PongBytesSplit(a: seq<Event>, b: seq<Event>, reply: (seq<byte>, nat) -> seq<byte>, k: nat)
    ensures PongBytes(a + b, reply, k) == PongBytes(a, reply, k) + PongBytes(b, reply, k + Pongs(a))
    ensures Pongs(a + b) == Pongs(a) + Pongs(b)
  {
    if a == [] {
      assert a + b == b;
    } else {
      assert (a + b)[0] == a[0] && (a + b)[1..] == a[1..] + b;
      PongBytesSplit(a[1..], b, reply, if a[0].PongReply? then k + 1 else k);
    }
  }

  /** The replies to one more frame. */
  lemma PongBytesAppend(done: seq<Event>, more: seq<Event>, reply: (seq<byte>, nat) -> seq<byte>)
    requires |more| <= 1
    ensures PongBytes(done + more, reply, 0) == PongBytes(done, reply, 0)
            + if more != [] && more[0].PongReply? then reply(more[0].payload, Pongs(done)) else []
    ensures Pongs(done + more) == Pongs(done) + if more != [] && more[0].PongReply? then 1 else 0
  {
    PongBytesSplit(done, more, reply, 0);
    if more != [] {
      assert more[1..] == [];
    }
  }

  /** Any other frame is one step of the specification. */
  lemma Handled(c: Client, now: Client, done: seq<Event>, link: Link)
    requires InProgress(c, now, done, link)
    requires ParseFrame(now.rx).Whole? && ParseFrame(now.rx).frame.opcode != OP_CLOSE
    ensures var f := ParseFrame(now.rx).frame;
            && InProgress(c, Next(now, link, Pongs(done)), done + EventsOf(f), link)
            && Pongs(done + EventsOf(f)) == Pongs(done) + if IsAnswered(f) then 1 else 0
  {
    var f, rest := ParseFrame(now.rx).frame, Consume(now.rx[ParseFrame(now.rx).size..]);
    PongBytesAppend(done, EventsOf(f), PongFrame(c.sockOpen, link));
    Assoc(done, EventsOf(f), rest.events);
    Assoc(c.events, done, EventsOf(f));
    Assoc(c.wire, PongBytes(done, PongFrame(c.sockOpen, link), 0), Reply(f, now.sockOpen, link(Pongs(done))));
  }

  class WebSocketClient {
    var state: State
    var running: bool
    var sockOpen: bool                 // sockfd_ >= 0
    var sendQueue: seq<Item>
    var rxbuf: seq<byte>

    // The history: bytes taken by the socket, items accepted, bytes received, callbacks made.
    ghost var wire: seq<byte>
    ghost var accepted: seq<Item>
    ghost var received: seq<byte>
    ghost var events: seq<Event>
    ghost var peerClosed: bool

    ghost function View(): Client
      reads this
    {
      Client(state, running, sockOpen, sendQueue, rxbuf, wire, accepted, received, events, peerClosed)
    }

    /** The object once connect() has started the worker. */
    constructor ()
      ensures View() == Start()
    {
      state, running, sockOpen := CONNECTING, true, false;
      sendQueue, rxbuf := [], [];
      wire, accepted, received, events, peerClosed := [], [], [], [], false;
    }

    /** The loop of sendFrame around send() or SSL_write(). */
    method WriteFrame(frame: seq<byte>, writes: Writes) returns (offset: nat)
      modifies `wire
      ensures offset == Taken(writes, 0, |frame|) && wire == old(wire) + frame[..offset]
    {
      var k := 0;
      offset := 0;
      assert wire == old(wire) + frame[..0];
      while offset < |frame|
        invariant 0 <= offset <= |frame| && k >= 0
        invariant wire == old(wire) + frame[..offset]
        invariant Taken(writes, 0, |frame|) == offset + Taken(writes, k, |frame| - offset)
      {
        var n := if writes(k) > |frame| - offset then |frame| - offset else writes(k);
        if n <= 0 {
          break;
        }
        wire := wire + frame[offset..offset + n];
        assert frame[..offset] + frame[offset..offset + n] == frame[..offset + n];
        offset, k := offset + n, k + 1;
      }
    }

    method SendFrame(opcode: byte, data: seq<byte>, a: Attempt) returns (sent: bool)
      modifies `wire
      ensures var frame := EncodeFrame(opcode, data, a.mask);
              && wire == old(wire) + SentBytes(sockOpen, frame, a.writes)
              && sent == Succeeds(sockOpen, frame, a.writes)
    {
      if !sockOpen {
        assert wire + [] == wire;
        return false;
      }
      var frame := BuildFrame(opcode, data, a.mask);
      var offset := WriteFrame(frame, a.writes);
      return offset == |frame|;
    }

    method SendBinary(data: seq<byte>)
      modifies `sendQueue, `accepted
      ensures View() == AfterSendBinary(old(View()), data)
    {
      if |data| == 0 { return; }
      if state != OPEN { return; }
      var item := Item(data, true);
      if |sendQueue| >= MAX_SEND_QUEUE { return; }
      sendQueue := sendQueue + [item];
      accepted := accepted + [item];
    }

    method SendMessage(text: seq<byte>)
      modifies `sendQueue, `accepted
      ensures View() == AfterSendMessage(old(View()), text)
    {
      if |text| == 0 { return; }
      var item := Item(text, false);
      if |sendQueue| >= MAX_SEND_QUEUE { return; }
      sendQueue := sendQueue + [item];
      accepted := accepted + [item];
    }

    method DrainSendQueue(link: Link)
      modifies `sendQueue, `wire
      ensures View() == AfterDrain(old(View()), link)
    {
      var retries := 0;
      ghost var d := Drain(sendQueue, 0, 0, [], wire);
      var calls := 0;
      while |sendQueue| != 0 && retries < |sendQueue|
        invariant retries >= 0 && calls >= 0
        invariant d.queue == sendQueue && d.retries == retries && d.calls == calls && d.wire == wire
        invariant DrainAll(d, sockOpen, link) == Drained(old(View()), link)
        decreases |sendQueue|, |sendQueue| - retries
      {
        d := DrainStep(d, sockOpen, link);
        var item := sendQueue[0];
        sendQueue := sendQueue[1..];
        if |item.data| == 0 { continue; }
        var sent := SendFrame(if item.isBinary then OP_BINARY else OP_TEXT, item.data, link(calls));
        calls := calls + 1;
        if !sent {
          sendQueue := sendQueue + [item];
          retries := retries + 1;
        } else {
          retries := 0;
        }
      }
    }

    /** payload[i] ^= maskKey[i & 3] for the N bytes behind the header. */
    method Unmask(headerSize: nat, N: nat, maskKey: Mask)
      requires headerSize + N <= |rxbuf|
      modifies `rxbuf
      ensures rxbuf == MaskedAt(old(rxbuf), headerSize, N, maskKey)
    {
      for i := 0 to N
        invariant |rxbuf| == |old(rxbuf)|
        invariant forall k :: 0 <= k < |rxbuf| ==>
                    rxbuf[k] == if headerSize <= k < headerSize + i
                                then old(rxbuf)[k] ^ maskKey[(k - headerSize) % 4] else old(rxbuf)[k]
      {
        rxbuf := rxbuf[headerSize + i := rxbuf[headerSize + i] ^ maskKey[i % 4]];
      }
    }

    /** The branches of processFrame on the opcode of a frame that is not a close frame. */
    method Deliver(f: Frame, a: Attempt) returns (replied: bool)
      modifies `events, `wire
      ensures events == old(events) + EventsOf(f)
      ensures wire == old(wire) + Reply(f, sockOpen, a)
      ensures replied == IsAnswered(f)
    {
      replied := false;
      if f.opcode == OP_TEXT && f.fin {
        events := events + [TextMessage(f.payload)];
      } else if f.opcode == OP_BINARY && f.fin {
        events := events + [BinaryMessage(f.payload)];
      } else if f.opcode == OP_PING {
        var _ := SendFrame(OP_PONG, f.payload, a);
        events := events + [PongReply(f.payload)];
        replied := true;
      }
    }

    /** Unmask the payload of the frame at the front of the buffer where it lies. */
    method UnmaskFront(headerSize: nat, N: nat, maskKey: Mask)
      requires ParseFrame(rxbuf).Whole? && headerSize == HeaderSize(rxbuf[1]) && N == PayloadLength(rxbuf)
      requires IsMasked(rxbuf[1]) ==> maskKey == rxbuf[headerSize - 4..headerSize]
      modifies `rxbuf
      ensures rxbuf == UnmaskedInPlace(old(rxbuf))
    {
      if rxbuf[1] & 0x80 != 0 {
        Unmask(headerSize, N, maskKey);
      }
    }

    /** The frame at the front of the buffer, its payload unmasked. */
    method FrontFrame() returns (whole: bool, frame: Frame, size: nat)
      modifies `rxbuf
      ensures whole <==> ParseFrame(old(rxbuf)).Whole?
      ensures !whole ==> rxbuf == old(rxbuf)
      ensures whole ==> ParseFrame(old(rxbuf)) == Whole(frame, size) && rxbuf == UnmaskedInPlace(old(rxbuf))
      ensures whole ==> size <= |rxbuf| && rxbuf[size..] == old(rxbuf)[size..]
    {
      frame, size := Frame(false, 0, []), 0;
      var headerSize, N, maskKey;
      whole, headerSize, N, maskKey := FrameBounds(rxbuf);
      if !whole { return; }
      var fin, opcode := rxbuf[0] & 0x80 != 0, rxbuf[0] & 0x0F;
      UnmaskFront(headerSize, N, maskKey);
      UnmaskedPieces(old(rxbuf));
      frame, size := Frame(fin, opcode, rxbuf[headerSize..headerSize + N]), headerSize + N;
    }

    /** The body of processFrame's loop. */
    method ProcessOne(link: Link, calls: nat) returns (more: bool, replied: bool)
      modifies this
      ensures more <==> ParseFrame(old(rxbuf)).Whole? && ParseFrame(old(rxbuf)).frame.opcode != OP_CLOSE
      ensures more ==> replied == IsAnswered(ParseFrame(old(rxbuf)).frame)
      ensures View() ==
              if !ParseFrame(old(rxbuf)).Whole? then old(View())
              else if ParseFrame(old(rxbuf)).frame.opcode == OP_CLOSE then Closed(old(View()))
              else Next(old(View()), link, calls)
    {
      more, replied := false, false;
      var whole, frame, size := FrontFrame();
      if !whole { return; }
      if frame.opcode == OP_CLOSE {
        state := CLOSING;
        running := false;
        peerClosed := true;
        return;
      }
      replied := Deliver(frame, link(calls));
      rxbuf := rxbuf[size..];
      more := true;
    }

    /** processFrame: frame after frame is taken off the front of the buffer until none there
        is whole or one is a close frame. */
    method ProcessFrame(link: Link)
      modifies this
      ensures View() == AfterProcess(old(View()), link)
    {
      ghost var entry := View();
      ghost var done: seq<Event> := [];
      var calls := 0;
      Entered(entry, link);
      while |rxbuf| != 0
        invariant InProgress(entry, View(), done, link) && calls == Pongs(done)
      {
        ghost var now := View();
        var more, replied := ProcessOne(link, calls);
        if !more {
          Ends(entry, now, done, link);
          return;
        }
        Handled(entry, now, done, link);
        done := done + EventsOf(ParseFrame(now.rx).frame);
        calls := if replied then calls + 1 else calls;
      }
      Ends(entry, View(), done, link);
    }

    /** A successful read in the poll loop: append and process. */
    method Read(chunk: seq<byte>, link: Link)
      modifies this
      ensures View() == AfterRead(old(View()), chunk, link)
    {
      if running {
        rxbuf := rxbuf + chunk;
        received := received + chunk;
        ProcessFrame(link);
      }
    }

    /** The keep-alive ping. */
    method Ping(a: Attempt)
      modifies `wire
      ensures View() == AfterControl(old(View()), OP_PING, a)
    {
      var _ := SendFrame(OP_PING, [], a);
    }

    /** The stores of disconnect(); the join is part of Worker. */
    method Disconnect()
      modifies `state, `running
      ensures View() == AfterDisconnect(old(View()))
    {
      var s := state;
      if s != DISCONNECTED && s != CLOSED {
        state := CLOSING;
        running := false;
      }
    }

    /** The end of threadFunc: a closing frame, the socket closed, the state exchanged. */
    method Cleanup(a: Attempt) returns (oldState: State)
      modifies this
      ensures View() == Step(old(View()), Op.Cleanup(a)) && oldState == old(state)
    {
      if sockOpen {
        var _ := SendFrame(OP_CLOSE, [], a);
        sockOpen := false;
      }
      oldState, state := state, CLOSED;
      assert old(wire) + [] == old(wire);
    }
  }
}
