/** The receive side: processFrame over a growing buffer, against a one-shot reader. */
module Receiver {
  import opened Bytes
  import opened Frames

  datatype Event =
    | TextMessage(payload: seq<byte>)       // onMessage_
    | BinaryMessage(payload: seq<byte>)     // onBinary_
    | PongReply(payload: seq<byte>)         // sendFrame(0xA, payload)

  /** What a frame that is not a close frame causes; unfinished, continuation and pong frames
      cause nothing, and a ping is answered whatever its final bit says. */
  function EventsOf(f: Frame): seq<Event> {
    if f.opcode == OP_TEXT && f.fin then [TextMessage(f.payload)]
    else if f.opcode == OP_BINARY && f.fin then [BinaryMessage(f.payload)]
    else if f.opcode == OP_PING then [PongReply(f.payload)]
    else []
  }

  // ---- One shot: all the frames first, then the events up to the first close ----

  predicate HasClose(frames: seq<Frame>) {
    exists i :: 0 <= i < |frames| && frames[i].opcode == OP_CLOSE
  }

  function UpToClose(frames: seq<Frame>): seq<Event> {
    if frames == [] || frames[0].opcode == OP_CLOSE then []
    else EventsOf(frames[0]) + UpToClose(frames[1..])
  }

  lemma HasCloseAppend(a: seq<Frame>, b: seq<Frame>)
    ensures HasClose(a + b) <==> HasClose(a) || HasClose(b)
  {
    if HasClose(a) {
      var i :| 0 <= i < |a| && a[i].opcode == OP_CLOSE;
      assert (a + b)[i] == a[i];
    }
    if HasClose(b) {
      var i :| 0 <= i < |b| && b[i].opcode == OP_CLOSE;
      assert (a + b)[|a| + i] == b[i];
    }
  }

  lemma HasCloseFirst(a: seq<Frame>)
    requires a != []
    ensures HasClose(a) <==> a[0].opcode == OP_CLOSE || HasClose(a[1..])
  {
    assert [a[0]] + a[1..] == a;
    HasCloseAppend([a[0]], a[1..]);
    assert HasClose([a[0]]) <==> [a[0]][0].opcode == OP_CLOSE;
  }

  lemma UpToCloseFirst(f: Frame, rest: seq<Frame>)
    ensures UpToClose([f] + rest) == if f.opcode == OP_CLOSE then [] else EventsOf(f) + UpToClose(rest)
  {
    assert ([f] + rest)[1..] == rest;
  }

  lemma {:induction false} UpToCloseAppend(a: seq<Frame>, b: seq<Frame>)
    ensures UpToClose(a + b) == if HasClose(a) then UpToClose(a) else UpToClose(a) + UpToClose(b)
  {
    if a == [] {
      assert a + b == b;
    } else {
      HasCloseFirst(a);
      assert a == [a[0]] + a[1..] && a + b == [a[0]] + (a[1..] + b);
      UpToCloseFirst(a[0], a[1..]);
      UpToCloseFirst(a[0], a[1..] + b);
      if a[0].opcode != OP_CLOSE {
        UpToCloseAppend(a[1..], b);
        assert EventsOf(a[0]) + (UpToClose(a[1..]) + UpToClose(b))
            == EventsOf(a[0]) + UpToClose(a[1..]) + UpToClose(b);
      }
    }
  }

  // ---- processFrame ----

  datatype Receipt = Receipt(events: seq<Event>, closed: bool, rest: seq<byte>)

  /** s with the n bytes from position h combined with the mask. */
  function MaskedAt(s: seq<byte>, h: nat, n: nat, mask: Mask): (r: seq<byte>)
    requires h + n <= |s|
    ensures |r| == |s|
    ensures r[h..h + n] == Masked(s[h..h + n], mask) && r[h + n..] == s[h + n..]
  {
    s[..h] + Masked(s[h..h + n], mask) + s[h + n..]
  }

  /** The buffer with the payload of its first frame unmasked where it lies. */
  function UnmaskedInPlace(s: seq<byte>): (r: seq<byte>)
    requires ParseFrame(s).Whole?
  {
    if IsMasked(s[1]) then MaskedAt(s, HeaderSize(s[1]), PayloadLength(s), Key(s)) else s
  }

  lemma UnmaskedPieces(s: seq<byte>)
    requires ParseFrame(s).Whole?
    ensures var r, h, n := UnmaskedInPlace(s), HeaderSize(s[1]), PayloadLength(s);
            |r| == |s| && r[h..h + n] == Payload(s) && r[h + n..] == s[h + n..]
  {}

  /** What one call of processFrame does with buffer s. A close frame ends it at once and stays
      in the buffer. */
  function Consume(s: seq<byte>): Receipt {
    match ParseFrame(s)
    case Whole(frame, size) =>
      if frame.opcode == OP_CLOSE then Receipt([], true, UnmaskedInPlace(s))
      else
        var r := Consume(s[size..]);
        Receipt(EventsOf(frame) + r.events, r.closed, r.rest)
    case _ => Receipt([], false, s)
  }

  /** r says of byte stream s what the one-shot reader says. */
  ghost predicate Agrees(r: Receipt, s: seq<byte>) {
    var all := ParseAll(s);
    && r.events == UpToClose(all.frames)
    && (r.closed <==> HasClose(all.frames))
    && (!r.closed ==> r.rest == all.rest && !ParseFrame(r.rest).Whole?)
  }

  lemma {:induction false} ConsumeAgrees(s: seq<byte>)
    ensures Agrees(Consume(s), s)
  {
    var p := ParseFrame(s);
    if p.Whole? {
      ConsumeAgrees(s[p.size..]);
      var frames := ParseAll(s).frames;
      HasCloseFirst(frames);
      assert frames[0] == p.frame && frames[1..] == ParseAll(s[p.size..]).frames;
    }
  }

  // ---- Chunk by chunk ----

  /** One read: the chunk is appended and processFrame called, unless a close frame has
      already ended the loop. */
  function Feed(r: Receipt, chunk: seq<byte>): Receipt {
    if r.closed then r
    else
      var c := Consume(r.rest + chunk);
      Receipt(r.events + c.events, c.closed, c.rest)
  }

  function FeedAll(chunks: seq<seq<byte>>): Receipt {
    if chunks == [] then Receipt([], false, [])
    else Feed(FeedAll(chunks[..|chunks| - 1]), chunks[|chunks| - 1])
  }

  lemma FeedAgrees(r: Receipt, s: seq<byte>, chunk: seq<byte>)
    requires Agrees(r, s)
    ensures Agrees(Feed(r, chunk), s + chunk)
  {
    ParseAllAppend(s, chunk);
    var a, b := ParseAll(s), ParseAll(ParseAll(s).rest + chunk);
    UpToCloseAppend(a.frames, b.frames);
    HasCloseAppend(a.frames, b.frames);
    ConsumeAgrees(a.rest + chunk);
  }

  /** However the network splits a stream, the events are those of the whole stream read at
      once, up to the first close; without a close what is left is no whole frame. */
  lemma {:induction false} ChunkingIndependence(chunks: seq<seq<byte>>)
    ensures Agrees(FeedAll(chunks), Concat(chunks))
  {
    if chunks != [] {
      var n := |chunks| - 1;
      ChunkingIndependence(chunks[..n]);
      ConcatSnoc(chunks[..n], chunks[n]);
      assert chunks == chunks[..n] + [chunks[n]];
      FeedAgrees(FeedAll(chunks[..n]), Concat(chunks[..n]), chunks[n]);
    }
  }
}
