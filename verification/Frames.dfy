/** WebSocket frames: what sendFrame writes, what processFrame reads (section 5 of RFC 6455). */
module Frames {
  import opened Bytes

  const OP_TEXT: byte := 0x1
  const OP_BINARY: byte := 0x2
  const OP_CLOSE: byte := 0x8
  const OP_PING: byte := 0x9
  const OP_PONG: byte := 0xA

  /** The most bytes a std::vector<uint8_t> can hold. */
  const MAX_VECTOR: nat := 0x7FFF_FFFF_FFFF_FFFF

  type Mask = m: seq<byte> | |m| == 4 witness [0, 0, 0, 0]

  datatype Frame = Frame(fin: bool, opcode: byte, payload: seq<byte>)

  // ---- Writing ----

  /** data with its i-th byte combined with byte i mod 4 of the mask (section 5.3). */
  function Masked(data: seq<byte>, mask: Mask): (r: seq<byte>)
    ensures |r| == |data|
  {
    seq(|data|, i requires 0 <= i < |data| => data[i] ^ mask[i % 4])
  }

  lemma MaskedTwice(data: seq<byte>, mask: Mask)
    ensures Masked(Masked(data, mask), mask) == data
  {
    forall i | 0 <= i < |data|
      ensures Masked(Masked(data, mask), mask)[i] == data[i]
    {
      XorTwice(data[i], mask[i % 4]);
    }
  }

  /** How many bytes of extended length a payload needs (section 5.2). */
  function LengthBytes(len: nat): nat {
    if len < 126 then 0 else if len < 65536 then 2 else 8
  }

  /** The byte with the mask bit and the short length or the mark of an extended one. */
  function LengthMark(len: nat): byte {
    if len < 126 then 0x80 | ToByte(len) else if len < 65536 then 0x80 | 126 else 0x80 | 127
  }

  function LengthField(len: nat): (r: seq<byte>) {
    [LengthMark(len)] + BigEndian(len, LengthBytes(len))
  }

  function EncodeFrame(opcode: byte, data: seq<byte>, mask: Mask): (f: seq<byte>)
    ensures |f| == 1 + |LengthField(|data|)| + 4 + |data|
  {
    [0x80 | opcode] + LengthField(|data|) + mask + Masked(data, mask)
  }

  // ---- Reading ----

  datatype Parsed =
    | Incomplete
    | Overlong                            // header and payload do not fit a size_t
    | Whole(frame: Frame, size: nat)

  /** The bytes of extended length after a first length byte. */
  function ExtraLength(b: byte): nat {
    var n := ToNat(b & 0x7F);
    if n == 126 then 2 else if n == 127 then 8 else 0
  }

  predicate IsMasked(b: byte) {
    b & 0x80 != 0
  }

  function HeaderSize(b: byte): (h: nat)
    ensures 2 <= h <= 14
  {
    2 + ExtraLength(b) + if IsMasked(b) then 4 else 0
  }

  /** The payload length a complete header announces. */
  function PayloadLength(s: seq<byte>): nat
    requires |s| >= 2 && |s| >= HeaderSize(s[1])
  {
    if ExtraLength(s[1]) == 0 then ToNat(s[1] & 0x7F) else Number(s[2..2 + ExtraLength(s[1])])
  }

  /** The masking key at the end of a masked header. */
  function Key(s: seq<byte>): Mask
    requires |s| >= 2 && |s| >= HeaderSize(s[1]) && IsMasked(s[1])
  {
    s[HeaderSize(s[1]) - 4..HeaderSize(s[1])]
  }

  function Payload(s: seq<byte>): seq<byte>
    requires |s| >= 2 && |s| >= HeaderSize(s[1])
    requires |s| >= HeaderSize(s[1]) + PayloadLength(s)
  {
    var h := HeaderSize(s[1]);
    var data := s[h..h + PayloadLength(s)];
    if IsMasked(s[1]) then Masked(data, Key(s)) else data
  }

  /** The frame at the front of s. The code's size_t sum of header and payload wraps for an
      announced length near 2^64, whose top bit section 5.2 forbids; that is `Overlong`. */
  function ParseFrame(s: seq<byte>): (r: Parsed)
    ensures r.Whole? ==> 2 <= r.size <= |s| && HeaderSize(s[1]) <= |s| && r.size == HeaderSize(s[1]) + PayloadLength(s)
  {
    if |s| < 2 || |s| < HeaderSize(s[1]) then Incomplete
    else if HeaderSize(s[1]) + PayloadLength(s) >= TWO_TO_THE_64 then Overlong
    else if |s| < HeaderSize(s[1]) + PayloadLength(s) then Incomplete
    else Whole(Frame(s[0] & 0x80 != 0, s[0] & 0x0F, Payload(s)), HeaderSize(s[1]) + PayloadLength(s))
  }

  /** All the frames of s, and the bytes after the last one. */
  datatype Stream = Stream(frames: seq<Frame>, rest: seq<byte>)

  function ParseAll(s: seq<byte>): Stream {
    match ParseFrame(s)
    case Whole(frame, size) =>
      var tail := ParseAll(s[size..]);
      Stream([frame] + tail.frames, tail.rest)
    case _ => Stream([], s)
  }

  // ---- More bytes never change a verdict ----

  lemma SlicePrefix(s: seq<byte>, t: seq<byte>, i: nat, j: nat)
    requires i <= j <= |s|
    ensures (s + t)[i..j] == s[i..j]
  {}

  lemma HeaderAppend(s: seq<byte>, t: seq<byte>)
    requires |s| >= 2 && |s| >= HeaderSize(s[1])
    ensures (s + t)[1] == s[1] && PayloadLength(s + t) == PayloadLength(s)
  {
    SlicePrefix(s, t, 2, 2 + ExtraLength(s[1]));
  }

  lemma PayloadAppend(s: seq<byte>, t: seq<byte>)
    requires |s| >= 2 && |s| >= HeaderSize(s[1]) && |s| >= HeaderSize(s[1]) + PayloadLength(s)
    ensures (s + t)[1] == s[1] && PayloadLength(s + t) == PayloadLength(s)
    ensures Payload(s + t) == Payload(s)
  {
    HeaderAppend(s, t);
    var h := HeaderSize(s[1]);
    SlicePrefix(s, t, h, h + PayloadLength(s));
    if IsMasked(s[1]) {
      SlicePrefix(s, t, h - 4, h);
    }
  }

  lemma ParseFrameAppend(s: seq<byte>, t: seq<byte>)
    requires !ParseFrame(s).Incomplete?
    ensures ParseFrame(s + t) == ParseFrame(s)
  {
    HeaderAppend(s, t);
    if ParseFrame(s).Whole? {
      PayloadAppend(s, t);
    }
  }

  function Push(frame: Frame, s: Stream): Stream {
    Stream([frame] + s.frames, s.rest)
  }

  function Join(a: Stream, b: Stream): Stream {
    Stream(a.frames + b.frames, b.rest)
  }

  lemma PushJoin(frame: Frame, a: Stream, b: Stream)
    ensures Push(frame, Join(a, b)) == Join(Push(frame, a), b)
  {
    assert [frame] + (a.frames + b.frames) == [frame] + a.frames + b.frames;
  }

  lemma ParseAllFirst(s: seq<byte>, frame: Frame, size: nat, rest: seq<byte>)
    requires ParseFrame(s) == Whole(frame, size) && rest == s[size..]
    ensures ParseAll(s) == Push(frame, ParseAll(rest))
  {}

  lemma DropAppend(s: seq<byte>, t: seq<byte>, n: nat)
    requires n <= |s|
    ensures (s + t)[n..] == s[n..] + t
  {}

  /** Parsing may stop anywhere and go on with what was left and what came since. */
  lemma {:induction false} ParseAllAppend(s: seq<byte>, t: seq<byte>)
    ensures ParseAll(s + t) == Join(ParseAll(s), ParseAll(ParseAll(s).rest + t))
  {
    if ParseFrame(s).Whole? {
      var frame, size := ParseFrame(s).frame, ParseFrame(s).size;
      var rest := s[size..];
      ParseFrameAppend(s, t);
      DropAppend(s, t, size);
      ParseAllFirst(s, frame, size, rest);
      ParseAllFirst(s + t, frame, size, rest + t);
      ParseAllAppend(rest, t);
      PushJoin(frame, ParseAll(rest), ParseAll(ParseAll(rest).rest + t));
    } else if ParseFrame(s).Overlong? {
      ParseFrameAppend(s, t);
    }
  }

  // ---- Reading back what was written ----

  lemma LengthMarkReads(len: nat)
    ensures IsMasked(LengthMark(len))
    ensures ExtraLength(LengthMark(len)) == LengthBytes(len)
    ensures len < 126 ==> ToNat(LengthMark(len) & 0x7F) == len
    ensures len < TWO_TO_THE_64 && len >= 126 ==> ShiftRight(len, LengthBytes(len)) == 0
  {
    if len < 126 { TopBitBesideSevenBits(len); }
    if 126 <= len < 65536 { FitsIn16Bits(len); }
    if 65536 <= len < TWO_TO_THE_64 { FitsIn64Bits(len); }
  }

  lemma FieldPieces(first: byte, mark: byte, extra: seq<byte>, more: seq<byte>)
    ensures var s := [first] + ([mark] + extra) + more;
            s[1] == mark && s[2..2 + |extra|] == extra
  {}

  /** The length field in front of anything reads back as the length. */
  lemma LengthFieldReads(len: nat, more: seq<byte>, first: byte)
    requires len < TWO_TO_THE_64 && |more| >= 4
    ensures var s := [first] + LengthField(len) + more;
            && s[1] == LengthMark(len)
            && HeaderSize(s[1]) == 1 + |LengthField(len)| + 4
            && PayloadLength(s) == len
  {
    LengthMarkReads(len);
    FieldPieces(first, LengthMark(len), BigEndian(len, LengthBytes(len)), more);
    if len >= 126 {
      NumberOfBigEndian(len, LengthBytes(len));
    }
  }

  lemma OpcodeBits(opcode: byte)
    requires opcode < 16
    ensures (0x80 | opcode) & 0x80 != 0 && (0x80 | opcode) & 0x0F == opcode
  {}

  lemma MiddlePieces(a: seq<byte>, b: seq<byte>, c: seq<byte>, d: seq<byte>)
    ensures var s := a + b + c + d;
            && s[|a|..|a| + |b|] == b
            && s[|a| + |b|..|a| + |b| + |c|] == c
            && s == a + (b + c + d)
  {}

  /** A header in front of a mask and a masked payload is read piece by piece. */
  lemma ParsePieces(s: seq<byte>, opcode: byte, data: seq<byte>, mask: Mask)
    requires opcode < 16 && |data| <= MAX_VECTOR && |s| >= 2 && s[0] == 0x80 | opcode && IsMasked(s[1])
    requires |s| >= HeaderSize(s[1]) + |data| && PayloadLength(s) == |data|
    requires Key(s) == mask && s[HeaderSize(s[1])..HeaderSize(s[1]) + |data|] == Masked(data, mask)
    ensures ParseFrame(s) == Whole(Frame(true, opcode, data), HeaderSize(s[1]) + |data|)
  {
    OpcodeBits(opcode);
    MaskedTwice(data, mask);
  }

  /** One encoded frame parses to itself, whatever follows it. */
  lemma ParseEncoded(opcode: byte, data: seq<byte>, mask: Mask, more: seq<byte>)
    requires opcode < 16 && |data| <= MAX_VECTOR
    ensures ParseFrame(EncodeFrame(opcode, data, mask) + more)
         == Whole(Frame(true, opcode, data), |EncodeFrame(opcode, data, mask)|)
  {
    var head := [0x80 | opcode] + LengthField(|data|);
    MiddlePieces(head, mask, Masked(data, mask), more);
    LengthFieldReads(|data|, mask + Masked(data, mask) + more, 0x80 | opcode);
    LengthMarkReads(|data|);
    ParsePieces(EncodeFrame(opcode, data, mask) + more, opcode, data, mask);
  }

  /** A frame that is cut short is not recognised, and not taken for another. */
  lemma PrefixIncomplete(opcode: byte, data: seq<byte>, mask: Mask, k: nat)
    requires opcode < 16 && |data| <= MAX_VECTOR && k < |EncodeFrame(opcode, data, mask)|
    ensures ParseFrame(EncodeFrame(opcode, data, mask)[..k]).Incomplete?
  {
    var frame := EncodeFrame(opcode, data, mask);
    ParseEncoded(opcode, data, mask, []);
    assert frame + [] == frame && frame[..k] + frame[k..] == frame;
    if !ParseFrame(frame[..k]).Incomplete? {
      ParseFrameAppend(frame[..k], frame[k..]);
    }
  }

  datatype Outgoing = Outgoing(opcode: byte, data: seq<byte>, mask: Mask)

  predicate Sendable(o: Outgoing) {
    o.opcode < 16 && |o.data| <= MAX_VECTOR
  }

  /** The bytes of a list of frames and what a reader should make of them. */
  function EncodeAll(list: seq<Outgoing>): seq<byte> {
    if list == [] then []
    else EncodeFrame(list[0].opcode, list[0].data, list[0].mask) + EncodeAll(list[1..])
  }

  function Intended(list: seq<Outgoing>): seq<Frame> {
    if list == [] then [] else [Frame(true, list[0].opcode, list[0].data)] + Intended(list[1..])
  }

  /** Framing round trip: any list of frames under any masks, with nothing left over. */
  lemma {:induction false} FramingRoundTrip(list: seq<Outgoing>)
    requires forall i :: 0 <= i < |list| ==> Sendable(list[i])
    ensures ParseAll(EncodeAll(list)) == Stream(Intended(list), [])
  {
    if list != [] {
      var o := list[0];
      ParseEncoded(o.opcode, o.data, o.mask, EncodeAll(list[1..]));
      var f := EncodeFrame(o.opcode, o.data, o.mask);
      assert EncodeAll(list)[|f|..] == EncodeAll(list[1..]);
      FramingRoundTrip(list[1..]);
    }
  }

  lemma ParseAllOne(opcode: byte, data: seq<byte>, mask: Mask)
    requires opcode < 16 && |data| <= MAX_VECTOR
    ensures ParseAll(EncodeFrame(opcode, data, mask)) == Stream([Frame(true, opcode, data)], [])
  {
    var list := [Outgoing(opcode, data, mask)];
    FramingRoundTrip(list);
    assert list[1..] == [];
    assert EncodeFrame(opcode, data, mask) + [] == EncodeFrame(opcode, data, mask);
    assert [Frame(true, opcode, data)] + [] == [Frame(true, opcode, data)];
  }

  /** A whole-frame stream followed by one more frame. */
  lemma ParseAllSnoc(s: seq<byte>, opcode: byte, data: seq<byte>, mask: Mask)
    requires opcode < 16 && |data| <= MAX_VECTOR && ParseAll(s).rest == []
    ensures ParseAll(s + EncodeFrame(opcode, data, mask))
         == Stream(ParseAll(s).frames + [Frame(true, opcode, data)], [])
  {
    ParseAllAppend(s, EncodeFrame(opcode, data, mask));
    ParseAllOne(opcode, data, mask);
    assert [] + EncodeFrame(opcode, data, mask) == EncodeFrame(opcode, data, mask);
  }

  lemma {:induction false} NumberBound(s: seq<byte>)
    requires |s| <= 2
    ensures Number(s) < 65536
    ensures |s| <= 1 ==> Number(s) < 256
  {
    if s != [] {
      NumberBound(s[..|s| - 1]);
    }
  }

  /** No masked frame carries the same payload in fewer bytes (minimal form, section 5.2). */
  lemma EncodingIsMinimal(s: seq<byte>, opcode: byte, mask: Mask)
    requires ParseFrame(s).Whole? && IsMasked(s[1])
    ensures |EncodeFrame(opcode, ParseFrame(s).frame.payload, mask)| <= ParseFrame(s).size
  {
    if ExtraLength(s[1]) == 0 {
      SevenBits(s[1]);
      assert PayloadLength(s) < 126;
    } else if ExtraLength(s[1]) == 2 {
      NumberBound(s[2..4]);
    }
  }
}
