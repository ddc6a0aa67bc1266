/** The frame format of sections 5.2 and 5.3 of RFC 6455 in plain numbers, and the proof that the
    client writes it and reads it, masked and unmasked, in all three forms of the length. */
module WireFormat {
  import opened Bytes
  import opened Frames
  import opened Receiver

  /** A frame as it lies on the wire: two bytes, the extended length, the masking key of a masked
      frame and nothing for an unmasked one, and the payload as it is sent. */
  datatype Layout = Layout(first: byte, second: byte, extra: seq<byte>, key: seq<byte>, body: seq<byte>)

  function BytesOf(w: Layout): (s: seq<byte>)
    ensures |s| == 2 + |w.extra| + |w.key| + |w.body|
  {
    [w.first, w.second] + w.extra + w.key + w.body
  }

  /** The second byte without its mask bit. */
  function ShortLength(b: byte): int {
    if b < 128 then b as int else b as int - 128
  }

  function TwoBytes(e: seq<byte>): int
    requires |e| == 2
  {
    256 * (e[0] as int) + e[1] as int
  }

  function FourBytes(e: seq<byte>): int
    requires |e| == 4
  {
    256 * (256 * (256 * (e[0] as int) + e[1] as int) + e[2] as int) + e[3] as int
  }

  /** The payload length announced. */
  function Announced(w: Layout): int
    requires |w.extra| == 0 || |w.extra| == 2 || |w.extra| == 8
  {
    if |w.extra| == 0 then ShortLength(w.second)
    else if |w.extra| == 2 then TwoBytes(w.extra)
    else TWO_TO_THE_32 * FourBytes(w.extra[..4]) + FourBytes(w.extra[4..])
  }

  /** The fields fit each other; a reader takes a length in any form that has room for it. */
  predicate Legal(w: Layout) {
    && |w.extra| == (if ShortLength(w.second) == 126 then 2 else if ShortLength(w.second) == 127 then 8 else 0)
    && |w.key| == (if w.second >= 128 then 4 else 0)
    && |w.body| == Announced(w)
    && |BytesOf(w)| < TWO_TO_THE_64
  }

  /** The payload: section 5.3 combines its i-th byte with byte i mod 4 of the key. */
  predicate Carries(w: Layout, data: seq<byte>) {
    && |data| == |w.body|
    && forall i :: 0 <= i < |data| ==> w.body[i] == if |w.key| == 4 then data[i] ^ w.key[i % 4] else data[i]
  }

  // ---- Numbers ----

  lemma NumberMore(s: seq<byte>, k: nat)
    requires k < |s|
    ensures Number(s[..k + 1]) == 256 * Number(s[..k]) + s[k] as int
  {
    assert s[..k + 1][..k] == s[..k];
  }

  lemma NumberOfFour(s: seq<byte>)
    requires |s| == 4
    ensures Number(s) == FourBytes(s)
  {
    NumberMore(s, 0);
    NumberMore(s, 1);
    NumberMore(s, 2);
    NumberMore(s, 3);
    assert s[..4] == s && s[..0] == [];
  }

  lemma NumberOfEight(s: seq<byte>)
    requires |s| == 8
    ensures Number(s) == TWO_TO_THE_32 * FourBytes(s[..4]) + FourBytes(s[4..])
  {
    NumberOfFour(s[..4]);
    NumberMore(s, 4);
    NumberMore(s, 5);
    NumberMore(s, 6);
    NumberMore(s, 7);
    assert s[..8] == s;
  }

  lemma NumberOfExtra(e: seq<byte>)
    requires |e| == 2 || |e| == 8
    ensures |e| == 2 ==> Number(e) == TwoBytes(e)
    ensures |e| == 8 ==> Number(e) == TWO_TO_THE_32 * FourBytes(e[..4]) + FourBytes(e[4..])
  {
    if |e| == 2 {
      NumberMore(e, 0);
      NumberMore(e, 1);
      assert e[..2] == e && e[..0] == [];
    } else {
      NumberOfEight(e);
    }
  }

  lemma SecondByte(b: byte)
    ensures ToNat(b & 0x7F) == ShortLength(b) && 0 <= ShortLength(b) < 128
    ensures IsMasked(b) <==> b >= 128
  {
    if b < 128 {
      assert b & 0x7F == b;
    } else {
      assert b & 0x7F == b - 128;
    }
  }

  // ---- Reading ----

  lemma Pieces(w: Layout, more: seq<byte>)
    ensures var s, h := BytesOf(w) + more, 2 + |w.extra|;
            && |s| >= 2 && s[0] == w.first && s[1] == w.second
            && s[2..h] == w.extra && s[h..h + |w.key|] == w.key
            && s[h + |w.key|..h + |w.key| + |w.body|] == w.body
  {
    var s := BytesOf(w) + more;
    assert s == [w.first, w.second] + (w.extra + (w.key + (w.body + more)));
  }

  /** The code finds the header where it is. */
  lemma HeaderFound(w: Layout, more: seq<byte>)
    requires Legal(w)
    ensures var s := BytesOf(w) + more;
            && |s| >= 2 && HeaderSize(s[1]) == 2 + |w.extra| + |w.key| <= |s|
            && PayloadLength(s) == |w.body|
  {
    Pieces(w, more);
    SecondByte(w.second);
    if |w.extra| > 0 {
      NumberOfExtra(w.extra);
    }
  }

  lemma Unmasked(body: seq<byte>, key: Mask, data: seq<byte>)
    requires |data| == |body| && forall i :: 0 <= i < |data| ==> body[i] == data[i] ^ key[i % 4]
    ensures Masked(body, key) == data
  {
    forall i | 0 <= i < |data|
      ensures Masked(body, key)[i] == data[i]
    {
      XorTwice(data[i], key[i % 4]);
    }
  }

  lemma PayloadFound(w: Layout, data: seq<byte>, more: seq<byte>)
    requires Legal(w) && Carries(w, data)
    ensures var s := BytesOf(w) + more;
            && |s| >= 2 && |s| >= HeaderSize(s[1]) && |s| >= HeaderSize(s[1]) + PayloadLength(s)
            && Payload(s) == data
  {
    HeaderFound(w, more);
    Pieces(w, more);
    SecondByte(w.second);
    if |w.key| == 4 {
      Unmasked(w.body, w.key, data);
    } else {
      assert w.body == data;
    }
  }

  lemma WholeFrame(s: seq<byte>, size: nat, data: seq<byte>)
    requires |s| >= 2 && |s| >= HeaderSize(s[1]) && HeaderSize(s[1]) + PayloadLength(s) == size
    requires size <= |s| && size < TWO_TO_THE_64 && Payload(s) == data
    ensures ParseFrame(s) == Whole(Frame(s[0] & 0x80 != 0, s[0] & 0x0F, data), size)
  {}

  /** Every legal frame is read as its opcode and payload, whatever follows it: the frames of a
      server, which are not masked, like those of a client. */
  lemma ReadsFrame(w: Layout, data: seq<byte>, more: seq<byte>)
    requires Legal(w) && Carries(w, data)
    ensures ParseFrame(BytesOf(w) + more)
         == Whole(Frame(w.first & 0x80 != 0, w.first & 0x0F, data), |BytesOf(w)|)
  {
    HeaderFound(w, more);
    PayloadFound(w, data, more);
    WholeFrame(BytesOf(w) + more, |BytesOf(w)|, data);
  }

  lemma Cut(s: seq<byte>, i: nat, j: nat, k: nat)
    requires 2 <= i <= j <= k <= |s|
    ensures [s[0], s[1]] + s[2..i] + s[i..j] + s[j..k] == s[..k]
  {}

  /** The fields of a frame the reader recognises. */
  function LayoutOf(s: seq<byte>): Layout
    requires ParseFrame(s).Whole?
  {
    var h, extra := HeaderSize(s[1]), 2 + ExtraLength(s[1]);
    Layout(s[0], s[1], s[2..extra], s[extra..h], s[h..ParseFrame(s).size])
  }

  lemma LayoutBytes(s: seq<byte>)
    requires ParseFrame(s).Whole?
    ensures BytesOf(LayoutOf(s)) == s[..ParseFrame(s).size]
  {
    Cut(s, 2 + ExtraLength(s[1]), HeaderSize(s[1]), ParseFrame(s).size);
  }

  lemma LayoutIsLegal(s: seq<byte>)
    requires ParseFrame(s).Whole?
    ensures Legal(LayoutOf(s))
  {
    var extra := LayoutOf(s).extra;
    LayoutBytes(s);
    SecondByte(s[1]);
    if |extra| > 0 {
      NumberOfExtra(extra);
    }
  }

  lemma CarriesUnmasked(w: Layout, data: seq<byte>)
    requires if |w.key| == 4 then data == Masked(w.body, w.key) else data == w.body
    ensures Carries(w, data)
  {
    if |w.key| == 4 {
      forall i | 0 <= i < |data| ensures w.body[i] == data[i] ^ w.key[i % 4] {
        XorTwice(w.body[i], w.key[i % 4]);
      }
    }
  }

  lemma LayoutPayload(s: seq<byte>)
    requires ParseFrame(s).Whole?
    ensures var w, data := LayoutOf(s), ParseFrame(s).frame.payload;
            if |w.key| == 4 then data == Masked(w.body, w.key) else data == w.body
  {
    if IsMasked(s[1]) {
      assert LayoutOf(s).key == Key(s);
    }
  }

  lemma LayoutCarries(s: seq<byte>)
    requires ParseFrame(s).Whole?
    ensures Carries(LayoutOf(s), ParseFrame(s).frame.payload)
  {
    LayoutPayload(s);
    CarriesUnmasked(LayoutOf(s), ParseFrame(s).frame.payload);
  }

  /** What the reader takes for a frame of so many bytes is exactly what section 5 calls one. */
  lemma ReadsExactly(s: seq<byte>, fin: bool, opcode: byte, data: seq<byte>, size: nat)
    ensures ParseFrame(s) == Whole(Frame(fin, opcode, data), size) <==>
            exists w :: && Legal(w) && Carries(w, data) && BytesOf(w) <= s && |BytesOf(w)| == size
                        && fin == (w.first & 0x80 != 0) && opcode == w.first & 0x0F
  {
    if ParseFrame(s) == Whole(Frame(fin, opcode, data), size) {
      LayoutBytes(s);
      LayoutIsLegal(s);
      LayoutCarries(s);
      assert BytesOf(LayoutOf(s)) <= s;
    }
    forall w | Legal(w) && Carries(w, data) && BytesOf(w) <= s
      ensures ParseFrame(s) == Whole(Frame(w.first & 0x80 != 0, w.first & 0x0F, data), |BytesOf(w)|)
    {
      ReadsFrame(w, data, s[|BytesOf(w)|..]);
      assert BytesOf(w) + s[|BytesOf(w)|..] == s;
    }
  }

  lemma PrefixOfWhole(s: seq<byte>, k: nat)
    requires ParseFrame(s).Whole? && ParseFrame(s).size == |s| && k < |s|
    ensures ParseFrame(s[..k]).Incomplete?
  {
    assert s[..k] + s[k..] == s;
    if !ParseFrame(s[..k]).Incomplete? {
      ParseFrameAppend(s[..k], s[k..]);
    }
  }

  /** A legal frame that has not come whole is waited for. */
  lemma PrefixWaits(w: Layout, data: seq<byte>, k: nat)
    requires Legal(w) && Carries(w, data) && k < |BytesOf(w)|
    ensures ParseFrame(BytesOf(w)[..k]).Incomplete?
  {
    ReadsFrame(w, data, []);
    assert BytesOf(w) + [] == BytesOf(w);
    PrefixOfWhole(BytesOf(w), k);
  }

  // ---- Writing ----

  /** The extended length of the shortest form. */
  function ShortestExtra(len: nat): seq<byte> {
    BigEndian(len, if len < 126 then 0 else if len < 65536 then 2 else 8)
  }

  lemma ShortestAnnounces(len: nat)
    requires len < TWO_TO_THE_64
    ensures var e := ShortestExtra(len);
            && (len < 126 ==> e == [])
            && (126 <= len < 65536 ==> |e| == 2 && TwoBytes(e) == len)
            && (65536 <= len ==> |e| == 8 && TWO_TO_THE_32 * FourBytes(e[..4]) + FourBytes(e[4..]) == len)
  {
    if len >= 126 {
      if len < 65536 { FitsIn16Bits(len); } else { FitsIn64Bits(len); }
      NumberOfBigEndian(len, |ShortestExtra(len)|);
      NumberOfExtra(ShortestExtra(len));
    }
  }

  /** A short length with and without the mask bit. */
  lemma MarkReads(len: nat)
    requires len < 128
    ensures ShortLength(ToByte(len)) == len && ToByte(len) < 128
    ensures ShortLength(0x80 | ToByte(len)) == len && 0x80 | ToByte(len) >= 128
  {
    ToNatToByte(len);
    var b := ToByte(len);
    assert b < 128;
    assert 0x80 | b == 128 + b && 128 + b >= 128;
    SecondByte(0x80 | b);
    assert (0x80 | b) & 0x7F == b;
  }

  /** An unmasked frame in the shortest form, as a server sends it. */
  function Plain(first: byte, data: seq<byte>): Layout {
    var len := |data|;
    Layout(first, if len < 126 then ToByte(len) else if len < 65536 then 126 else 127, ShortestExtra(len), [], data)
  }

  lemma PlainIsLegal(first: byte, data: seq<byte>)
    requires |data| <= MAX_VECTOR
    ensures Legal(Plain(first, data)) && Carries(Plain(first, data), data)
  {
    ShortestAnnounces(|data|);
    if |data| < 126 { MarkReads(|data|); }
  }

  /** What a server sends is read back, whatever its first byte and whatever follows. */
  lemma ReadsServerFrame(first: byte, data: seq<byte>, more: seq<byte>, k: nat)
    requires |data| <= MAX_VECTOR
    ensures var s := BytesOf(Plain(first, data));
            && ParseFrame(s + more) == Whole(Frame(first & 0x80 != 0, first & 0x0F, data), |s|)
            && (k < |s| ==> ParseFrame(s[..k]).Incomplete?)
  {
    PlainIsLegal(first, data);
    ReadsFrame(Plain(first, data), data, more);
    if k < |BytesOf(Plain(first, data))| {
      PrefixWaits(Plain(first, data), data, k);
    }
  }

  /** A client frame: final, masked, in the shortest form. */
  predicate ClientFrame(w: Layout, opcode: byte, data: seq<byte>, mask: Mask) {
    && Legal(w) && Carries(w, data)
    && opcode < 16 && w.first == 128 + opcode
    && w.second >= 128 && w.key == mask
    && |w.extra| == if |data| < 126 then 0 else if |data| < 65536 then 2 else 8
  }

  /** The fields sendFrame writes. */
  function Written(opcode: byte, data: seq<byte>, mask: Mask): Layout {
    Layout(0x80 | opcode, LengthMark(|data|), ShortestExtra(|data|), mask, Masked(data, mask))
  }

  lemma WrittenBytes(opcode: byte, data: seq<byte>, mask: Mask)
    ensures EncodeFrame(opcode, data, mask) == BytesOf(Written(opcode, data, mask))
  {
    var w := Written(opcode, data, mask);
    assert [w.first] + ([w.second] + w.extra) == [w.first, w.second] + w.extra;
  }

  lemma FirstByte(opcode: byte)
    requires opcode < 16
    ensures 0x80 | opcode == 128 + opcode
  {}

  /** sendFrame writes a client frame with the payload under the mask. */
  lemma WritesClientFrame(opcode: byte, data: seq<byte>, mask: Mask)
    requires opcode < 16 && |data| <= MAX_VECTOR
    ensures ClientFrame(Written(opcode, data, mask), opcode, data, mask)
    ensures EncodeFrame(opcode, data, mask) == BytesOf(Written(opcode, data, mask))
  {
    WrittenBytes(opcode, data, mask);
    ShortestAnnounces(|data|);
    FirstByte(opcode);
    if |data| < 126 { MarkReads(|data|); }
  }

  /** The end of the frame: the key, then the payload combined with it byte by byte. */
  lemma MaskedOnTheWire(opcode: byte, data: seq<byte>, mask: Mask, i: nat)
    requires i < |data|
    ensures var f := EncodeFrame(opcode, data, mask);
            var n := |f| - |data|;
            f[n - 4..n] == mask && f[n + i] == data[i] ^ f[n - 4 + i % 4]
  {
    var f := EncodeFrame(opcode, data, mask);
    var n := |f| - |data|;
    assert f[n - 4..n] == mask && f[n..] == Masked(data, mask);
    assert f[n..][i] == f[n + i] && f[n - 4..n][i % 4] == f[n - 4 + i % 4];
  }

  // ---- Whole streams, however they are split ----

  /** The payload of a frame. */
  function DataOf(w: Layout): (data: seq<byte>)
    ensures Carries(w, data)
  {
    if |w.key| != 4 then w.body
    else
      forall i | 0 <= i < |w.body| ensures (w.body[i] ^ w.key[i % 4]) ^ w.key[i % 4] == w.body[i] {
        XorTwice(w.body[i], w.key[i % 4]);
      }
      seq(|w.body|, i requires 0 <= i < |w.body| => w.body[i] ^ w.key[i % 4])
  }

  function StreamBytes(list: seq<Layout>): seq<byte> {
    if list == [] then [] else BytesOf(list[0]) + StreamBytes(list[1..])
  }

  predicate AllLegal(list: seq<Layout>) {
    forall i :: 0 <= i < |list| ==> Legal(list[i])
  }

  function FrameIn(w: Layout): Frame {
    Frame(w.first & 0x80 != 0, w.first & 0x0F, DataOf(w))
  }

  function FramesIn(list: seq<Layout>): seq<Frame> {
    if list == [] then [] else [FrameIn(list[0])] + FramesIn(list[1..])
  }

  lemma {:induction false} ReadsStream(list: seq<Layout>, tail: seq<byte>)
    requires AllLegal(list) && !ParseFrame(tail).Whole?
    ensures ParseAll(StreamBytes(list) + tail) == Stream(FramesIn(list), tail)
  {
    if list == [] {
      assert [] + tail == tail;
    } else {
      var w, rest := list[0], StreamBytes(list[1..]) + tail;
      ReadsFrame(w, DataOf(w), rest);
      ReadsStream(list[1..], tail);
      Assoc(BytesOf(w), StreamBytes(list[1..]), tail);
      assert (BytesOf(w) + rest)[|BytesOf(w)|..] == rest;
      ParseAllFirst(BytesOf(w) + rest, FrameIn(w), |BytesOf(w)|, rest);
    }
  }

  predicate IsClose(w: Layout) {
    w.first & 0x0F == 0x8
  }

  /** What a frame is to cause, told by its first byte: 0x81 is a whole text message, 0x82 a whole
      binary one, and 9 the opcode of a ping; the reserved bits are not looked at. */
  function Effect(w: Layout): seq<Event> {
    if w.first & 0x8F == 0x81 then [TextMessage(DataOf(w))]
    else if w.first & 0x8F == 0x82 then [BinaryMessage(DataOf(w))]
    else if w.first & 0x0F == 0x9 then [PongReply(DataOf(w))]
    else []
  }

  /** The effects of the frames before the first close. */
  function Effects(list: seq<Layout>): seq<Event> {
    if list == [] || IsClose(list[0]) then [] else Effect(list[0]) + Effects(list[1..])
  }

  ghost predicate Closes(list: seq<Layout>) {
    exists i :: 0 <= i < |list| && IsClose(list[i])
  }

  lemma FirstBits(b: byte)
    ensures b & 0x8F == 0x81 <==> b & 0x0F == 0x1 && b & 0x80 != 0
    ensures b & 0x8F == 0x82 <==> b & 0x0F == 0x2 && b & 0x80 != 0
  {}

  lemma EffectOfFrame(w: Layout)
    ensures FrameIn(w).opcode == OP_CLOSE <==> IsClose(w)
    ensures EventsOf(FrameIn(w)) == Effect(w)
  {
    FirstBits(w.first);
  }

  lemma {:induction false} EffectsOfFrames(list: seq<Layout>)
    ensures UpToClose(FramesIn(list)) == Effects(list)
    ensures HasClose(FramesIn(list)) <==> Closes(list)
  {
    if list == [] {
    } else {
      var w, rest := list[0], list[1..];
      EffectOfFrame(w);
      EffectsOfFrames(rest);
      UpToCloseFirst(FrameIn(w), FramesIn(rest));
      HasCloseFirst(FramesIn(list));
      assert FramesIn(list)[1..] == FramesIn(rest);
      assert forall i :: 0 < i < |list| ==> list[i] == rest[i - 1];
      assert forall i :: 0 <= i < |rest| ==> rest[i] == list[i + 1];
    }
  }

  /** End to end on the receive side: the frames a server sends, masked or not, in any form, the
      last one perhaps cut off, however the network splits their bytes, have the effects their
      first bytes call for, up to the first close; without one the cut-off frame is waited for. */
  lemma ReceivesStream(list: seq<Layout>, last: Layout, k: nat, chunks: seq<seq<byte>>)
    requires AllLegal(list) && Legal(last) && k < |BytesOf(last)|
    requires Concat(chunks) == StreamBytes(list) + BytesOf(last)[..k]
    ensures var r := FeedAll(chunks);
            && r.events == Effects(list)
            && (r.closed <==> Closes(list))
            && (!r.closed ==> r.rest == BytesOf(last)[..k])
  {
    PrefixWaits(last, DataOf(last), k);
    ReadsStream(list, BytesOf(last)[..k]);
    EffectsOfFrames(list);
    ChunkingIndependence(chunks);
  }
}
