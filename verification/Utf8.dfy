/** The UTF-8 check on C strings, against the encoding of section 3 of RFC 3629. */
module Utf8 {
  import opened Bytes

  // ---- RFC 3629 ----

  /** A Unicode scalar value other than U+0000, which ends a C string. */
  predicate Scalar(c: bv32) {
    0 < c <= 0x10FFFF && !(0xD800 <= c <= 0xDFFF)
  }

  function Low(x: bv32): byte {
    (x & 0xFF) as bv8
  }

  function Trail(x: bv32): byte {
    0x80 | Low(x & 0x3F)
  }

  /** Section 3: the octets of a scalar value. */
  function Encode(c: bv32): (s: seq<byte>)
    ensures 1 <= |s| <= 4
  {
    if c < 0x80 then [Low(c)]
    else if c < 0x800 then [0xC0 | Low(c >> 6), Trail(c)]
    else if c < 0x10000 then [0xE0 | Low(c >> 12), Trail(c >> 6), Trail(c)]
    else [0xF0 | Low(c >> 18), Trail(c >> 12), Trail(c >> 6), Trail(c)]
  }

  function EncodeAll(cs: seq<bv32>): seq<byte> {
    if cs == [] then [] else Encode(cs[0]) + EncodeAll(cs[1..])
  }

  ghost predicate Scalars(cs: seq<bv32>) {
    forall i :: 0 <= i < |cs| ==> Scalar(cs[i])
  }

  ghost predicate IsUtf8(s: seq<byte>) {
    exists cs :: Scalars(cs) && EncodeAll(cs) == s
  }

  // ---- The characters of a C string ----

  ghost predicate NoNul(s: seq<byte>) {
    forall i :: 0 <= i < |s| ==> s[i] != 0
  }

  /** str[k], the terminator included and nothing beyond it. */
  function At(str: seq<byte>, k: nat): byte
    requires k <= |str|
  {
    if k == |str| then 0 else str[k]
  }

  predicate Continues(b: byte) {
    b & 0xC0 == 0x80
  }

  function Bits(b: byte, mask: byte): bv32 {
    (b & mask) as bv32
  }

  function Two(b: byte, c: byte): bv32 {
    (Bits(b, 0x1F) << 6) | Bits(c, 0x3F)
  }

  function Three(b: byte, c: byte, d: byte): bv32 {
    (Bits(b, 0x0F) << 12) | (Bits(c, 0x3F) << 6) | Bits(d, 0x3F)
  }

  function Four(b: byte, c: byte, d: byte, e: byte): bv32 {
    (Bits(b, 0x07) << 18) | (Bits(c, 0x3F) << 12) | (Bits(d, 0x3F) << 6) | Bits(e, 0x3F)
  }

  // ---- Bit by bit ----

  lemma OneByte(b: byte)
    requires b & 0x80 == 0 && b != 0
    ensures Scalar(Bits(b, 0xFF)) && Encode(Bits(b, 0xFF)) == [b]
  {}

  lemma TwoBits(b: byte, c: byte, x: bv32)
    requires b & 0xE0 == 0xC0 && Continues(c) && x == Two(b, c)
    ensures x < 0x800 && 0xC0 | Low(x >> 6) == b && Trail(x) == c
  {}

  lemma TwoBytes(x: bv32, b: byte, c: byte)
    requires 0x80 <= x < 0x800 && 0xC0 | Low(x >> 6) == b && Trail(x) == c
    ensures Scalar(x) && Encode(x) == [b, c]
  {}

  lemma ThreeBits(b: byte, c: byte, d: byte, x: bv32)
    requires b & 0xF0 == 0xE0 && Continues(c) && Continues(d) && x == Three(b, c, d)
    ensures x < 0x10000 && 0xE0 | Low(x >> 12) == b && Trail(x >> 6) == c && Trail(x) == d
  {}

  lemma ThreeBytes(x: bv32, b: byte, c: byte, d: byte)
    requires 0x800 <= x < 0x10000 && 0xE0 | Low(x >> 12) == b && Trail(x >> 6) == c && Trail(x) == d
    ensures Encode(x) == [b, c, d]
  {}

  lemma FourBits(b: byte, c: byte, d: byte, e: byte, x: bv32)
    requires b & 0xF8 == 0xF0 && Continues(c) && Continues(d) && Continues(e) && x == Four(b, c, d, e)
    ensures 0xF0 | Low(x >> 18) == b && Trail(x >> 12) == c && Trail(x >> 6) == d && Trail(x) == e
  {}

  lemma FourBytes(x: bv32, b: byte, c: byte, d: byte, e: byte)
    requires 0x10000 <= x && 0xF0 | Low(x >> 18) == b && Trail(x >> 12) == c && Trail(x >> 6) == d && Trail(x) == e
    ensures Encode(x) == [b, c, d, e]
  {}

  lemma TrailContinues(x: bv32)
    ensures Continues(Trail(x))
  {}

  lemma LeadOfTwo(x: bv32, b: byte)
    requires 0x80 <= x < 0x800 && b == 0xC0 | Low(x >> 6)
    ensures b & 0x80 != 0 && b & 0xE0 == 0xC0
  {}

  lemma LeadOfThree(x: bv32, b: byte)
    requires 0x800 <= x < 0x10000 && b == 0xE0 | Low(x >> 12)
    ensures b & 0x80 != 0 && b & 0xE0 != 0xC0 && b & 0xF0 == 0xE0
  {}

  lemma LeadOfFour(x: bv32, b: byte)
    requires 0x10000 <= x <= 0x10FFFF && b == 0xF0 | Low(x >> 18)
    ensures b & 0x80 != 0 && b & 0xE0 != 0xC0 && b & 0xF0 != 0xE0 && b & 0xF8 == 0xF0
  {}

  lemma JoinTwo(x: bv32, b: byte, c: byte)
    requires x < 0x800 && b == 0xC0 | Low(x >> 6) && c == Trail(x)
    ensures Two(b, c) == x
  {}

  lemma JoinThree(x: bv32, b: byte, c: byte, d: byte)
    requires x < 0x10000 && b == 0xE0 | Low(x >> 12) && c == Trail(x >> 6) && d == Trail(x)
    ensures Three(b, c, d) == x
  {}

  lemma JoinFour(x: bv32, b: byte, c: byte, d: byte, e: byte)
    requires x <= 0x10FFFF && b == 0xF0 | Low(x >> 18) && c == Trail(x >> 12) && d == Trail(x >> 6) && e == Trail(x)
    ensures Four(b, c, d, e) == x
  {}

  lemma OfOne(x: bv32) returns (b: byte)
    requires 0 < x < 0x80
    ensures Encode(x) == [b] && b & 0x80 == 0 && b != 0 && Bits(b, 0xFF) == x
  {
    b := Low(x);
  }

  lemma OfTwo(x: bv32) returns (b: byte, c: byte)
    requires 0x80 <= x < 0x800
    ensures Encode(x) == [b, c] && b & 0x80 != 0 && b & 0xE0 == 0xC0 && Continues(c) && Two(b, c) == x
  {
    b, c := 0xC0 | Low(x >> 6), Trail(x);
    LeadOfTwo(x, b);
    TrailContinues(x);
    JoinTwo(x, b, c);
  }

  lemma OfThree(x: bv32) returns (b: byte, c: byte, d: byte)
    requires 0x800 <= x < 0x10000
    ensures Encode(x) == [b, c, d] && b & 0x80 != 0 && b & 0xE0 != 0xC0 && b & 0xF0 == 0xE0
    ensures Continues(c) && Continues(d) && Three(b, c, d) == x
  {
    b, c, d := 0xE0 | Low(x >> 12), Trail(x >> 6), Trail(x);
    LeadOfThree(x, b);
    TrailContinues(x >> 6);
    TrailContinues(x);
    JoinThree(x, b, c, d);
  }

  lemma OfFour(x: bv32) returns (b: byte, c: byte, d: byte, e: byte)
    requires 0x10000 <= x <= 0x10FFFF
    ensures Encode(x) == [b, c, d, e]
    ensures b & 0x80 != 0 && b & 0xE0 != 0xC0 && b & 0xF0 != 0xE0 && b & 0xF8 == 0xF0
    ensures Continues(c) && Continues(d) && Continues(e) && Four(b, c, d, e) == x
  {
    b, c, d, e := 0xF0 | Low(x >> 18), Trail(x >> 12), Trail(x >> 6), Trail(x);
    LeadOfFour(x, b);
    TrailContinues(x >> 12);
    TrailContinues(x >> 6);
    TrailContinues(x);
    JoinFour(x, b, c, d, e);
  }

  // ---- One sequence ----

  /** A sequence the check accepts: its scalar value and its length. */
  datatype Found = Nothing | Found(scalar: bv32, length: nat)

  predicate ContinuesAt(str: seq<byte>, k: nat) {
    k < |str| && Continues(str[k])
  }

  function LeadTwo(str: seq<byte>): Found
    requires str != []
  {
    if !ContinuesAt(str, 1) || Two(str[0], str[1]) < 0x80 then Nothing else Found(Two(str[0], str[1]), 2)
  }

  function LeadThree(str: seq<byte>): Found
    requires str != []
  {
    if !ContinuesAt(str, 1) || !ContinuesAt(str, 2) then Nothing
    else
      var c := Three(str[0], str[1], str[2]);
      if c < 0x800 || (c >= 0xD800 && c <= 0xDFFF) then Nothing else Found(c, 3)
  }

  function LeadFour(str: seq<byte>): Found
    requires str != []
  {
    if !ContinuesAt(str, 1) || !ContinuesAt(str, 2) || !ContinuesAt(str, 3) then Nothing
    else
      var c := Four(str[0], str[1], str[2], str[3]);
      if c < 0x10000 || c > 0x10FFFF then Nothing else Found(c, 4)
  }

  /** What the check finds at the front of a C string. */
  function Lead(str: seq<byte>): Found
    requires str != []
  {
    var b := str[0];
    if b & 0x80 == 0 then
      if b == 0 then Nothing else Found(Bits(b, 0xFF), 1)
    else if b & 0xE0 == 0xC0 then LeadTwo(str)
    else if b & 0xF0 == 0xE0 then LeadThree(str)
    else if b & 0xF8 == 0xF0 then LeadFour(str)
    else Nothing
  }

  /** The string starts with the encoding of the scalar value found, as long as it says. */
  ghost predicate Starts(str: seq<byte>, f: Found) {
    f.Found? && Scalar(f.scalar) && f.length <= |str| && Encode(f.scalar) == str[..f.length]
  }

  lemma TwoFound(b: byte, c: byte, x: bv32)
    requires b & 0xE0 == 0xC0 && Continues(c) && x == Two(b, c) && 0x80 <= x
    ensures Scalar(x) && Encode(x) == [b, c]
  {
    TwoBits(b, c, x);
    TwoBytes(x, b, c);
  }

  lemma TwoSound(str: seq<byte>, x: bv32)
    requires str != [] && str[0] & 0xE0 == 0xC0 && LeadTwo(str) == Found(x, 2)
    ensures Starts(str, Found(x, 2))
  {
    TwoFound(str[0], str[1], x);
    assert str[..2] == [str[0], str[1]];
  }

  lemma ThreeFound(b: byte, c: byte, d: byte, x: bv32)
    requires b & 0xF0 == 0xE0 && Continues(c) && Continues(d) && x == Three(b, c, d)
    requires 0x800 <= x && !(0xD800 <= x <= 0xDFFF)
    ensures Scalar(x) && Encode(x) == [b, c, d]
  {
    ThreeBits(b, c, d, x);
    ThreeBytes(x, b, c, d);
  }

  lemma ThreeSound(str: seq<byte>, x: bv32)
    requires str != [] && str[0] & 0xF0 == 0xE0 && LeadThree(str) == Found(x, 3)
    ensures Starts(str, Found(x, 3))
  {
    ThreeFound(str[0], str[1], str[2], x);
    assert str[..3] == [str[0], str[1], str[2]];
  }

  lemma FourFound(b: byte, c: byte, d: byte, e: byte, x: bv32)
    requires b & 0xF8 == 0xF0 && Continues(c) && Continues(d) && Continues(e) && x == Four(b, c, d, e)
    requires 0x10000 <= x <= 0x10FFFF
    ensures Scalar(x) && Encode(x) == [b, c, d, e]
  {
    FourBits(b, c, d, e, x);
    FourBytes(x, b, c, d, e);
  }

  lemma FourSound(str: seq<byte>, x: bv32)
    requires str != [] && str[0] & 0xF8 == 0xF0 && LeadFour(str) == Found(x, 4)
    ensures Starts(str, Found(x, 4))
  {
    FourFound(str[0], str[1], str[2], str[3], x);
    assert str[..4] == [str[0], str[1], str[2], str[3]];
  }

  /** What is accepted is the encoding of a scalar value. */
  lemma LeadSound(str: seq<byte>)
    requires str != [] && Lead(str).Found?
    ensures Starts(str, Lead(str))
  {
    var b := str[0];
    if b & 0x80 == 0 {
      OneByte(b);
      assert str[..1] == [b];
    } else if b & 0xE0 == 0xC0 {
      TwoSound(str, Lead(str).scalar);
    } else if b & 0xF0 == 0xE0 {
      ThreeSound(str, Lead(str).scalar);
    } else {
      FourSound(str, Lead(str).scalar);
    }
  }

  /** Characters of a string with a known start. */
  lemma SameStart(str: seq<byte>, s: seq<byte>)
    requires s <= str
    ensures forall k :: 0 <= k < |s| ==> str[k] == s[k]
  {}

  lemma OneComplete(str: seq<byte>, x: bv32)
    requires 0 < x < 0x80 && Encode(x) <= str
    ensures str != [] && Lead(str) == Found(x, 1) && |Encode(x)| == 1
  {
    SameStart(str, Encode(x));
    var b := OfOne(x);
    assert str[0] == b;
  }

  lemma TwoComplete(str: seq<byte>, x: bv32)
    requires 0x80 <= x < 0x800 && Encode(x) <= str
    ensures str != [] && Lead(str) == Found(x, 2) && |Encode(x)| == 2
  {
    SameStart(str, Encode(x));
    var b, c := OfTwo(x);
    assert str[0] == b && str[1] == c;
  }

  lemma ThreeComplete(str: seq<byte>, x: bv32)
    requires 0x800 <= x < 0x10000 && Scalar(x) && Encode(x) <= str
    ensures str != [] && Lead(str) == Found(x, 3) && |Encode(x)| == 3
  {
    SameStart(str, Encode(x));
    var b, c, d := OfThree(x);
    assert str[0] == b && str[1] == c && str[2] == d;
  }

  lemma FourComplete(str: seq<byte>, x: bv32)
    requires 0x10000 <= x <= 0x10FFFF && Encode(x) <= str
    ensures str != [] && Lead(str) == Found(x, 4) && |Encode(x)| == 4
  {
    SameStart(str, Encode(x));
    var b, c, d, e := OfFour(x);
    assert str[0] == b && str[1] == c && str[2] == d && str[3] == e;
  }

  /** The encoding of a scalar value is accepted as that value. */
  lemma LeadComplete(str: seq<byte>, x: bv32)
    requires Scalar(x) && Encode(x) <= str
    ensures str != [] && Lead(str) == Found(x, |Encode(x)|)
  {
    if x < 0x80 {
      OneComplete(str, x);
    } else if x < 0x800 {
      TwoComplete(str, x);
    } else if x < 0x10000 {
      ThreeComplete(str, x);
    } else {
      FourComplete(str, x);
    }
  }

  lemma EncodeMore(x: bv32, cs: seq<bv32>)
    ensures EncodeAll([x] + cs) == Encode(x) + EncodeAll(cs)
  {
    assert ([x] + cs)[1..] == cs;
  }

  /** The first sequence of an encoded string. */
  lemma First(cs: seq<bv32>)
    requires Scalars(cs) && cs != []
    ensures var s := EncodeAll(cs);
            s != [] && Lead(s) == Found(cs[0], |Encode(cs[0])|) && s[|Encode(cs[0])|..] == EncodeAll(cs[1..])
  {
    var first := Encode(cs[0]);
    assert first <= first + EncodeAll(cs[1..]);
    assert (first + EncodeAll(cs[1..]))[|first|..] == EncodeAll(cs[1..]);
    LeadComplete(EncodeAll(cs), cs[0]);
  }

  lemma PutFront(x: bv32, rest: seq<byte>)
    requires Scalar(x) && IsUtf8(rest)
    ensures IsUtf8(Encode(x) + rest)
  {
    var cs :| Scalars(cs) && EncodeAll(cs) == rest;
    EncodeMore(x, cs);
    assert Scalars([x] + cs);
  }

  lemma TakeFront(str: seq<byte>)
    requires str != [] && IsUtf8(str)
    ensures Lead(str).Found? && Lead(str).length <= |str| && IsUtf8(str[Lead(str).length..])
  {
    var cs :| Scalars(cs) && EncodeAll(cs) == str;
    First(cs);
    assert Scalars(cs[1..]);
  }

  /** An accepted sequence can be taken off. */
  lemma Accepted(str: seq<byte>)
    requires str != [] && Lead(str).Found?
    ensures 0 < Lead(str).length <= |str|
    ensures IsUtf8(str) <==> IsUtf8(str[Lead(str).length..])
  {
    var f := Lead(str);
    LeadSound(str);
    if IsUtf8(str[f.length..]) {
      PutFront(f.scalar, str[f.length..]);
      assert str == str[..f.length] + str[f.length..];
    }
    if IsUtf8(str) {
      TakeFront(str);
    }
  }

  lemma Rejected(str: seq<byte>)
    requires str != [] && Lead(str).Nothing?
    ensures !IsUtf8(str)
  {
    if IsUtf8(str) {
      TakeFront(str);
    }
  }

  lemma EmptyIsUtf8()
    ensures IsUtf8([])
  {
    assert Scalars([]) && EncodeAll([]) == [];
  }

  /** The scalar values are unique. */
  lemma {:induction false} Unique(cs: seq<bv32>, ds: seq<bv32>)
    requires Scalars(cs) && Scalars(ds) && EncodeAll(cs) == EncodeAll(ds)
    ensures cs == ds
    decreases |cs|
  {
    if cs != [] && ds != [] {
      First(cs);
      First(ds);
      Unique(cs[1..], ds[1..]);
      assert cs == [cs[0]] + cs[1..] && ds == [ds[0]] + ds[1..];
    }
  }

  // ---- The code ----

  lemma NulDoesNotContinue(str: seq<byte>, k: nat)
    requires k <= |str|
    ensures Continues(At(str, k)) <==> ContinuesAt(str, k)
  {
    assert 0 as bv8 & 0xC0 != 0x80;
  }

  method TwoLength(str: seq<byte>) returns (length: nat)
    requires NoNul(str) && str != [] && str[0] & 0xE0 == 0xC0
    ensures length == if LeadTwo(str).Nothing? then 0 else LeadTwo(str).length
  {
    NulDoesNotContinue(str, 1);
    if !Continues(At(str, 1)) {
      return 0;
    }
    var c := Two(At(str, 0), At(str, 1));
    if c < 0x80 {
      return 0;
    }
    return 2;
  }

  method ThreeLength(str: seq<byte>) returns (length: nat)
    requires NoNul(str) && str != [] && str[0] & 0xF0 == 0xE0
    ensures length == if LeadThree(str).Nothing? then 0 else LeadThree(str).length
  {
    NulDoesNotContinue(str, 1);
    if !Continues(At(str, 1)) {
      return 0;
    }
    NulDoesNotContinue(str, 2);
    if !Continues(At(str, 2)) {
      return 0;
    }
    var c := Three(At(str, 0), At(str, 1), At(str, 2));
    if c < 0x800 || (c >= 0xD800 && c <= 0xDFFF) {
      return 0;
    }
    return 3;
  }

  method FourLength(str: seq<byte>) returns (length: nat)
    requires NoNul(str) && str != [] && str[0] & 0xF8 == 0xF0
    ensures length == if LeadFour(str).Nothing? then 0 else LeadFour(str).length
  {
    NulDoesNotContinue(str, 1);
    if !Continues(At(str, 1)) {
      return 0;
    }
    NulDoesNotContinue(str, 2);
    if !Continues(At(str, 2)) {
      return 0;
    }
    NulDoesNotContinue(str, 3);
    if !Continues(At(str, 3)) {
      return 0;
    }
    var c := Four(At(str, 0), At(str, 1), At(str, 2), At(str, 3));
    if c < 0x10000 || c > 0x10FFFF {
      return 0;
    }
    return 4;
  }

  /** One turn of the loop: by how much the pointer advances, or 0 for `return 0`. */
  method SequenceLength(str: seq<byte>) returns (length: nat)
    requires NoNul(str) && str != []
    ensures length == if Lead(str).Nothing? then 0 else Lead(str).length
  {
    var b := At(str, 0);
    if b & 0x80 == 0 {
      length := 1;
    } else if b & 0xE0 == 0xC0 {
      length := TwoLength(str);
    } else if b & 0xF0 == 0xE0 {
      length := ThreeLength(str);
    } else if b & 0xF8 == 0xF0 {
      length := FourLength(str);
    } else {
      length := 0;
    }
  }

  /** is_valid_utf8: the pointer is the rest of the C string it points to, which is read only up
      to its terminator. It holds exactly of the encodings of scalar values. */
  method IsValidUtf8(s: seq<byte>) returns (valid: bool)
    requires NoNul(s)
    ensures valid <==> IsUtf8(s)
  {
    var str := s;
    while At(str, 0) != 0
      invariant NoNul(str)
      invariant IsUtf8(s) <==> IsUtf8(str)
      decreases |str|
    {
      var length := SequenceLength(str);
      if length == 0 {
        Rejected(str);
        return false;
      }
      Accepted(str);
      str := str[length..];
    }
    EmptyIsUtf8();
    return true;
  }
}
