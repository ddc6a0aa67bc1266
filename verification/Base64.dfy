/** The base64 codec of base64.cpp.

    `Encode` and `Decode` are the specifications: `Encode` regroups bytes through the 24-bit
    groups of section 4 of RFC 4648, `Decode` is the liberal reader of base64.cpp. The loops are
    methods proved against them. Everything but the two alphabets themselves is stated for any
    proper table of symbols, so that proofs never look at the alphabets. */
module Base64 {
  import opened Bytes

  const UPPER: string := "ABCDEFGHIJKLMNOPQRSTUVWXYZ"
  const LOWER: string := "abcdefghijklmnopqrstuvwxyz"
  const DIGITS: string := "0123456789"
  const STANDARD_ALPHABET: string := UPPER + LOWER + DIGITS + "+/"
  const URL_ALPHABET: string := UPPER + LOWER + DIGITS + "-_"

  datatype DecodeError =
    | OutOfRange       // std::out_of_range from string::at
    | InvalidData      // std::runtime_error from pos_of_char

  predicate IsPad(c: char) {
    c == '=' || c == '.'
  }

  lemma SextetIsIndex(v: byte)
    ensures v < 64 <==> ToNat(v) < 64
  {}

  /** The position pos_of_char computes, or 64 where it throws. */
  function Index(c: char): (i: nat)
    ensures i <= 64
  {
    if 'A' <= c <= 'Z' then c as int - 'A' as int
    else if 'a' <= c <= 'z' then c as int - 'a' as int + 26
    else if '0' <= c <= '9' then c as int - '0' as int + 52
    else if c == '+' || c == '-' then 62
    else if c == '/' || c == '_' then 63
    else 64
  }

  /** pos_of_char: the sextet of a character of either alphabet. */
  function PosOfChar(c: char): (r: Result<byte, DecodeError>)
    ensures r.Ok? ==> r.value < 64
    ensures r.Err? ==> r.error == InvalidData
  {
    ToNatToByte(Index(c));
    SextetIsIndex(ToByte(Index(c)));
    if Index(c) < 64 then Ok(ToByte(Index(c))) else Err(InvalidData)
  }

  /** The characters of the sextets and the padding character. */
  datatype Table = Table(symbol: byte -> char, pad: char) {

    /** pos_of_char inverts the table, and no symbol is a pad or a line feed. */
    ghost predicate Proper() {
      && IsPad(pad)
      && forall v: byte :: v < 64 ==>
           PosOfChar(symbol(v)) == Ok(v) && !IsPad(symbol(v)) && symbol(v) != '\n'
    }

    /** c is the symbol of its own position. */
    predicate Has(c: char) {
      PosOfChar(c).Ok? && symbol(PosOfChar(c).value) == c
    }
  }

  function Alphabet(url: bool): (a: string)
    ensures |a| == 64
  {
    if url then URL_ALPHABET else STANDARD_ALPHABET
  }

  /** base64_chars[url] and the trailing character that goes with it. */
  function TableOf(url: bool): Table {
    var pad := if url then '.' else '=';
    Table((v: byte) => if ToNat(v) < 64 then Alphabet(url)[ToNat(v)] else pad, pad)
  }

  // ---- The two alphabets ----

  lemma UpperAt(i: int)
    requires 0 <= i < 26
    ensures UPPER[i] as int == 'A' as int + i
  {}

  lemma LowerAt(i: int)
    requires 0 <= i < 26
    ensures LOWER[i] as int == 'a' as int + i
  {}

  lemma DigitAt(i: int)
    requires 0 <= i < 10
    ensures DIGITS[i] as int == '0' as int + i
  {}

  lemma AlphabetUpper(i: int, url: bool)
    requires 0 <= i < 26
    ensures Alphabet(url)[i] as int == 'A' as int + i
  {
    assert Alphabet(url)[i] == UPPER[i];
    UpperAt(i);
  }

  lemma AlphabetLower(i: int, url: bool)
    requires 26 <= i < 52
    ensures Alphabet(url)[i] as int == 'a' as int + i - 26
  {
    LowerAt(i - 26);
    assert Alphabet(url)[i] == (UPPER + LOWER)[i];
  }

  lemma AlphabetDigit(i: int, url: bool)
    requires 52 <= i < 62
    ensures Alphabet(url)[i] as int == '0' as int + i - 52
  {
    assert Alphabet(url)[i] == DIGITS[i - 52];
    DigitAt(i - 52);
  }

  lemma AlphabetLast(url: bool)
    ensures Alphabet(url)[62] == (if url then '-' else '+')
    ensures Alphabet(url)[63] == (if url then '_' else '/')
  {}

  lemma CodeIsIndex(c: char, i: int)
    requires 0 <= i < 62
    requires c as int == if i < 26 then 'A' as int + i
                         else if i < 52 then 'a' as int + i - 26
                         else '0' as int + i - 52
    ensures Index(c) == i && !IsPad(c) && c != '\n'
  {}

  /** What pos_of_char makes of the character at place i of an alphabet. */
  lemma IndexOfSymbol(i: int, url: bool)
    requires 0 <= i < 64
    ensures Index(Alphabet(url)[i]) == i
    ensures !IsPad(Alphabet(url)[i]) && Alphabet(url)[i] != '\n'
  {
    if i < 26 { AlphabetUpper(i, url); }
    else if i < 52 { AlphabetLower(i, url); }
    else if i < 62 { AlphabetDigit(i, url); }
    else { AlphabetLast(url); }
    if i < 62 { CodeIsIndex(Alphabet(url)[i], i); }
  }

  lemma TableIsProper(url: bool)
    ensures TableOf(url).Proper()
  {
    forall v: byte | v < 64
      ensures var c := TableOf(url).symbol(v); PosOfChar(c) == Ok(v) && !IsPad(c) && c != '\n'
    {
      SextetIsIndex(v);
      IndexOfSymbol(ToNat(v), url);
      ToByteToNat(v);
    }
  }

  /** The table has exactly the characters of its alphabet. */
  lemma TableHas(c: char, url: bool)
    ensures TableOf(url).Has(c) <==> c in Alphabet(url)
  {
    TableIsProper(url);
    if c in Alphabet(url) {
      var i :| 0 <= i < 64 && Alphabet(url)[i] == c;
      IndexOfSymbol(i, url);
      ToNatToByte(i);
    }
    if TableOf(url).Has(c) {
      var v := PosOfChar(c).value;
      SextetIsIndex(v);
    }
  }

  // ---- Specification of the encoder ----

  /** The 24-bit group of three bytes. */
  function Group(b0: byte, b1: byte, b2: byte): bv32 {
    (b0 as bv32 << 16) | (b1 as bv32 << 8) | b2 as bv32
  }

  /** The k-th of the four sextets of a group, the most significant being the 0-th. */
  function Sextet(n: bv32, k: nat): (v: byte)
    requires k < 4
    ensures v < 64
  {
    if k == 0 then ((n >> 18) & 0x3F) as byte
    else if k == 1 then ((n >> 12) & 0x3F) as byte
    else if k == 2 then ((n >> 6) & 0x3F) as byte
    else (n & 0x3F) as byte
  }

  /** The four characters of a group of one to three bytes (section 4 of RFC 4648). */
  function Quantum(b: seq<byte>, t: Table): (q: string)
    requires 1 <= |b| <= 3
    ensures |q| == 4
  {
    var n := Group(b[0], if |b| > 1 then b[1] else 0, if |b| > 2 then b[2] else 0);
    [t.symbol(Sextet(n, 0)), t.symbol(Sextet(n, 1)),
     if |b| > 1 then t.symbol(Sextet(n, 2)) else t.pad,
     if |b| > 2 then t.symbol(Sextet(n, 3)) else t.pad]
  }

  function Encode(x: seq<byte>, t: Table): (s: string)
    ensures |s| == (|x| + 2) / 3 * 4
  {
    if x == [] then ""
    else if |x| <= 3 then Quantum(x, t)
    else Quantum(x[..3], t) + Encode(x[3..], t)
  }

  // ---- Specification of the decoder ----

  /** The three bytes four sextets carry, each from two neighbours. */
  function Byte0(p0: byte, p1: byte): byte { (p0 << 2) + ((p1 & 0x30) >> 4) }

  function Byte1(p1: byte, p2: byte): byte { ((p1 & 0x0F) << 4) + ((p2 & 0x3C) >> 2) }

  function Byte2(p2: byte, p3: byte): byte { ((p2 & 0x03) << 6) + p3 }

  /** The chunk at position pos, its first two characters being known. */
  function DecodeRest(s: string, pos: nat, p0: byte, p1: byte): Result<seq<byte>, DecodeError> {
    if |s| <= pos + 2 || IsPad(s[pos + 2]) then Ok([Byte0(p0, p1)]) else
    var p2 :- PosOfChar(s[pos + 2]);
    if |s| <= pos + 3 || IsPad(s[pos + 3]) then Ok([Byte0(p0, p1), Byte1(p1, p2)]) else
    var p3 :- PosOfChar(s[pos + 3]);
    Ok([Byte0(p0, p1), Byte1(p1, p2), Byte2(p2, p3)])
  }

  /** What one chunk of up to four characters decodes to. */
  function DecodeQuantum(q: string): (r: Result<seq<byte>, DecodeError>)
    requires 1 <= |q| <= 4
  {
    if |q| < 2 then Err(OutOfRange) else
    var p1 :- PosOfChar(q[1]);
    var p0 :- PosOfChar(q[0]);
    DecodeRest(q, 0, p0, p1)
  }

  function Chunk(s: string): string {
    if |s| <= 4 then s else s[..4]
  }

  function Decode(s: string): (r: Result<seq<byte>, DecodeError>) {
    if s == "" then Ok([]) else
    var head :- DecodeQuantum(Chunk(s));
    var tail :- Decode(s[|Chunk(s)|..]);
    Ok(head + tail)
  }

  function RemoveLinebreaks(s: string): string {
    if s == "" then ""
    else if s[0] == '\n' then RemoveLinebreaks(s[1..])
    else [s[0]] + RemoveLinebreaks(s[1..])
  }

  // ---- One quantum ----

  /** The decoder's shifts undo the grouping. */
  lemma GroupBits(b0: byte, b1: byte, b2: byte)
    ensures var n := Group(b0, b1, b2);
            && Byte0(Sextet(n, 0), Sextet(n, 1)) == b0
            && Byte1(Sextet(n, 1), Sextet(n, 2)) == b1
            && Byte2(Sextet(n, 2), Sextet(n, 3)) == b2
            && (b2 == 0 ==> Sextet(n, 2) & 0x03 == 0)
            && (b2 == 0 && b1 == 0 ==> Sextet(n, 1) & 0x0F == 0)
  {}

  /** Grouping undoes the decoder's shifts. */
  lemma SextetBits(p0: byte, p1: byte, p2: byte, p3: byte)
    requires p0 < 64 && p1 < 64 && p2 < 64 && p3 < 64
    ensures var n := Group(Byte0(p0, p1), Byte1(p1, p2), Byte2(p2, p3));
            && Sextet(n, 0) == p0 && Sextet(n, 1) == p1 && Sextet(n, 2) == p2 && Sextet(n, 3) == p3
  {}

  /** The symbols of k + 1 sextets, padded or cut off there, decode to k bytes. */
  lemma DecodeSymbols(q: string, v0: byte, v1: byte, v2: byte, v3: byte, k: nat, t: Table)
    requires t.Proper() && v0 < 64 && v1 < 64 && v2 < 64 && v3 < 64
    requires 1 <= k <= 3 && k < |q| <= 4
    requires q[0] == t.symbol(v0) && q[1] == t.symbol(v1)
    requires if k > 1 then q[2] == t.symbol(v2) else |q| == 2 || IsPad(q[2])
    requires k == 2 ==> |q| == 3 || IsPad(q[3])
    requires k == 3 ==> q[3] == t.symbol(v3)
    ensures DecodeQuantum(q) == Ok([Byte0(v0, v1), Byte1(v1, v2), Byte2(v2, v3)][..k])
  {
    var all := [Byte0(v0, v1), Byte1(v1, v2), Byte2(v2, v3)];
    assert all[..1] == [all[0]] && all[..2] == [all[0], all[1]] && all[..3] == all;
  }

  /** A quantum decodes to its bytes, with or without its padding. */
  lemma QuantumRoundTrip(b: seq<byte>, t: Table)
    requires 1 <= |b| <= 3 && t.Proper()
    ensures DecodeQuantum(Quantum(b, t)) == Ok(b)
    ensures DecodeQuantum(Quantum(b, t)[..|b| + 1]) == Ok(b)
  {
    var b1, b2 := if |b| > 1 then b[1] else 0, if |b| > 2 then b[2] else 0;
    var n, q := Group(b[0], b1, b2), Quantum(b, t);
    var v0, v1, v2, v3 := Sextet(n, 0), Sextet(n, 1), Sextet(n, 2), Sextet(n, 3);
    DecodeSymbols(q, v0, v1, v2, v3, |b|, t);
    DecodeSymbols(q[..|b| + 1], v0, v1, v2, v3, |b|, t);
    GroupBits(b[0], b1, b2);
    assert b == [b[0], b1, b2][..|b|];
  }

  lemma {:induction false} DecodeEncode(x: seq<byte>, t: Table)
    requires t.Proper()
    ensures Decode(Encode(x, t)) == Ok(x)
  {
    if x != [] {
      var s := Encode(x, t);
      if |x| <= 3 {
        QuantumRoundTrip(x, t);
        assert Chunk(s) == Quantum(x, t) && s[4..] == "" && x + [] == x;
      } else {
        QuantumRoundTrip(x[..3], t);
        DecodeEncode(x[3..], t);
        assert Chunk(s) == Quantum(x[..3], t) && s[4..] == Encode(x[3..], t);
        assert x == x[..3] + x[3..];
      }
    }
  }

  // ---- Padding may be cut off ----

  /** s without the pads at its end. */
  function Unpadded(s: string): string {
    if s != "" && IsPad(s[|s| - 1]) then Unpadded(s[..|s| - 1]) else s
  }

  lemma {:induction false} UnpaddedAppend(a: string, b: string)
    requires Unpadded(b) != ""
    ensures Unpadded(a + b) == a + Unpadded(b)
  {
    if IsPad(b[|b| - 1]) {
      assert (a + b)[..|a + b| - 1] == a + b[..|b| - 1];
      UnpaddedAppend(a, b[..|b| - 1]);
    }
  }

  lemma UnpaddedQuantum(b: seq<byte>, t: Table)
    requires t.Proper()
    requires 1 <= |b| <= 3
    ensures Unpadded(Quantum(b, t)) == Quantum(b, t)[..|b| + 1]
  {
    var q := Quantum(b, t);
    var n := Group(b[0], if |b| > 1 then b[1] else 0, if |b| > 2 then b[2] else 0);
    if |b| == 1 {
      assert q[1] == t.symbol(Sextet(n, 1)) && q[2] == q[3] == t.pad;
      assert Unpadded(q[..2]) == q[..2];
      assert Unpadded(q[..3]) == q[..2] by { assert q[..3][..2] == q[..2]; }
    } else if |b| == 2 {
      assert q[2] == t.symbol(Sextet(n, 2)) && q[3] == t.pad;
      assert Unpadded(q[..3]) == q[..3];
    } else {
      assert q[3] == t.symbol(Sextet(n, 3)) && q[..4] == q;
    }
  }

  lemma {:induction false} UnpaddedEncode(x: seq<byte>, t: Table)
    requires t.Proper()
    requires x != []
    ensures Unpadded(Encode(x, t)) ==
            if |x| <= 3 then Quantum(x, t)[..|x| + 1]
            else Quantum(x[..3], t) + Unpadded(Encode(x[3..], t))
    ensures Unpadded(Encode(x, t)) != ""
  {
    if |x| <= 3 {
      UnpaddedQuantum(x, t);
    } else {
      UnpaddedEncode(x[3..], t);
      UnpaddedAppend(Quantum(x[..3], t), Encode(x[3..], t));
    }
  }

  lemma {:induction false} DecodeUnpaddedEncode(x: seq<byte>, t: Table)
    requires t.Proper()
    ensures Decode(Unpadded(Encode(x, t))) == Ok(x)
  {
    if x != [] {
      UnpaddedEncode(x, t);
      var s := Unpadded(Encode(x, t));
      if |x| <= 3 {
        QuantumRoundTrip(x, t);
        assert Chunk(s) == s && s[|s|..] == "" && x + [] == x;
      } else {
        QuantumRoundTrip(x[..3], t);
        DecodeUnpaddedEncode(x[3..], t);
        assert Chunk(s) == Quantum(x[..3], t) && s[4..] == Unpadded(Encode(x[3..], t));
        assert x == x[..3] + x[3..];
      }
    }
  }

  // ---- Which texts are encodings ----

  /** The last quantum of a canonical text: pads only at its end, and zero bits where
      the pads leave bits unused (section 3.5 of RFC 4648). */
  predicate CanonicalQuantum(q: string, t: Table)
    requires |q| == 4
  {
    && t.Has(q[0]) && t.Has(q[1])
    && (|| (t.Has(q[2]) && t.Has(q[3]))
        || (t.Has(q[2]) && q[3] == t.pad && PosOfChar(q[2]).value & 0x03 == 0)
        || (q[2] == q[3] == t.pad && PosOfChar(q[1]).value & 0x0F == 0))
  }

  predicate Canonical(s: string, t: Table) {
    s == "" ||
    (&& |s| >= 4
     && CanonicalQuantum(s[..4], t)
     && (|s| > 4 ==> s[3] != t.pad && Canonical(s[4..], t)))
  }

  lemma PaddedBytes(p1: byte, p2: byte)
    ensures p1 & 0x0F == 0 ==> Byte1(p1, 0) == 0
    ensures p2 & 0x03 == 0 ==> Byte2(p2, 0) == 0
  {}

  /** Four sextets, the unused ones zero, are the sextets of the bytes they carry. */
  lemma QuantumOfSextets(p0: byte, p1: byte, p2: byte, p3: byte, k: nat, t: Table)
    requires p0 < 64 && p1 < 64 && p2 < 64 && p3 < 64 && 1 <= k <= 3
    requires k == 1 ==> p1 & 0x0F == 0 && p2 == 0
    requires k == 2 ==> p2 & 0x03 == 0
    requires k < 3 ==> p3 == 0
    ensures Quantum([Byte0(p0, p1), Byte1(p1, p2), Byte2(p2, p3)][..k], t) ==
            [t.symbol(p0), t.symbol(p1),
             if k > 1 then t.symbol(p2) else t.pad,
             if k > 2 then t.symbol(p3) else t.pad]
  {
    PaddedBytes(p1, p2);
    SextetBits(p0, p1, p2, p3);
  }

  /** The k + 1 sextets a canonical quantum spells out, and zeros for the rest. */
  lemma SextetsOfQuantum(q: string, t: Table) returns (p0: byte, p1: byte, p2: byte, p3: byte, k: nat)
    requires t.Proper()
    requires |q| == 4 && CanonicalQuantum(q, t)
    ensures p0 < 64 && p1 < 64 && p2 < 64 && p3 < 64 && 1 <= k <= 3
    ensures q == [t.symbol(p0), t.symbol(p1),
                  if k > 1 then t.symbol(p2) else t.pad,
                  if k > 2 then t.symbol(p3) else t.pad]
    ensures k == 1 ==> p1 & 0x0F == 0 && p2 == 0
    ensures k == 2 ==> p2 & 0x03 == 0
    ensures k < 3 ==> p3 == 0
    ensures k == 3 <==> q[3] != t.pad
  {
    p0, p1, p2, p3, k := PosOfChar(q[0]).value, PosOfChar(q[1]).value, 0, 0, 1;
    if q[2] != t.pad {
      p2, k := PosOfChar(q[2]).value, 2;
      if q[3] != t.pad {
        p3, k := PosOfChar(q[3]).value, 3;
      }
    }
  }

  lemma BytesOfSextets(q: string, p0: byte, p1: byte, p2: byte, p3: byte, k: nat, t: Table)
    returns (b: seq<byte>)
    requires t.Proper()
    requires p0 < 64 && p1 < 64 && p2 < 64 && p3 < 64 && 1 <= k <= 3
    requires q == [t.symbol(p0), t.symbol(p1),
                   if k > 1 then t.symbol(p2) else t.pad,
                   if k > 2 then t.symbol(p3) else t.pad]
    requires k == 1 ==> p1 & 0x0F == 0 && p2 == 0
    requires k == 2 ==> p2 & 0x03 == 0
    requires k < 3 ==> p3 == 0
    ensures |b| == k && DecodeQuantum(q) == Ok(b) && Quantum(b, t) == q
  {
    DecodeSymbols(q, p0, p1, p2, p3, k, t);
    QuantumOfSextets(p0, p1, p2, p3, k, t);
    b := [Byte0(p0, p1), Byte1(p1, p2), Byte2(p2, p3)][..k];
  }

  /** A canonical quantum decodes to the bytes it is the quantum of. */
  lemma QuantumBack(q: string, t: Table) returns (b: seq<byte>)
    requires t.Proper()
    requires |q| == 4 && CanonicalQuantum(q, t)
    ensures 1 <= |b| <= 3 && DecodeQuantum(q) == Ok(b) && Quantum(b, t) == q
    ensures q[3] != t.pad ==> |b| == 3
  {
    var p0, p1, p2, p3, k := SextetsOfQuantum(q, t);
    b := BytesOfSextets(q, p0, p1, p2, p3, k, t);
  }

  /** The encoder writes a canonical quantum, unpadded exactly for three bytes. */
  lemma QuantumIsCanonical(b: seq<byte>, t: Table)
    requires t.Proper()
    requires 1 <= |b| <= 3
    ensures CanonicalQuantum(Quantum(b, t), t)
    ensures Quantum(b, t)[3] == t.pad <==> |b| < 3
  {
    var b1, b2 := if |b| > 1 then b[1] else 0, if |b| > 2 then b[2] else 0;
    var n := Group(b[0], b1, b2);
    GroupBits(b[0], b1, b2);
  }

  lemma {:induction false} EncodeIsCanonical(x: seq<byte>, t: Table)
    requires t.Proper()
    ensures Canonical(Encode(x, t), t)
  {
    if x != [] {
      var s := Encode(x, t);
      QuantumIsCanonical(if |x| <= 3 then x else x[..3], t);
      if |x| <= 3 {
        assert s[..4] == s;
      } else {
        assert s[..4] == Quantum(x[..3], t) && s[4..] == Encode(x[3..], t);
        EncodeIsCanonical(x[3..], t);
      }
    }
  }

  lemma {:induction false} EncodeDecode(s: string, t: Table)
    requires t.Proper()
    requires Canonical(s, t)
    ensures Decode(s).Ok? && Encode(Decode(s).value, t) == s
    ensures s != "" ==> Decode(s).value != []
  {
    if s != "" {
      var b := QuantumBack(s[..4], t);
      assert Chunk(s) == s[..4];
      EncodeDecode(s[4..], t);
      var rest := Decode(s[4..]).value;
      if |s| == 4 {
        assert s[4..] == "" && b + rest == b && s[..4] == s;
      } else {
        assert (b + rest)[..3] == b && (b + rest)[3..] == rest;
        assert s == s[..4] + s[4..];
      }
    }
  }

  /** Exactly the canonical texts survive decoding and encoding again. */
  lemma CanonicalExactly(s: string, t: Table)
    requires t.Proper()
    ensures Canonical(s, t) <==> Decode(s).Ok? && Encode(Decode(s).value, t) == s
  {
    if Canonical(s, t) {
      EncodeDecode(s, t);
    }
    if Decode(s).Ok? && Encode(Decode(s).value, t) == s {
      EncodeIsCanonical(Decode(s).value, t);
    }
  }

  /** For both alphabets: every text encoded reads back, with its padding or without, and the
      texts that come back from a decode and an encode are the canonical ones. */
  lemma RoundTrips(x: seq<byte>, s: string, url: bool)
    ensures Decode(Encode(x, TableOf(url))) == Ok(x)
    ensures Decode(Unpadded(Encode(x, TableOf(url)))) == Ok(x)
    ensures Canonical(s, TableOf(url)) <==> Decode(s).Ok? && Encode(Decode(s).value, TableOf(url)) == s
  {
    var t := TableOf(url);
    TableIsProper(url);
    DecodeEncode(x, t);
    DecodeUnpaddedEncode(x, t);
    CanonicalExactly(s, t);
  }

  // ---- Which texts decode at all ----

  /** What the decoder demands of the i-th character. */
  predicate Acceptable(s: string, i: nat)
    requires i < |s|
  {
    || Index(s[i]) < 64
    || (i % 4 == 2 && IsPad(s[i]))
    || (i % 4 == 3 && (IsPad(s[i]) || IsPad(s[i - 1])))
  }

  predicate AllAcceptable(s: string, first: nat) {
    forall i :: first <= i < |s| ==> Acceptable(s, i)
  }

  lemma QuantumDecodesExactly(s: string)
    requires s != ""
    ensures DecodeQuantum(Chunk(s)).Ok? <==>
            |s| != 1 && forall i :: 0 <= i < |Chunk(s)| ==> Acceptable(s, i)
  {
    if |s| >= 2 {
      assert DecodeQuantum(Chunk(s)).Ok? <==>
             && Acceptable(s, 0) && Acceptable(s, 1)
             && (|s| > 2 ==> Acceptable(s, 2)) && (|s| > 3 ==> Acceptable(s, 3));
    }
  }

  /** Acceptability is counted from the start of the chunk, so whole chunks can be cut off. */
  lemma AcceptableAfterChunk(s: string)
    requires |s| > 4
    ensures AllAcceptable(s[4..], 0) <==> AllAcceptable(s, 4)
  {
    forall i | 0 <= i < |s| - 4
      ensures Acceptable(s[4..], i) <==> Acceptable(s, i + 4)
    {
      assert s[4..][i] == s[i + 4] && (i > 0 ==> s[4..][i - 1] == s[i + 3]);
    }
    assert forall i :: 4 <= i < |s| ==> (Acceptable(s[4..], i - 4) <==> Acceptable(s, i));
  }

  lemma DecodeOkByChunk(s: string)
    requires s != ""
    ensures Decode(s).Ok? <==> DecodeQuantum(Chunk(s)).Ok? && Decode(s[|Chunk(s)|..]).Ok?
  {}

  lemma AllAcceptableSplit(s: string)
    requires |s| > 4
    ensures AllAcceptable(s, 0) <==> AllAcceptable(s, 4) && forall i :: 0 <= i < 4 ==> Acceptable(s, i)
  {}

  /** The decoder throws exactly on a lone first character of a chunk or an unacceptable character. */
  lemma {:induction false} DecodesExactly(s: string)
    ensures Decode(s).Ok? <==> |s| % 4 != 1 && AllAcceptable(s, 0)
  {
    if |s| > 4 {
      calc {
        Decode(s).Ok?;
      == { DecodeOkByChunk(s); }
        DecodeQuantum(Chunk(s)).Ok? && Decode(s[4..]).Ok?;
      == { DecodesExactly(s[4..]); }
        DecodeQuantum(Chunk(s)).Ok? && |s[4..]| % 4 != 1 && AllAcceptable(s[4..], 0);
      == { AcceptableAfterChunk(s); QuantumDecodesExactly(s); AllAcceptableSplit(s); }
        |s| % 4 != 1 && AllAcceptable(s, 0);
      }
    } else if s != "" {
      DecodeOkByChunk(s);
      QuantumDecodesExactly(s);
    }
  }

  // ---- The loops of base64.cpp ----

  /** The per-byte masks of base64_encode pick the sextets of the group. */
  lemma MaskedSextets(b0: byte, b1: byte, b2: byte)
    ensures (b0 & 0xFC) >> 2 == Sextet(Group(b0, b1, b2), 0)
    ensures ((b0 & 0x03) << 4) + ((b1 & 0xF0) >> 4) == Sextet(Group(b0, b1, b2), 1)
    ensures ((b1 & 0x0F) << 2) + ((b2 & 0xC0) >> 6) == Sextet(Group(b0, b1, b2), 2)
    ensures b2 & 0x3F == Sextet(Group(b0, b1, b2), 3)
    ensures (b0 & 0x03) << 4 == Sextet(Group(b0, 0, 0), 1)
    ensures (b1 & 0x0F) << 2 == Sextet(Group(b0, b1, 0), 2)
  {}

  /** The bytes, or characters, from position pos on; none once pos has passed the end. */
  function From<T>(s: seq<T>, pos: nat): seq<T> {
    if pos <= |s| then s[pos..] else []
  }

  /** One more group at position pos. */
  lemma EncodeStep(x: seq<byte>, pos: nat, t: Table)
    requires pos < |x|
    ensures From(x, pos) != []
    ensures Encode(From(x, pos), t) ==
            Quantum(if pos + 3 <= |x| then x[pos..pos + 3] else x[pos..], t)
            + Encode(From(x, pos + 3), t)
  {
    var r := x[pos..];
    if |r| > 3 {
      assert r[..3] == x[pos..pos + 3] && r[3..] == x[pos + 3..];
    } else {
      assert pos + 3 == |x| ==> x[pos..pos + 3] == r;
      assert Quantum(r, t) + "" == Quantum(r, t);
    }
  }

  /** The four characters base64_encode writes for the group at position pos. */
  lemma MaskedStep(x: seq<byte>, pos: nat, t: Table) returns (q: string)
    requires pos < |x|
    ensures Encode(From(x, pos), t) == q + Encode(From(x, pos + 3), t)
    ensures |q| == 4
    ensures q[0] == t.symbol((x[pos] & 0xFC) >> 2)
    ensures pos + 1 == |x| ==> q[1] == t.symbol((x[pos] & 0x03) << 4) && q[2] == q[3] == t.pad
    ensures pos + 1 < |x| ==>
              q[1] == t.symbol(((x[pos] & 0x03) << 4) + ((x[pos + 1] & 0xF0) >> 4))
    ensures pos + 2 == |x| ==> q[2] == t.symbol((x[pos + 1] & 0x0F) << 2) && q[3] == t.pad
    ensures pos + 2 < |x| ==>
              && q[2] == t.symbol(((x[pos + 1] & 0x0F) << 2) + ((x[pos + 2] & 0xC0) >> 6))
              && q[3] == t.symbol(x[pos + 2] & 0x3F)
  {
    EncodeStep(x, pos, t);
    q := Quantum(if pos + 3 <= |x| then x[pos..pos + 3] else x[pos..], t);
    var b1, b2 := if pos + 1 < |x| then x[pos + 1] else 0, if pos + 2 < |x| then x[pos + 2] else 0;
    MaskedSextets(x[pos], b1, b2);
  }

  /** Four characters pushed one by one in front of what is still to come. */
  lemma PushedFour(before: string, q: string, rest: string)
    requires |q| == 4
    ensures before + [q[0]] + [q[1]] + [q[2]] + [q[3]] + rest == before + (q + rest)
  {
    assert q == [q[0], q[1], q[2], q[3]];
    assert before + [q[0]] + [q[1]] + [q[2]] + [q[3]] == before + q;
  }

  /** Below 2^32 bytes the 32-bit position never wraps, 2^32 - 1 being a multiple of three. */
  lemma NoWrap(pos: nat, n: nat)
    requires pos % 3 == 0 && pos < n < TWO_TO_THE_32
    ensures (pos + 3) % TWO_TO_THE_32 == pos + 3 && (pos + 3) % 3 == 0
  {
    var k := pos / 3;
    assert pos == 3 * k;
    assert pos + 3 < TWO_TO_THE_32;
  }

  /** The 32-bit `pos` after k turns of the loop of base64_encode. */
  function WrappedPos(k: nat): nat {
    3 * k % TWO_TO_THE_32
  }

  /** It starts at 0, and every turn adds 3 and wraps. */
  lemma WrappedPosAdvances(k: nat)
    ensures WrappedPos(0) == 0
    ensures WrappedPos(k + 1) == (WrappedPos(k) + 3) % TWO_TO_THE_32
  {}

  /** The loop guard `pos < in_len` fails after some number of turns exactly below 2^32 bytes: from
      there on `pos` wraps and the loop never ends. */
  lemma EncodeEndsExactly(length: nat)
    ensures (exists k :: WrappedPos(k) >= length) <==> length < TWO_TO_THE_32
  {
    if length < TWO_TO_THE_32 {
      assert WrappedPos(TWO_TO_THE_32 / 3) == TWO_TO_THE_32 - 1;
    }
  }

  /** The loop of base64_encode over the alphabet it chose, for the lengths for which it ends. */
  method EncodeLoop(bytes: seq<byte>, t: Table) returns (ret: string)
    requires |bytes| < TWO_TO_THE_32
    ensures ret == Encode(bytes, t)
  {
    ret := "";
    var pos: nat := 0;
    while pos < |bytes|
      invariant pos % 3 == 0 && pos < |bytes| + 3
      invariant ret + Encode(From(bytes, pos), t) == Encode(bytes, t)
    {
      ghost var q := MaskedStep(bytes, pos, t);
      PushedFour(ret, q, Encode(From(bytes, pos + 3), t));
      ret := ret + [t.symbol((bytes[pos] & 0xFC) >> 2)];
      if pos + 1 < |bytes| {
        ret := ret + [t.symbol(((bytes[pos] & 0x03) << 4) + ((bytes[pos + 1] & 0xF0) >> 4))];
        if pos + 2 < |bytes| {
          ret := ret + [t.symbol(((bytes[pos + 1] & 0x0F) << 2) + ((bytes[pos + 2] & 0xC0) >> 6))];
          ret := ret + [t.symbol(bytes[pos + 2] & 0x3F)];
        } else {
          ret := ret + [t.symbol((bytes[pos + 1] & 0x0F) << 2)];
          ret := ret + [t.pad];
        }
      } else {
        ret := ret + [t.symbol((bytes[pos] & 0x03) << 4)];
        ret := ret + [t.pad];
        ret := ret + [t.pad];
      }
      NoWrap(pos, |bytes|);
      pos := (pos + 3) % TWO_TO_THE_32;
    }
  }

  /** base64_encode. */
  method Base64Encode(bytes: seq<byte>, url: bool) returns (ret: string)
    requires |bytes| < TWO_TO_THE_32
    ensures ret == Encode(bytes, TableOf(url))
  {
    ret := EncodeLoop(bytes, TableOf(url));
  }

  /** ret in front of what is still to be decoded. */
  function Prepend(ret: seq<byte>, r: Result<seq<byte>, DecodeError>): Result<seq<byte>, DecodeError> {
    match r
    case Ok(b) => Ok(ret + b)
    case Err(e) => Err(e)
  }

  lemma PrependPrepend(ret: seq<byte>, b: seq<byte>, r: Result<seq<byte>, DecodeError>)
    ensures Prepend(ret, Prepend(b, r)) == Prepend(ret + b, r)
    ensures Prepend([], r) == r
  {
    if r.Ok? {
      assert ret + (b + r.value) == ret + b + r.value;
      assert [] + r.value == r.value;
    }
  }

  /** The bytes of the chunk at position pos come in front of the rest, or its error ends it all. */
  lemma DecodeStep(s: string, pos: nat, ret: seq<byte>)
    requires pos < |s|
    ensures var d := DecodeQuantum(Chunk(s[pos..]));
            Prepend(ret, Decode(From(s, pos))) ==
            if d.Err? then d else Prepend(ret + d.value, Decode(From(s, pos + 4)))
  {
    var r, rest := s[pos..], Decode(From(s, pos + 4));
    assert r[|Chunk(r)|..] == From(s, pos + 4);
    var d := DecodeQuantum(Chunk(r));
    if d.Ok? {
      PrependPrepend(ret, d.value, rest);
    }
  }

  /** The chunk at position pos may be read in place. */
  lemma ChunkInPlace(s: string, pos: nat)
    requires pos < |s|
    ensures DecodeQuantum(Chunk(s[pos..])) ==
            if |s| <= pos + 1 then Err(OutOfRange)
            else if PosOfChar(s[pos + 1]).Err? || PosOfChar(s[pos]).Err? then Err(InvalidData)
            else DecodeRest(s, pos, PosOfChar(s[pos]).value, PosOfChar(s[pos + 1]).value)
  {
    var q := Chunk(s[pos..]);
    assert q[0] == s[pos] && (|q| > 1 ==> q[1] == s[pos + 1]);
    assert (|q| > 2 ==> q[2] == s[pos + 2]) && (|q| > 3 ==> q[3] == s[pos + 3]);
  }

  /** The body of decode's loop: the chunk at position pos. */
  method DecodeChunk(s: string, pos: nat) returns (r: Result<seq<byte>, DecodeError>)
    requires pos < |s|
    ensures r == DecodeQuantum(Chunk(s[pos..]))
  {
    ChunkInPlace(s, pos);
    if |s| <= pos + 1 { return Err(OutOfRange); }
    var pos1 :- PosOfChar(s[pos + 1]);
    var pos0 :- PosOfChar(s[pos]);
    var ret := [Byte0(pos0, pos1)];
    if pos + 2 < |s| && s[pos + 2] != '=' && s[pos + 2] != '.' {
      var pos2 :- PosOfChar(s[pos + 2]);
      ret := [Byte0(pos0, pos1), Byte1(pos1, pos2)];
      if pos + 3 < |s| && s[pos + 3] != '=' && s[pos + 3] != '.' {
        var pos3 :- PosOfChar(s[pos + 3]);
        ret := [Byte0(pos0, pos1), Byte1(pos1, pos2), Byte2(pos2, pos3)];
      }
    }
    return Ok(ret);
  }

  /** decode; an exception of base64.cpp is an `Err`. */
  method DecodeLoop(s: string) returns (r: Result<seq<byte>, DecodeError>)
    ensures r == Decode(s)
  {
    var ret: seq<byte> := [];
    var pos: nat := 0;
    assert From(s, 0) == s;
    PrependPrepend([], [], Decode(s));
    while pos < |s|
      invariant Decode(s) == Prepend(ret, Decode(From(s, pos)))
    {
      DecodeStep(s, pos, ret);
      var more :- DecodeChunk(s, pos);
      ret := ret + more;
      pos := pos + 4;
    }
    assert ret + [] == ret;
    return Ok(ret);
  }

  /** base64_decode. */
  method Base64Decode(s: string, removeLinebreaks: bool) returns (r: Result<seq<byte>, DecodeError>)
    ensures r == Decode(if removeLinebreaks then RemoveLinebreaks(s) else s)
  {
    if s == "" { return Ok([]); }
    r := DecodeLoop(if removeLinebreaks then RemoveLinebreaks(s) else s);
  }
}
