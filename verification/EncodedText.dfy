/** The text base64_encode writes, character by character, in the codes of ASCII and the tables of
    sections 4 and 5 of RFC 4648; and the error a bad text is answered with. */
module EncodedText {
  import opened Bytes
  import opened Base64

  /** The ASCII code of the symbol of a sextet: capitals, small letters, digits, and two more. */
  function CodeOf(v: int, url: bool): int {
    if v < 26 then 65 + v
    else if v < 52 then 97 + (v - 26)
    else if v < 62 then 48 + (v - 52)
    else if v == 62 then (if url then 45 else 43)
    else if url then 95 else 47
  }

  lemma SymbolCode(v: byte, url: bool)
    requires v < 64
    ensures TableOf(url).symbol(v) as int == CodeOf(v as int, url)
  {
    SextetIsIndex(v);
    var i := ToNat(v);
    if i < 26 {
      AlphabetUpper(i, url);
    } else if i < 52 {
      AlphabetLower(i, url);
    } else if i < 62 {
      AlphabetDigit(i, url);
    } else {
      AlphabetLast(url);
    }
  }

  /** The pad of base64.cpp: an equal sign, or a dot behind the URL alphabet. */
  lemma PadCode(url: bool)
    ensures TableOf(url).pad as int == if url then 46 else 61
  {}

  /** The characters 4 * i to 4 * i + 3 of the text are those of the i-th group of bytes. */
  lemma {:induction false} EncodeAt(x: seq<byte>, i: nat, t: Table)
    requires 3 * i < |x|
    ensures 4 * i + 4 <= |Encode(x, t)|
    ensures Encode(x, t)[4 * i..4 * i + 4] == Quantum(if 3 * i + 3 <= |x| then x[3 * i..3 * i + 3] else x[3 * i..], t)
  {
    if |x| <= 3 {
      assert x[0..] == x && (|x| == 3 ==> x[0..3] == x);
    } else if i == 0 {
      assert x[0..3] == x[..3];
    } else {
      var rest := Encode(x[3..], t);
      EncodeAt(x[3..], i - 1, t);
      assert Encode(x, t)[4 * i..4 * i + 4] == rest[4 * (i - 1)..4 * (i - 1) + 4];
      assert 3 * i + 3 <= |x| ==> x[3..][3 * (i - 1)..3 * (i - 1) + 3] == x[3 * i..3 * i + 3];
      assert x[3..][3 * (i - 1)..] == x[3 * i..];
    }
  }

  /** The bits of four sextets in a row are those of the three bytes in a row. */
  lemma SameBits(b0: byte, b1: byte, b2: byte)
    ensures var n := Group(b0, b1, b2);
            (((Sextet(n, 0) as bv32 * 64 + Sextet(n, 1) as bv32) * 64 + Sextet(n, 2) as bv32) * 64
             + Sextet(n, 3) as bv32)
            == (b0 as bv32 * 256 + b1 as bv32) * 256 + b2 as bv32
  {}

  /** Four sextets carry the bits of three bytes. */
  predicate Regroups(s0: byte, s1: byte, s2: byte, s3: byte, b0: byte, b1: byte, b2: byte) {
    && s0 < 64 && s1 < 64 && s2 < 64 && s3 < 64
    && ((s0 as bv32 * 64 + s1 as bv32) * 64 + s2 as bv32) * 64 + s3 as bv32
       == (b0 as bv32 * 256 + b1 as bv32) * 256 + b2 as bv32
  }

  lemma SpelledOut(x: seq<byte>, i: nat, t: Table, q: string)
    requires 3 * i < |x|
    requires q == Quantum(if 3 * i + 3 <= |x| then x[3 * i..3 * i + 3] else x[3 * i..], t)
    ensures var n := Group(x[3 * i], if 3 * i + 1 < |x| then x[3 * i + 1] else 0,
                           if 3 * i + 2 < |x| then x[3 * i + 2] else 0);
            && q[0] == t.symbol(Sextet(n, 0)) && q[1] == t.symbol(Sextet(n, 1))
            && q[2] == (if 3 * i + 1 < |x| then t.symbol(Sextet(n, 2)) else t.pad)
            && q[3] == (if 3 * i + 2 < |x| then t.symbol(Sextet(n, 3)) else t.pad)
  {}

  /** The text group by group: the bytes of a group, zeros in place of those missing, are regrouped
      into four sextets; one more of them than there are bytes is spelled out, and pads follow. */
  lemma TextOf(x: seq<byte>, url: bool, i: nat) returns (s0: byte, s1: byte, s2: byte, s3: byte)
    requires 3 * i < |x|
    ensures Regroups(s0, s1, s2, s3, x[3 * i], if 3 * i + 1 < |x| then x[3 * i + 1] else 0,
                     if 3 * i + 2 < |x| then x[3 * i + 2] else 0)
    ensures var s, pad := Encode(x, TableOf(url)), if url then 46 else 61;
            && 4 * i + 4 <= |s|
            && s[4 * i] as int == CodeOf(s0 as int, url) && s[4 * i + 1] as int == CodeOf(s1 as int, url)
            && s[4 * i + 2] as int == (if 3 * i + 1 < |x| then CodeOf(s2 as int, url) else pad)
            && s[4 * i + 3] as int == (if 3 * i + 2 < |x| then CodeOf(s3 as int, url) else pad)
  {
    var t := TableOf(url);
    var b1, b2 := if 3 * i + 1 < |x| then x[3 * i + 1] else 0, if 3 * i + 2 < |x| then x[3 * i + 2] else 0;
    var n := Group(x[3 * i], b1, b2);
    s0, s1, s2, s3 := Sextet(n, 0), Sextet(n, 1), Sextet(n, 2), Sextet(n, 3);
    SameBits(x[3 * i], b1, b2);
    EncodeAt(x, i, t);
    SpelledOut(x, i, t, Encode(x, t)[4 * i..4 * i + 4]);
    SymbolCode(s0, url);
    SymbolCode(s1, url);
    SymbolCode(s2, url);
    SymbolCode(s3, url);
    PadCode(url);
  }

  // ---- Errors ----

  lemma ChunkError(s: string)
    requires s != ""
    ensures DecodeQuantum(Chunk(s)).Err? ==> (DecodeQuantum(Chunk(s)).error == OutOfRange <==> |s| == 1)
  {}

  /** The error of the first chunk, or that of the rest. */
  lemma LaterError(s: string)
    requires |s| > 4
    ensures Decode(s) == Err(OutOfRange) <==> DecodeQuantum(Chunk(s)).Ok? && Decode(s[4..]) == Err(OutOfRange)
  {
    ChunkError(s);
  }

  /** All but the last character, chunk by chunk. */
  lemma LeadingAcceptable(s: string)
    requires |s| > 4
    ensures AllAcceptable(s[..|s| - 1], 0)
       <==> (forall i :: 0 <= i < 4 ==> Acceptable(s, i)) && AllAcceptable(s[4..][..|s| - 5], 0)
  {
    var u := s[..|s| - 1];
    assert u[4..] == s[4..][..|s| - 5];
    forall i | 0 <= i < |u| ensures Acceptable(u, i) == Acceptable(s, i) {}
    assert forall i :: 0 <= i < 4 ==> Acceptable(s, i) == Acceptable(u, i);
    if |u| > 4 {
      AcceptableAfterChunk(u);
      AllAcceptableSplit(u);
    }
  }

  lemma ShortError(s: string)
    requires |s| <= 4
    ensures Decode(s) == Err(OutOfRange) <==> |s| == 1
  {
    if s != "" {
      ChunkError(s);
      assert Decode(s[|s|..]) == Ok([]);
    }
  }

  lemma ShortAcceptable(s: string)
    requires |s| <= 4 && s != ""
    ensures |s| % 4 == 1 && AllAcceptable(s[..|s| - 1], 0) <==> |s| == 1
  {}

  /** decode throws std::out_of_range if and only if a single character is left over behind chunks
      that decode; whatever else it throws for is std::runtime_error, for a character. */
  lemma {:induction false} DecodeErrors(s: string)
    ensures Decode(s) == Err(OutOfRange) <==> |s| % 4 == 1 && AllAcceptable(s[..|s| - 1], 0)
  {
    if |s| > 4 {
      calc {
        Decode(s) == Err(OutOfRange);
      == { LaterError(s); }
        DecodeQuantum(Chunk(s)).Ok? && Decode(s[4..]) == Err(OutOfRange);
      == { DecodeErrors(s[4..]); }
        DecodeQuantum(Chunk(s)).Ok? && |s[4..]| % 4 == 1 && AllAcceptable(s[4..][..|s| - 5], 0);
      == { QuantumDecodesExactly(s); LeadingAcceptable(s); }
        |s| % 4 == 1 && AllAcceptable(s[..|s| - 1], 0);
      }
    } else {
      ShortError(s);
      if s != "" { ShortAcceptable(s); }
    }
  }
}
