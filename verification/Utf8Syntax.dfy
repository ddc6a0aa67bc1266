/** The UTF-8 check against the syntax of section 4 of RFC 3629, which names the octets allowed in each
    place and speaks of no bits and no code points. */
module Utf8Syntax {
  import opened Bytes
  import opened Utf8

  predicate IsTail(b: byte) {
    0x80 <= b <= 0xBF
  }

  predicate TwoOctets(b: byte, c: byte) {
    0xC2 <= b <= 0xDF && IsTail(c)
  }

  predicate ThreeOctets(b: byte, c: byte, d: byte) {
    || (b == 0xE0 && 0xA0 <= c <= 0xBF && IsTail(d))
    || (0xE1 <= b <= 0xEC && IsTail(c) && IsTail(d))
    || (b == 0xED && 0x80 <= c <= 0x9F && IsTail(d))
    || (0xEE <= b <= 0xEF && IsTail(c) && IsTail(d))
  }

  predicate FourOctets(b: byte, c: byte, d: byte, e: byte) {
    || (b == 0xF0 && 0x90 <= c <= 0xBF && IsTail(d) && IsTail(e))
    || (0xF1 <= b <= 0xF3 && IsTail(c) && IsTail(d) && IsTail(e))
    || (b == 0xF4 && 0x80 <= c <= 0x8F && IsTail(d) && IsTail(e))
  }

  /** The length of the UTF-8 sequence at the front of a string, or 0 if there is none; U+0000 ends a
      C string and does not occur in one. */
  function SyntaxLength(s: seq<byte>): (n: nat)
    requires s != []
    ensures n <= |s|
  {
    if 0x01 <= s[0] <= 0x7F then 1
    else if |s| >= 2 && TwoOctets(s[0], s[1]) then 2
    else if |s| >= 3 && ThreeOctets(s[0], s[1], s[2]) then 3
    else if |s| >= 4 && FourOctets(s[0], s[1], s[2], s[3]) then 4
    else 0
  }

  /** A row of such sequences. */
  predicate Syntactic(s: seq<byte>) {
    s == [] || (SyntaxLength(s) > 0 && Syntactic(s[SyntaxLength(s)..]))
  }

  // ---- Byte by byte ----

  lemma TailContinues(b: byte)
    ensures Continues(b) <==> IsTail(b)
  {}

  lemma LeadRanges(b: byte)
    ensures b & 0x80 == 0 <==> b <= 0x7F
    ensures b & 0xE0 == 0xC0 <==> 0xC0 <= b <= 0xDF
    ensures b & 0xF0 == 0xE0 <==> 0xE0 <= b <= 0xEF
    ensures b & 0xF8 == 0xF0 <==> 0xF0 <= b <= 0xF7
  {}

  lemma TwoRange(b: byte, c: byte)
    requires 0xC0 <= b <= 0xDF && IsTail(c)
    ensures Two(b, c) >= 0x80 <==> b >= 0xC2
  {}

  lemma ThreeRange(b: byte, c: byte, d: byte)
    requires 0xE0 <= b <= 0xEF && IsTail(c) && IsTail(d)
    ensures Three(b, c, d) < 0x800 <==> b == 0xE0 && c < 0xA0
    ensures 0xD800 <= Three(b, c, d) <= 0xDFFF <==> b == 0xED && c >= 0xA0
  {}

  lemma FourRange(b: byte, c: byte, d: byte, e: byte)
    requires 0xF0 <= b <= 0xF7 && IsTail(c) && IsTail(d) && IsTail(e)
    ensures Four(b, c, d, e) < 0x10000 <==> b == 0xF0 && c < 0x90
    ensures Four(b, c, d, e) > 0x10FFFF <==> b > 0xF4 || (b == 0xF4 && c > 0x8F)
  {}

  // ---- Sequence by sequence ----

  /** The length of what the check accepts at the front, or 0. */
  function LeadLength(s: seq<byte>): nat
    requires s != []
  {
    if Lead(s).Found? then Lead(s).length else 0
  }

  lemma TwoSyntax(s: seq<byte>)
    requires s != [] && 0xC0 <= s[0] <= 0xDF
    ensures LeadTwo(s).Found? <==> |s| >= 2 && TwoOctets(s[0], s[1])
  {
    if |s| >= 2 {
      TailContinues(s[1]);
      if IsTail(s[1]) { TwoRange(s[0], s[1]); }
    }
  }

  lemma ThreeSyntax(s: seq<byte>)
    requires s != [] && 0xE0 <= s[0] <= 0xEF
    ensures LeadThree(s).Found? <==> |s| >= 3 && ThreeOctets(s[0], s[1], s[2])
  {
    if |s| >= 3 {
      TailContinues(s[1]);
      TailContinues(s[2]);
      if IsTail(s[1]) && IsTail(s[2]) { ThreeRange(s[0], s[1], s[2]); }
    }
  }

  lemma FourSyntax(s: seq<byte>)
    requires s != [] && 0xF0 <= s[0] <= 0xF7
    ensures LeadFour(s).Found? <==> |s| >= 4 && FourOctets(s[0], s[1], s[2], s[3])
  {
    if |s| >= 4 {
      TailContinues(s[1]);
      TailContinues(s[2]);
      TailContinues(s[3]);
      if IsTail(s[1]) && IsTail(s[2]) && IsTail(s[3]) { FourRange(s[0], s[1], s[2], s[3]); }
    }
  }

  /** A turn of the loop accepts exactly a sequence of the syntax, whole. */
  lemma LeadIsSyntax(s: seq<byte>)
    requires s != []
    ensures LeadLength(s) == SyntaxLength(s)
  {
    LeadRanges(s[0]);
    if 0xC0 <= s[0] <= 0xDF {
      TwoSyntax(s);
    } else if 0xE0 <= s[0] <= 0xEF {
      ThreeSyntax(s);
    } else if 0xF0 <= s[0] <= 0xF7 {
      FourSyntax(s);
    }
  }

  /** The encodings of scalar values, which is_valid_utf8 accepts, are the strings of the syntax. */
  lemma {:induction false} IsSyntactic(s: seq<byte>)
    ensures IsUtf8(s) <==> Syntactic(s)
    decreases |s|
  {
    if s == [] {
      EmptyIsUtf8();
    } else {
      LeadIsSyntax(s);
      if Lead(s).Found? {
        Accepted(s);
        IsSyntactic(s[Lead(s).length..]);
      } else {
        Rejected(s);
      }
    }
  }
}
