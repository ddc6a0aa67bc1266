/** The two further base64 encoders, of ws_client.cpp: for the key of the upgrade request and for
    the digest it is answered with. */
module KeyEncoders {
  import opened Bytes
  import opened Base64
  import EncodedText

  lemma PartialGroups(b0: byte, b1: byte)
    ensures Group(b0, 0, 0) == b0 as bv32 << 16
    ensures Group(b0, b1, 0) == (b0 as bv32 << 16) | (b1 as bv32 << 8)
  {}

  /** The characters of the group at position i, from its 24-bit number. */
  lemma GroupStep(x: seq<byte>, i: nat, n: bv32, t: Table) returns (q: string)
    requires i < |x|
    requires i + 1 == |x| ==> n == x[i] as bv32 << 16
    requires i + 2 == |x| ==> n == (x[i] as bv32 << 16) | (x[i + 1] as bv32 << 8)
    requires i + 2 < |x| ==> n == (x[i] as bv32 << 16) | (x[i + 1] as bv32 << 8) | x[i + 2] as bv32
    ensures Encode(From(x, i), t) == q + Encode(From(x, i + 3), t)
    ensures |q| == 4
    ensures q[0] == t.symbol(((n >> 18) & 0x3F) as byte) && q[1] == t.symbol(((n >> 12) & 0x3F) as byte)
    ensures q[2] == if i + 1 < |x| then t.symbol(((n >> 6) & 0x3F) as byte) else t.pad
    ensures q[3] == if i + 2 < |x| then t.symbol((n & 0x3F) as byte) else t.pad
  {
    EncodeStep(x, i, t);
    if i + 2 == |x| { PartialGroups(x[i], x[i + 1]); }
    if i + 1 == |x| { PartialGroups(x[i], 0); }
    q := Quantum(if i + 3 <= |x| then x[i..i + 3] else x[i..], t);
  }

  /** The encoding loop of randomBase64, on whatever bytes the generator drew. */
  method RandomBase64Loop(buf: seq<byte>, t: Table) returns (out: string)
    ensures out == Encode(buf, t)
  {
    out := "";
    var i: nat := 0;
    assert From(buf, 0) == buf;
    while i < |buf|
      invariant out + Encode(From(buf, i), t) == Encode(buf, t)
    {
      var n := buf[i] as bv32 << 16;
      if i + 1 < |buf| { n := n | (buf[i + 1] as bv32 << 8); }
      if i + 2 < |buf| { n := n | buf[i + 2] as bv32; }
      ghost var q := GroupStep(buf, i, n, t);
      PushedFour(out, q, Encode(From(buf, i + 3), t));
      out := out + [t.symbol(((n >> 18) & 0x3F) as byte)];
      out := out + [t.symbol(((n >> 12) & 0x3F) as byte)];
      if i + 1 < |buf| {
        out := out + [t.symbol(((n >> 6) & 0x3F) as byte)];
        if i + 2 < |buf| {
          out := out + [t.symbol((n & 0x3F) as byte)];
        } else {
          out := out + [t.pad];
        }
      } else {
        out := out + [t.pad];
        out := out + [t.pad];
      }
      i := i + 3;
    }
  }

  const SHA_DIGEST_LENGTH: nat := 20

  /** The encoding part of sha1_and_base64: six whole groups and one of two bytes. */
  method DigestBase64Loop(digest: seq<byte>, t: Table) returns (out: string)
    requires |digest| == SHA_DIGEST_LENGTH
    ensures out == Encode(digest, t)
  {
    out := "";
    var i: nat := 0;
    ghost var k: nat := 0;
    assert From(digest, 0) == digest;
    while i < 18
      invariant i == 3 * k && k <= 6
      invariant out + Encode(From(digest, i), t) == Encode(digest, t)
    {
      var n := (digest[i] as bv32 << 16) | (digest[i + 1] as bv32 << 8) | digest[i + 2] as bv32;
      ghost var q := GroupStep(digest, i, n, t);
      PushedFour(out, q, Encode(From(digest, i + 3), t));
      out := out + [t.symbol(((n >> 18) & 0x3F) as byte)];
      out := out + [t.symbol(((n >> 12) & 0x3F) as byte)];
      out := out + [t.symbol(((n >> 6) & 0x3F) as byte)];
      out := out + [t.symbol((n & 0x3F) as byte)];
      i, k := i + 3, k + 1;
    }
    var n := (digest[18] as bv32 << 16) | (digest[19] as bv32 << 8);
    ghost var q := GroupStep(digest, 18, n, t);
    PushedFour(out, q, "");
    out := out + [t.symbol(((n >> 18) & 0x3F) as byte)];
    out := out + [t.symbol(((n >> 12) & 0x3F) as byte)];
    out := out + [t.symbol(((n >> 6) & 0x3F) as byte)];
    out := out + [t.pad];
    assert out + "" == out && q + "" == q;
  }

  /** randomBase64, after the random draw: the text base64_encode gives. The key generateKey makes of
      16 bytes has 24 characters, of which the last two are pads. */
  method RandomBase64(buf: seq<byte>) returns (out: string)
    ensures out == Encode(buf, TableOf(false))
    ensures |buf| == 16 ==> |out| == 24 && out[22] == out[23] == '=' && out[21] != '='
  {
    out := RandomBase64Loop(buf, TableOf(false));
    if |buf| == 16 {
      ghost var s0, s1, s2, s3 := EncodedText.TextOf(buf, false, 5);
      assert s1 as int < 64;
    }
  }

  /** sha1_and_base64, after the hash: the text base64_encode gives, 28 characters with one pad. */
  method DigestBase64(digest: seq<byte>) returns (out: string)
    requires |digest| == SHA_DIGEST_LENGTH
    ensures out == Encode(digest, TableOf(false))
    ensures |out| == 28 && out[27] == '=' && out[26] != '='
  {
    out := DigestBase64Loop(digest, TableOf(false));
    ghost var s0, s1, s2, s3 := EncodedText.TextOf(digest, false, 6);
    assert s2 as int < 64;
  }
}
