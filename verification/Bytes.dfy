/** Bytes, failure results and the facts about byte arithmetic the other modules share. */
module Bytes {

  /** An octet; C++ `unsigned char` and `uint8_t`. */
  type byte = bv8

  /** The number of values of a 32-bit unsigned int and of a 64-bit size_t. */
  const TWO_TO_THE_32: nat := 0x1_0000_0000
  const TWO_TO_THE_64: nat := 0x1_0000_0000_0000_0000

  datatype Option<+T> = None | Some(value: T)

  /** A value, or the exception thrown instead; usable with `:-`. */
  datatype Result<+R, +E> = Ok(value: R) | Err(error: E) {
    predicate IsFailure() { Err? }
    function PropagateFailure<U>(): Result<U, E> requires Err? { Err(error) }
    function Extract(): R requires Ok? { value }
  }

  /** All the pieces, one after the other. */
  function Concat<T>(pieces: seq<seq<T>>): (whole: seq<T>) {
    if pieces == [] then [] else pieces[0] + Concat(pieces[1..])
  }

  lemma Assoc<T>(a: seq<T>, b: seq<T>, c: seq<T>)
    ensures a + (b + c) == (a + b) + c
  {}

  lemma {:induction false} ConcatAppend<T>(a: seq<seq<T>>, b: seq<seq<T>>)
    ensures Concat(a + b) == Concat(a) + Concat(b)
  {
    if a == [] {
      assert a + b == b;
    } else {
      assert (a + b)[0] == a[0] && (a + b)[1..] == a[1..] + b;
      ConcatAppend(a[1..], b);
    }
  }

  lemma ConcatSnoc<T>(pieces: seq<seq<T>>, last: seq<T>)
    ensures Concat(pieces + [last]) == Concat(pieces) + last
  {
    ConcatAppend(pieces, [last]);
    assert Concat([last]) == last + Concat<T>([]);
  }

  /** (uint8_t) n: the low eight bits of a number. */
  function ToByte(n: nat): byte {
    if n == 0 then 0 else ToByte(n - 1) + 1
  }

  /** The number a byte stands for. */
  function ToNat(b: byte): (n: nat)
    ensures n < 256
  {
    b as int
  }

  lemma NextByte(b: byte)
    requires b != 255
    ensures ToNat(b + 1) == ToNat(b) + 1
  {}

  lemma ToNatInjective(a: byte, b: byte)
    requires ToNat(a) == ToNat(b)
    ensures a == b
  {}

  lemma {:induction false} ToNatToByte(n: nat)
    requires n < 256
    ensures ToNat(ToByte(n)) == n
  {
    if n > 0 {
      ToNatToByte(n - 1);
      NextByte(ToByte(n - 1));
    }
  }

  lemma ToByteToNat(b: byte)
    ensures ToByte(ToNat(b)) == b
  {
    ToNatToByte(ToNat(b));
    ToNatInjective(ToByte(ToNat(b)), b);
  }

  lemma SevenBits(b: byte)
    ensures b < 128 <==> ToNat(b) < 128
    ensures b < 128 ==> (0x80 | b) & 0x7F == b && (0x80 | b) & 0x80 != 0
    ensures ToNat(b & 0x7F) < 128
  {}

  /** `0x80 | n` sets the top bit of a seven-bit number and keeps the rest. */
  lemma TopBitBesideSevenBits(n: nat)
    requires n < 128
    ensures ToNat((0x80 | ToByte(n)) & 0x7F) == n
    ensures (0x80 | ToByte(n)) & 0x80 != 0
  {
    ToNatToByte(n);
    SevenBits(ToByte(n));
  }

  lemma XorTwice(a: byte, m: byte)
    ensures (a ^ m) ^ m == a
  {}

  /** n >> (8 * k), byte by byte. */
  function ShiftRight(n: nat, k: nat): nat {
    if k == 0 then n else ShiftRight(n, k - 1) / 256
  }

  /** The low k bytes of n, most significant first. */
  function BigEndian(n: nat, k: nat): (s: seq<byte>)
    ensures |s| == k
  {
    if k == 0 then [] else BigEndian(n / 256, k - 1) + [ToByte(n % 256)]
  }

  /** The number whose bytes, most significant first, are s. */
  function Number(s: seq<byte>): nat {
    if s == [] then 0 else Number(s[..|s| - 1]) * 256 + ToNat(s[|s| - 1])
  }

  lemma {:induction false} ShiftRightShift(n: nat, k: nat)
    ensures ShiftRight(n, k + 1) == ShiftRight(n / 256, k)
  {
    if k > 0 {
      ShiftRightShift(n, k - 1);
    }
  }

  /** Reading back the k bytes of a number that fits in k bytes gives the number. */
  lemma {:induction false} NumberOfBigEndian(n: nat, k: nat)
    requires ShiftRight(n, k) == 0
    ensures Number(BigEndian(n, k)) == n
  {
    if k > 0 {
      ShiftRightShift(n, k - 1);
      NumberOfBigEndian(n / 256, k - 1);
      var s := BigEndian(n, k);
      assert s[..k - 1] == BigEndian(n / 256, k - 1);
      ToNatToByte(n % 256);
    }
  }

  lemma FitsIn16Bits(n: nat)
    requires n < 65536
    ensures ShiftRight(n, 2) == 0
  {
    assert ShiftRight(n, 1) == n / 256;
  }

  lemma FitsIn64Bits(n: nat)
    requires n < TWO_TO_THE_64
    ensures ShiftRight(n, 8) == 0
  {
    assert ShiftRight(n, 1) < 0x100_0000_0000_0000;
    assert ShiftRight(n, 2) < 0x1_0000_0000_0000;
    assert ShiftRight(n, 3) < 0x100_0000_0000;
    assert ShiftRight(n, 4) < 0x1_0000_0000;
    assert ShiftRight(n, 5) < 0x100_0000;
    assert ShiftRight(n, 6) < 0x1_0000;
    assert ShiftRight(n, 7) < 0x100;
  }
}
