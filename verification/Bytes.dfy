/** Bytes and big-endian 32-bit numbers, as htonl and ntohl lay them out. */
module Bytes {
  type Byte = x: int | 0 <= x < 256

  type Message = seq<Byte>

  const TWO_32: int := 0x1_0000_0000

  function Concat(chunks: seq<seq<Byte>>): seq<Byte> {
    if chunks == [] then [] else Concat(chunks[..|chunks| - 1]) + chunks[|chunks| - 1]
  }

  // What is read past the end is zero.
  function ByteAt(a: seq<Byte>, p: nat): Byte {
    if p < |a| then a[p] else 0
  }

  // The number q with one more byte below it.
  function Push(q: nat, b: Byte): nat {
    q * 256 + b
  }

  // The number that bytes make, the high byte first, and the k lowest bytes of a number.
  function Number(b: seq<Byte>): nat {
    if b == [] then 0 else Push(Number(b[..|b| - 1]), b[|b| - 1])
  }

  function Digits(n: nat, k: nat): (b: seq<Byte>)
    ensures |b| == k
  {
    if k == 0 then [] else Digits(n / 256, k - 1) + [n % 256]
  }

  // What k bytes cannot hold.
  function Limit(k: nat): nat {
    if k == 0 then 1 else 256 * Limit(k - 1)
  }

  lemma {:induction false} NumberBelow(b: seq<Byte>)
    ensures Number(b) < Limit(|b|)
    decreases |b|
  {
    if b != [] {
      NumberBelow(b[..|b| - 1]);
    }
  }

  lemma {:induction false} NumberOfDigits(n: nat, k: nat)
    requires n < Limit(k)
    ensures Number(Digits(n, k)) == n
    decreases k
  {
    if k > 0 {
      NumberOfDigits(n / 256, k - 1);
      var b := Digits(n, k);
      assert b[..k - 1] == Digits(n / 256, k - 1);
    }
  }

  lemma LowByte(q: nat, b: Byte)
    ensures Push(q, b) / 256 == q && Push(q, b) % 256 == b
  {
  }

  lemma {:induction false} DigitsOfNumber(b: seq<Byte>)
    ensures Digits(Number(b), |b|) == b
    decreases |b|
  {
    if b != [] {
      var k := |b| - 1;
      DigitsOfNumber(b[..k]);
      LowByte(Number(b[..k]), b[k]);
      assert b == b[..k] + [b[k]];
    }
  }

  lemma LimitOfFour()
    ensures Limit(4) == TWO_32
  {
  }

  function Ntohl(b: seq<Byte>): (n: nat)
    requires |b| == 4
    ensures n < TWO_32
  {
    LimitOfFour();
    NumberBelow(b);
    Number(b)
  }

  function Htonl(n: nat): (b: seq<Byte>)
    requires n < TWO_32
    ensures |b| == 4
  {
    Digits(n, 4)
  }

  // The number four bytes make, the high byte first.
  function BigEndian(b0: int, b1: int, b2: int, b3: int): int {
    b0 * 0x100_0000 + b1 * 0x1_0000 + b2 * 0x100 + b3
  }

  lemma TwoBytes(b: seq<Byte>) returns (q: nat)
    requires |b| == 2
    ensures q == Number(b) && q == Push(b[0], b[1])
  {
    q := Number(b);
    assert b[..1][..0] == [] && Number(b[..1]) == Push(0, b[0]);
  }

  /** Four bytes make that number. */
  lemma FourBytes(b: seq<Byte>) returns (n: nat)
    requires |b| == 4
    ensures n == Ntohl(b) && n == BigEndian(b[0], b[1], b[2], b[3])
    ensures n == Push(Push(Push(b[0], b[1]), b[2]), b[3])
  {
    var q := TwoBytes(b[..2]);
    assert b[..3][..2] == b[..2];
    assert Number(b[..3]) == Push(q, b[2]);
    n := Ntohl(b);
  }

  lemma NtohlHtonl(n: nat)
    requires n < TWO_32
    ensures Ntohl(Htonl(n)) == n
  {
    LimitOfFour();
    NumberOfDigits(n, 4);
  }

  lemma HtonlNtohl(b: seq<Byte>)
    requires |b| == 4
    ensures Htonl(Ntohl(b)) == b
  {
    DigitsOfNumber(b);
  }
}
