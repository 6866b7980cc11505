/** The MD5 message-digest algorithm as sections 3.1 to 3.5 of RFC 1321 describe it. */
module Md5Reference {
  import opened Bits
  import opened Bytes

  datatype Regs = Regs(a: Word, b: Word, c: Word, d: Word)

  // ---------- 3.1 and 3.2: padding and length ----------

  // Least k such that n + 1 + k is 56 modulo 64.
  function PadCount(n: nat): (k: nat)
    ensures (n + 1 + k) % 64 == 56 && k < 64
  {
    (119 - n % 64) % 64
  }

  function Padded(m: seq<Byte>): (p: seq<Byte>)
    ensures |p| % 64 == 56
  {
    m + [0x80] + seq(PadCount(|m|), _ => 0)
  }

  // Low-order byte first.
  function WordAt(s: seq<Byte>, w: nat): Word {
    ByteAt(s, 4 * w) + 0x100 * ByteAt(s, 4 * w + 1) + 0x1_0000 * ByteAt(s, 4 * w + 2) + 0x100_0000 * ByteAt(s, 4 * w + 3)
  }

  const TWO_64: nat := 0x1_0000_0000_0000_0000

  // The length in bits modulo 2^64, as two words, low-order word first.
  function LengthWords(n: nat): (x: seq<Word>)
    ensures |x| == 2
  {
    var bits := 8 * n % TWO_64;
    assert bits / TWO_32 < TWO_32;
    [bits % TWO_32, bits / TWO_32]
  }

  lemma WordsInPadding(n: nat)
    requires n % 64 == 56
    ensures (n / 4 + 2) % 16 == 0 && (n / 4 + 2) * 4 == n + 8
  {
    var q := n / 64;
    assert n == 4 * (16 * q + 14);
    assert n / 4 + 2 == 16 * (q + 1);
  }

  // The padded message in words, then its length.
  function Words(m: seq<Byte>): (x: seq<Word>)
    ensures |x| % 16 == 0
    ensures |x| * 4 == |Padded(m)| + 8
  {
    var p := Padded(m);
    WordsInPadding(|p|);
    seq(|p| / 4, (w: nat) => WordAt(p, w)) + LengthWords(|m|)
  }

  /** The padded message is the message, a byte 0x80 and the fewest zero bytes that make its length
      56 modulo 64. */
  lemma PaddingIs(m: seq<Byte>)
    ensures var p := Padded(m);
            && |m| < |p| <= |m| + 64 && |p| % 64 == 56
            && m <= p && p[|m|] == 0x80 && forall j :: |m| < j < |p| ==> p[j] == 0
  {
  }

  /** A word's first byte is its lowest. */
  lemma WordBytes(s: seq<Byte>, w: nat)
    requires 4 * w + 3 < |s|
    ensures WordAt(s, w) == BigEndian(s[4 * w + 3], s[4 * w + 2], s[4 * w + 1], s[4 * w])
  {
  }

  lemma LengthIs(n: nat)
    ensures var low: nat, high: nat := LengthWords(n)[0], LengthWords(n)[1];
            low + 0x1_0000_0000 * high == 8 * n % 0x1_0000_0000_0000_0000
  {
    var bits := 8 * n % TWO_64;
    assert bits == TWO_32 * (bits / TWO_32) + bits % TWO_32;
  }

  /** The words are those of the padded message, and the two of its length. */
  lemma WordsAre(m: seq<Byte>, w: nat)
    requires w < |Words(m)|
    ensures Words(m)[w] == if w + 2 < |Words(m)| then WordAt(Padded(m), w) else LengthWords(|m|)[w + 2 - |Words(m)|]
  {
    WordsInPadding(|Padded(m)|);
  }

  // ---------- 3.4: the four functions, the schedule and the table ----------

  function F(x: Word, y: Word, z: Word): Word { Or32(And32(x, y), And32(Not32(x), z)) }
  function G(x: Word, y: Word, z: Word): Word { Or32(And32(x, z), And32(y, Not32(z))) }
  function H(x: Word, y: Word, z: Word): Word { Xor32(Xor32(x, y), z) }
  function I(x: Word, y: Word, z: Word): Word { Xor32(y, Or32(x, Not32(z))) }

  lemma NotWordBit(z: Word, k: nat)
    requires k < 32
    ensures Bit(Not32(z), k) <==> !Bit(z, k)
  {
    PowersOfTwo();
    NotBit(z, 32, k);
  }

  /** Bit by bit, F takes y where x is set and z where it is not, G takes x where z is set and y
      where it is not, H is the parity of the three, and I is y changed where x is set or z is not. */
  lemma RoundFunctionBits(x: Word, y: Word, z: Word, k: nat)
    requires k < 32
    ensures Bit(F(x, y, z), k) == if Bit(x, k) then Bit(y, k) else Bit(z, k)
    ensures Bit(G(x, y, z), k) == if Bit(z, k) then Bit(x, k) else Bit(y, k)
    ensures Bit(H(x, y, z), k) == (Bit(x, k) != (Bit(y, k) != Bit(z, k)))
    ensures Bit(I(x, y, z), k) == (Bit(y, k) != (Bit(x, k) || !Bit(z, k)))
  {
    NotWordBit(x, k);
    NotWordBit(z, k);
    OrBit(And32(x, y), And32(Not32(x), z), k);
    AndBit(x, y, k);
    AndBit(Not32(x), z, k);
    OrBit(And32(x, z), And32(y, Not32(z)), k);
    AndBit(x, z, k);
    AndBit(y, Not32(z), k);
    XorBit(x, y, k);
    XorBit(Xor32(x, y), z, k);
    OrBit(x, Not32(z), k);
    XorBit(y, Or32(x, Not32(z)), k);
  }

  function Mix(i: nat, x: Word, y: Word, z: Word): Word {
    if i < 16 then F(x, y, z) else if i < 32 then G(x, y, z) else if i < 48 then H(x, y, z) else I(x, y, z)
  }

  /** The four rounds use the four functions in this order. */
  lemma MixBits(i: nat, x: Word, y: Word, z: Word, k: nat)
    requires i < 64 && k < 32
    ensures Bit(Mix(i, x, y, z), k) ==
            if i / 16 == 0 then (if Bit(x, k) then Bit(y, k) else Bit(z, k))
            else if i / 16 == 1 then (if Bit(z, k) then Bit(x, k) else Bit(y, k))
            else if i / 16 == 2 then Bit(x, k) != (Bit(y, k) != Bit(z, k))
            else Bit(y, k) != (Bit(x, k) || !Bit(z, k))
  {
    RoundFunctionBits(x, y, z, k);
  }

  // Which word of the block step i uses.
  function Pick(i: nat): nat {
    if i < 16 then i else if i < 32 then (1 + 5 * i) % 16 else if i < 48 then (5 + 3 * i) % 16 else 7 * i % 16
  }

  function Shift(i: nat): (s: nat)
    ensures 0 < s < 32
  {
    var r := i % 4;
    if i < 16 then (if r == 0 then 7 else if r == 1 then 12 else if r == 2 then 17 else 22)
    else if i < 32 then (if r == 0 then 5 else if r == 1 then 9 else if r == 2 then 14 else 20)
    else if i < 48 then (if r == 0 then 4 else if r == 1 then 11 else if r == 2 then 16 else 23)
    else if r == 0 then 6 else if r == 1 then 10 else if r == 2 then 15 else 21
  }

  // T[1..64] of section 3.4, counted from 0: the integer part of 2^32 times |sin(i + 1)|.
  const T1: seq<Word> := [
    0xd76aa478, 0xe8c7b756, 0x242070db, 0xc1bdceee, 0xf57c0faf, 0x4787c62a, 0xa8304613, 0xfd469501,
    0x698098d8, 0x8b44f7af, 0xffff5bb1, 0x895cd7be, 0x6b901122, 0xfd987193, 0xa679438e, 0x49b40821]
  const T2: seq<Word> := [
    0xf61e2562, 0xc040b340, 0x265e5a51, 0xe9b6c7aa, 0xd62f105d, 0x02441453, 0xd8a1e681, 0xe7d3fbc8,
    0x21e1cde6, 0xc33707d6, 0xf4d50d87, 0x455a14ed, 0xa9e3e905, 0xfcefa3f8, 0x676f02d9, 0x8d2a4c8a]
  const T3: seq<Word> := [
    0xfffa3942, 0x8771f681, 0x6d9d6122, 0xfde5380c, 0xa4beea44, 0x4bdecfa9, 0xf6bb4b60, 0xbebfbc70,
    0x289b7ec6, 0xeaa127fa, 0xd4ef3085, 0x04881d05, 0xd9d4d039, 0xe6db99e5, 0x1fa27cf8, 0xc4ac5665]
  const T4: seq<Word> := [
    0xf4292244, 0x432aff97, 0xab9423a7, 0xfc93a039, 0x655b59c3, 0x8f0ccc92, 0xffeff47d, 0x85845dd1,
    0x6fa87e4f, 0xfe2ce6e0, 0xa3014314, 0x4e0811a1, 0xf7537e82, 0xbd3af235, 0x2ad7d2bb, 0xeb86d391]

  function T(i: nat): Word
    requires i < 64
  {
    if i < 16 then T1[i] else if i < 32 then T2[i - 16] else if i < 48 then T3[i - 32] else T4[i - 48]
  }

  function RotateLeft(x: Word, s: nat): Word
    requires s <= 32
  {
    Or32(ShiftLeft(x, s), ShiftRight(x, 32 - s))
  }

  /** It is the product with 2^s, in 32 bits, and what that pushes out. */
  lemma RotateLeftIs(x: Word, s: nat)
    requires s <= 32
    ensures RotateLeft(x, s) == x * Pow2(s) % 0x1_0000_0000 + x / Pow2(32 - s)
  {
    ShiftsTurn(x, s);
  }

  // [abcd k s i]: the step's new register, and the roles of the four moved on by one.
  function Step(i: nat, r: Regs, x: seq<Word>): Regs
    requires i < 64 && |x| == 16
  {
    var sum := Add32(Add32(Add32(r.a, Mix(i, r.b, r.c, r.d)), x[Pick(i)]), T(i));
    Regs(r.d, Add32(r.b, RotateLeft(sum, Shift(i))), r.b, r.c)
  }

  /** The shifts of the four rounds, as section 3.4 lists them. */
  lemma ShiftsAreListed(i: nat)
    requires i < 64
    ensures Shift(i) == [7, 12, 17, 22, 5, 9, 14, 20, 4, 11, 16, 23, 6, 10, 15, 21][i / 16 * 4 + i % 4]
  {
  }

  /** And the words: those of the first round in order, */
  lemma FirstPicks(i: nat)
    requires i < 16
    ensures Pick(i) == i
  {
  }

  /** those of the second, */
  lemma SecondPicks()
    ensures [Pick(16), Pick(17), Pick(18), Pick(19), Pick(20), Pick(21), Pick(22), Pick(23),
             Pick(24), Pick(25), Pick(26), Pick(27), Pick(28), Pick(29), Pick(30), Pick(31)]
         == [1, 6, 11, 0, 5, 10, 15, 4, 9, 14, 3, 8, 13, 2, 7, 12]
  {
  }

  /** the third */
  lemma ThirdPicks()
    ensures [Pick(32), Pick(33), Pick(34), Pick(35), Pick(36), Pick(37), Pick(38), Pick(39),
             Pick(40), Pick(41), Pick(42), Pick(43), Pick(44), Pick(45), Pick(46), Pick(47)]
         == [5, 8, 11, 14, 1, 4, 7, 10, 13, 0, 3, 6, 9, 12, 15, 2]
  {
  }

  /** and the fourth. */
  lemma FourthPicks()
    ensures [Pick(48), Pick(49), Pick(50), Pick(51), Pick(52), Pick(53), Pick(54), Pick(55),
             Pick(56), Pick(57), Pick(58), Pick(59), Pick(60), Pick(61), Pick(62), Pick(63)]
         == [0, 7, 14, 5, 12, 3, 10, 1, 8, 15, 6, 13, 4, 11, 2, 9]
  {
  }

  lemma ModSum(w: nat, u: nat, v: nat)
    requires w == u % TWO_32
    ensures (w + v) % TWO_32 == (u + v) % TWO_32
  {
  }

  lemma ReferenceSum(a: Word, f: Word, x: Word, ac: Word)
    ensures Add32(Add32(Add32(a, f), x), ac) == (a + f + x + ac) % TWO_32
  {
    ModSum(Add32(a, f), a + f, x);
    ModSum(Add32(Add32(a, f), x), a + f + x, ac);
  }

  lemma StepSum(a: Word, f: Word, x: Word, t: Word) returns (sum: Word)
    ensures sum == Add32(Add32(Add32(a, f), x), t) && sum == (a + f + x + t) % 0x1_0000_0000
  {
    ReferenceSum(a, f, x, t);
    sum := Add32(Add32(Add32(a, f), x), t);
  }

  lemma Rotated(x: Word, s: nat) returns (y: Word)
    requires s <= 32
    ensures y == RotateLeft(x, s) && y == x * Pow2(s) % 0x1_0000_0000 + x / Pow2(32 - s)
  {
    RotateLeftIs(x, s);
    y := RotateLeft(x, s);
  }

  /** [abcd k s i] is a = b + ((a + F(b, c, d) + X[k] + T[i]) <<< s), and the registers move on. */
  lemma StepIs(i: nat, r: Regs, x: seq<Word>) returns (sum: Word, turned: Word)
    requires i < 64 && |x| == 16
    ensures sum == (r.a + Mix(i, r.b, r.c, r.d) + x[Pick(i)] + T(i)) % 0x1_0000_0000
    ensures turned == sum * Pow2(Shift(i)) % 0x1_0000_0000 + sum / Pow2(32 - Shift(i))
    ensures Step(i, r, x) == Regs(r.d, (r.b + turned) % 0x1_0000_0000, r.b, r.c)
  {
    sum := StepSum(r.a, Mix(i, r.b, r.c, r.d), x[Pick(i)], T(i));
    turned := Rotated(sum, Shift(i));
  }

  function Steps(n: nat, r: Regs, x: seq<Word>): Regs
    requires n <= 64 && |x| == 16
  {
    if n == 0 then r else Step(n - 1, Steps(n - 1, r, x), x)
  }

  // Four rounds of one step per word of the block.
  function FourRounds(r: Regs, x: seq<Word>): Regs
    requires |x| == 16
  {
    Steps(4 * |x|, r, x)
  }

  function AddRegs(r: Regs, s: Regs): Regs {
    Regs(Add32(r.a, s.a), Add32(r.b, s.b), Add32(r.c, s.c), Add32(r.d, s.d))
  }

  // ---------- 3.3 and 3.4: all blocks ----------

  const START: Regs := Regs(0x67452301, 0xefcdab89, 0x98badcfe, 0x10325476)

  function Digest(n: nat, x: seq<Word>): Regs
    requires 16 * n <= |x|
  {
    if n == 0 then START
    else
      var r := Digest(n - 1, x);
      AddRegs(FourRounds(r, x[16 * (n - 1)..16 * n]), r)
  }

  lemma StartValues(x: seq<Word>)
    ensures Digest(0, x) == Regs(0x67452301, 0xefcdab89, 0x98badcfe, 0x10325476)
  {
  }

  lemma FourRoundsAre(r: Regs, x: seq<Word>, n: nat)
    requires |x| == 16 && n == 64
    ensures FourRounds(r, x) == Steps(n, r, x)
  {
  }

  lemma OneBlockMore(n: nat, x: seq<Word>) returns (r: Regs, s: Regs)
    requires n > 0 && 16 * n <= |x|
    ensures r == Digest(n - 1, x) && s == FourRounds(r, x[16 * (n - 1)..16 * n])
    ensures Digest(n, x) == AddRegs(s, r)
  {
    r := Digest(n - 1, x);
    s := FourRounds(r, x[16 * (n - 1)..16 * n]);
  }

  lemma AddedRegs(s: Regs, r: Regs)
    ensures AddRegs(s, r) == Regs((s.a + r.a) % 0x1_0000_0000, (s.b + r.b) % 0x1_0000_0000,
                                  (s.c + r.c) % 0x1_0000_0000, (s.d + r.d) % 0x1_0000_0000)
  {
  }

  /** After a block each register is the sum of what the four rounds make of it and what it was. */
  lemma BlockAdds(n: nat, x: seq<Word>) returns (r: Regs, s: Regs)
    requires n > 0 && 16 * n <= |x|
    ensures r == Digest(n - 1, x) && s == FourRounds(r, x[16 * (n - 1)..16 * n])
    ensures Digest(n, x) == Regs((s.a + r.a) % 0x1_0000_0000, (s.b + r.b) % 0x1_0000_0000,
                                 (s.c + r.c) % 0x1_0000_0000, (s.d + r.d) % 0x1_0000_0000)
  {
    r, s := OneBlockMore(n, x);
    AddedRegs(s, r);
  }

  // ---------- 3.5: output, low-order byte of a first ----------

  function HexDigit(n: nat): char
    requires n < 16
  {
    if n < 10 then '0' + n as char else 'a' + (n - 10) as char
  }

  function HexByte(n: nat): string
    requires n < 256
  {
    [HexDigit(n / 16), HexDigit(n % 16)]
  }

  function HexWord(w: Word): string {
    HexByte(w % 0x100) + HexByte(w / 0x100 % 0x100) + HexByte(w / 0x1_0000 % 0x100) + HexByte(w / 0x100_0000 % 0x100)
  }

  /** Hexadecimal digits are 0 to 9 and a to f, and a word's lowest byte is written first. */
  lemma HexIs(b0: Byte, b1: Byte, b2: Byte, b3: Byte)
    ensures HexByte(b0) == ["0123456789abcdef"[b0 / 16], "0123456789abcdef"[b0 % 16]]
    ensures HexWord(BigEndian(b3, b2, b1, b0)) == HexByte(b0) + HexByte(b1) + HexByte(b2) + HexByte(b3)
  {
    var _ := BytesOf(b0, b1, b2, b3);
  }

  lemma BytesOf(b0: Byte, b1: Byte, b2: Byte, b3: Byte) returns (w: Word)
    ensures w == BigEndian(b3, b2, b1, b0)
    ensures w % 0x100 == b0 && w / 0x100 % 0x100 == b1 && w / 0x1_0000 % 0x100 == b2 && w / 0x100_0000 % 0x100 == b3
  {
    w := BigEndian(b3, b2, b1, b0);
    var h1: nat := BigEndian(0, b3, b2, b1);
    var h2: nat := BigEndian(0, 0, b3, b2);
    Quotient(w, 0x100, h1, b0);
    Quotient(h1, 0x100, h2, b1);
    Quotient(w, 0x1_0000, h2, BigEndian(0, 0, b1, b0));
    Quotient(h2, 0x100, b3, b2);
    Quotient(w, 0x100_0000, b3, BigEndian(0, b2, b1, b0));
  }

  function HexDigest(m: seq<Byte>): string {
    var x := Words(m);
    var r := Digest(|x| / 16, x);
    HexWord(r.a) + HexWord(r.b) + HexWord(r.c) + HexWord(r.d)
  }

  /** The digest is 32 digits, eight for each register in order. */
  lemma DigestPlaces(m: seq<Byte>)
    ensures var r := Digest(|Words(m)| / 16, Words(m)); var s := HexDigest(m);
            && |s| == 32
            && s[..8] == HexWord(r.a) && s[8..16] == HexWord(r.b) && s[16..24] == HexWord(r.c) && s[24..] == HexWord(r.d)
  {
    var r := Digest(|Words(m)| / 16, Words(m));
    Quarters(HexWord(r.a), HexWord(r.b), HexWord(r.c), HexWord(r.d));
  }

  lemma Quarters(a: string, b: string, c: string, d: string)
    requires |a| == |b| == |c| == |d| == 8
    ensures var s := a + b + c + d; |s| == 32 && s[..8] == a && s[8..16] == b && s[16..24] == c && s[24..] == d
  {
  }
}
