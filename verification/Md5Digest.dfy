/** The loops of lib/js/jquery.md5.js around the rounds: packing, the block loop, and the
    hexadecimal output. */
module Md5Digest {
  import opened Bits
  import opened Bytes
  import opened Md5Reference
  import opened Md5

  // ---------- shifts by whole bytes ----------

  lemma {:induction false} ShiftLeftTwice(x: Word, s: nat, t: nat)
    ensures ShiftLeft(x, s + t) == ShiftLeft(ShiftLeft(x, s), t)
    decreases s
  {
    if s > 0 {
      ShiftLeftTwice(2 * x % TWO_32, s - 1, t);
    }
  }

  lemma ShiftLeftTwo(x: Word)
    requires 4 * x < TWO_32
    ensures ShiftLeft(x, 2) == 4 * x
  {
    assert ShiftLeft(x, 2) == ShiftLeft(2 * x, 1) == ShiftLeft(4 * x, 0);
  }

  lemma ShiftLeftByte(x: Word)
    requires 0x100 * x < TWO_32
    ensures ShiftLeft(x, 8) == 0x100 * x
  {
    ShiftLeftTwice(x, 2, 6);
    ShiftLeftTwice(4 * x, 2, 4);
    ShiftLeftTwice(16 * x, 2, 2);
    ShiftLeftTwo(x);
    ShiftLeftTwo(4 * x);
    ShiftLeftTwo(16 * x);
    ShiftLeftTwo(64 * x);
  }

  function Weight(k: nat): nat
    requires k < 4
  {
    if k == 0 then 1 else if k == 1 then 0x100 else if k == 2 then 0x1_0000 else 0x100_0000
  }

  lemma LeftByByte(x: Word) returns (r: Word)
    requires 0x100 * x < TWO_32
    ensures r == ShiftLeft(x, 8) && r == 0x100 * x
  {
    ShiftLeftByte(x);
    r := 0x100 * x;
  }

  lemma TwoBytesLeft(b: Byte) returns (r: Word)
    ensures r == ShiftLeft(b, 16) && r == b * 0x1_0000
  {
    var x := LeftByByte(b);
    r := LeftByByte(x);
    ShiftLeftTwice(b, 8, 8);
  }

  lemma ThreeBytesLeft(b: Byte) returns (r: Word)
    ensures r == ShiftLeft(b, 24) && r == b * 0x100_0000
  {
    var x := TwoBytesLeft(b);
    r := LeftByByte(x);
    ShiftLeftTwice(b, 16, 8);
  }

  lemma ShiftByteLeft(b: Byte, k: nat)
    requires k < 4
    ensures ShiftLeft(b, k * 8) == b * Weight(k)
    ensures Pow2(k * 8) == Weight(k)
  {
    PowersOfTwo();
    if k == 0 {
      assert ShiftLeft(b, 0) == b;
    } else if k == 1 {
      var r := LeftByByte(b);
    } else if k == 2 {
      var r := TwoBytesLeft(b);
    } else {
      var r := ThreeBytesLeft(b);
    }
  }

  // ---------- packing one byte ----------

  lemma PackByte(s: seq<Byte>, b: Byte)
    ensures Or32(WordAt(s, |s| / 4), ShiftLeft(b, |s| % 4 * 8)) == WordAt(s + [b], |s| / 4)
    ensures forall w: nat :: w != |s| / 4 ==> WordAt(s + [b], w) == WordAt(s, w)
  {
    var w, k := |s| / 4, |s| % 4;
    ShiftByteLeft(b, k);
    WordGrows(s, b, w, k);
    OrHigh(WordAt(s, w), b, k * 8);
  }

  lemma WordGrows(s: seq<Byte>, b: Byte, w: nat, k: nat)
    requires |s| == 4 * w + k && k < 4
    ensures WordAt(s, w) < Weight(k)
    ensures WordAt(s + [b], w) == WordAt(s, w) + b * Weight(k)
  {
  }

  lemma PaddingIsZero(m: seq<Byte>, w: nat)
    requires 4 * w + 4 <= |Padded(m)|
    ensures WordAt(Padded(m), w) == WordAt(m + [0x80], w)
  {
    var p := Padded(m);
    assert forall i :: |m| + 1 <= i < |p| ==> p[i] == 0;
    assert forall i :: 0 <= i < |m| + 1 ==> p[i] == (m + [0x80])[i];
  }

  // ---------- how many words ----------

  // The number of words the source makes room for.
  function WordCount(n: nat): nat {
    ((n + 8 - (n + 8) % 64) / 64 + 1) * 16
  }

  lemma WordCountFits(m: seq<Byte>)
    ensures WordCount(|m|) == |Words(m)|
    ensures |m| / 4 < WordCount(|m|) - 2
  {
    var n, q, r := |m|, (|m| + 8) / 64, (|m| + 8) % 64;
    assert n + 8 == 64 * q + r;
    assert (n + 8 - r) / 64 == q;
    PadLength(n, q, r);
  }

  lemma PadLength(n: nat, q: nat, r: nat)
    requires n + 8 == 64 * q + r && r < 64
    ensures n + 1 + PadCount(n) + 8 == 64 * (q + 1)
  {
    if r >= 8 {
      assert n == 64 * q + (r - 8) && n % 64 == r - 8;
    } else {
      assert n == 64 * (q - 1) + (r + 56) && n % 64 == r + 56;
    }
  }

  lemma RightByFive(x: Word) returns (r: Word)
    ensures r == ShiftRight(x, 5) && r == x / 32
  {
    ShiftTwice(x, 2, 3);
    ShiftTwice(x / 4, 2, 1);
    ShiftByTwo(x);
    ShiftByTwo(x / 4);
    r := x / 32;
    assert ShiftRight(x / 4 / 4, 1) == x / 4 / 4 / 2;
  }

  lemma RightByThreeBytes(x: Word) returns (r: Word)
    ensures r == ShiftRight(x, 24) && r == x / 0x100_0000
  {
    ShiftByBytes(x);
    r := x / 0x100_0000;
  }

  lemma RightBy29(x: Word) returns (r: Word)
    ensures r == ShiftRight(x, 29) && r == x / 0x2000_0000
  {
    var h := RightByThreeBytes(x);
    ShiftTwice(x, 24, 5);
    r := RightByFive(h);
  }

  lemma HighBits(n: nat)
    ensures 8 * n / TWO_32 == n / 0x2000_0000
  {
  }

  lemma LengthInBits(n: Word)
    ensures LengthWords(n) == [8 * n % TWO_32, n / 0x2000_0000]
  {
    HighBits(n);
  }

  lemma LengthShifts(n: Word)
    ensures LengthWords(n) == [ShiftLeft(n, 3), ShiftRight(n, 29)]
  {
    ShiftLeftThree(n);
    var high := RightBy29(n);
    LengthInBits(n);
  }

  lemma LeftByOneThrice(n: Word) returns (x: Word, y: Word, z: Word)
    ensures x == 2 * n % TWO_32 && y == 2 * x % TWO_32 && z == 2 * y % TWO_32
    ensures z == ShiftLeft(n, 3)
  {
    x := 2 * n % TWO_32;
    y := 2 * x % TWO_32;
    z := 2 * y % TWO_32;
  }

  lemma EightTimes(n: nat, x: nat, y: nat, z: nat)
    requires x == 2 * n % TWO_32 && y == 2 * x % TWO_32 && z == 2 * y % TWO_32
    ensures z == 8 * n % TWO_32
  {
    DoubleMod(2 * n);
    DoubleMod(4 * n);
  }

  lemma ShiftLeftThree(n: Word)
    ensures ShiftLeft(n, 3) == 8 * n % TWO_32
  {
    var x, y, z := LeftByOneThrice(n);
    EightTimes(n, x, y, z);
  }

  lemma Rest(n: nat, q: nat, r: nat)
    requires n == q * TWO_32 + r && r < TWO_32
    ensures n % TWO_32 == r
  {
  }

  lemma DoubleMod(x: nat)
    ensures 2 * (x % TWO_32) % TWO_32 == 2 * x % TWO_32
  {
    var q, r := x / TWO_32, x % TWO_32;
    if 2 * r < TWO_32 {
      Rest(2 * x, 2 * q, 2 * r);
      Rest(2 * r, 0, 2 * r);
    } else {
      Rest(2 * x, 2 * q + 1, 2 * r - TWO_32);
      Rest(2 * r, 1, 2 * r - TWO_32);
    }
  }

  // x holds the bytes of s, packed.
  ghost predicate Packed(x: array<Word>, s: seq<Byte>)
    reads x
  {
    forall w :: 0 <= w < x.Length ==> x[w] == WordAt(s, w)
  }

  // One turn of the packing loop, and the byte that ends the message.
  method PackInto(x: array<Word>, ghost s: seq<Byte>, n: nat, b: Byte)
    requires n == |s| && n / 4 < x.Length && Packed(x, s)
    modifies x
    ensures Packed(x, s + [b])
  {
    PackByte(s, b);
    var lWordCount := (n - n % 4) / 4;
    var lBytePosition := n % 4 * 8;
    x[lWordCount] := Or32(x[lWordCount], ShiftLeft(b, lBytePosition));
  }

  method PackBytes(x: array<Word>, m: seq<Byte>)
    requires Packed(x, []) && |m| / 4 < x.Length
    modifies x
    ensures Packed(x, m)
  {
    var lByteCount := 0;
    while lByteCount < |m|
      invariant 0 <= lByteCount <= |m| && Packed(x, m[..lByteCount])
    {
      PackInto(x, m[..lByteCount], lByteCount, m[lByteCount]);
      assert m[..lByteCount] + [m[lByteCount]] == m[..lByteCount + 1];
      lByteCount := lByteCount + 1;
    }
    assert m[..lByteCount] == m;
  }

  lemma WordsOf(m: seq<Byte>, w: nat)
    requires w + 2 < |Words(m)|
    ensures Words(m)[w] == WordAt(m + [0x80], w)
  {
    PaddingIsZero(m, w);
  }

  method ConvertToWordArray(m: seq<Byte>) returns (x: array<Word>)
    requires |m| < TWO_32
    ensures fresh(x) && x[..] == Words(m)
  {
    WordCountFits(m);
    LengthShifts(|m|);
    var lMessageLength := |m|;
    var lNumberOfWordsTempOne := lMessageLength + 8;
    var lNumberOfWordsTempTwo := (lNumberOfWordsTempOne - lNumberOfWordsTempOne % 64) / 64;
    var lNumberOfWords := (lNumberOfWordsTempTwo + 1) * 16;
    x := new Word[lNumberOfWords](_ => 0);
    PackBytes(x, m);
    PackInto(x, m, lMessageLength, 0x80);
    x[lNumberOfWords - 2] := ShiftLeft(lMessageLength, 3);
    x[lNumberOfWords - 1] := ShiftRight(lMessageLength, 29);
    forall w | 0 <= w < x.Length - 2
      ensures x[w] == Words(m)[w]
    {
      WordsOf(m, w);
    }
  }

  // ---------- hexadecimal output ----------

  // toString(16) of a byte: no leading zero.
  function ToString16(n: nat): string
    requires n < 256
  {
    if n < 16 then [HexDigit(n)] else [HexDigit(n / 16), HexDigit(n % 16)]
  }

  lemma RightByBytes(v: Word, k: nat) returns (x: Word)
    requires k < 4
    ensures x == ShiftRight(v, k * 8) && x == v / Weight(k)
  {
    ShiftByBytes(v);
    assert ShiftRight(v, 0) == v;
    x := v / Weight(k);
  }

  lemma LowestByte(x: Word)
    ensures And32(x, 255) == x % 0x100
  {
    PowersOfTwo();
    AndMask(x % 0x100, x / 0x100, 8);
  }

  lemma ByteOf(v: Word, k: nat)
    requires k < 4
    ensures And32(ShiftRight(v, k * 8), 255) == v / Weight(k) % 0x100
  {
    var x := RightByBytes(v, k);
    LowestByte(x);
  }

  // The lowest n bytes of w, lowest first.
  function HexBytes(w: Word, n: nat): string
    requires n <= 4
  {
    if n == 0 then "" else HexBytes(w, n - 1) + HexByte(w / Weight(n - 1) % 0x100)
  }

  lemma HexBytesOfWord(w: Word)
    ensures HexBytes(w, 4) == HexWord(w)
  {
    assert HexBytes(w, 1) == HexByte(w % 0x100);
    assert HexBytes(w, 2) == HexByte(w % 0x100) + HexByte(w / 0x100 % 0x100);
    assert HexBytes(w, 3) == HexByte(w % 0x100) + HexByte(w / 0x100 % 0x100) + HexByte(w / 0x1_0000 % 0x100);
  }

  lemma LastTwo(n: nat)
    requires n < 256
    ensures var padded := "0" + ToString16(n); padded[|padded| - 2..] == HexByte(n)
  {
    var padded := "0" + ToString16(n);
    if n < 16 {
      assert n / 16 == 0 && n % 16 == n;
      assert padded[0..] == ['0', HexDigit(n)];
    } else {
      assert padded[1..] == ToString16(n);
    }
  }

  method ByteToHex(lValue: Word, lCount: nat) returns (two: string)
    requires lCount < 4
    ensures two == HexByte(lValue / Weight(lCount) % 0x100)
  {
    ByteOf(lValue, lCount);
    var lByte := And32(ShiftRight(lValue, lCount * 8), 255);
    LastTwo(lByte);
    var padded := "0" + ToString16(lByte);
    two := padded[|padded| - 2..];
  }

  method WordToHex(lValue: Word) returns (hex: string)
    ensures hex == HexWord(lValue)
  {
    hex := "";
    for lCount := 0 to 4
      invariant hex == HexBytes(lValue, lCount)
    {
      var two := ByteToHex(lValue, lCount);
      hex := hex + two;
    }
    HexBytesOfWord(lValue);
  }

  // ---------- the block loop ----------

  function TraceOf(r: Regs, block: seq<Word>): (t: seq<Regs>)
    requires |block| == 16
    ensures |t| == 65 && t[0] == r && t[64] == FourRounds(r, block)
  {
    seq(65, i requires 0 <= i < 65 => Steps(i, r, block))
  }

  lemma TraceOfIsTrace(r: Regs, block: seq<Word>)
    requires |block| == 16
    ensures IsTrace(TraceOf(r, block), block)
  {
    var t := TraceOf(r, block);
    forall i: nat | i < 64
      ensures t[i + 1] == Step(i, t[i], block)
    {
      assert Steps(i + 1, r, block) == Step(i, Steps(i, r, block), block);
    }
  }

  lemma DigestStep(m: nat, n: nat, x: seq<Word>, from: nat, to: nat, r: Regs) returns (next: Regs)
    requires m == n + 1 && from == 16 * n && to == 16 * m <= |x| && r == Md5Reference.Digest(n, x)
    ensures next == Md5Reference.Digest(m, x)
    ensures next == AddRegs(FourRounds(r, x[from..to]), r)
  {
    next := Md5Reference.Digest(m, x);
  }

  // One turn of the loop over the blocks, the one that takes in block n.
  method OneBlock(x: array<Word>, k: nat, AA: Word, BB: Word, CC: Word, DD: Word, ghost n: nat)
    returns (a: Word, b: Word, c: Word, d: Word)
    requires k == 16 * n && k + 16 == 16 * (n + 1) <= x.Length
    requires Regs(AA, BB, CC, DD) == Md5Reference.Digest(n, x[..])
    ensures Regs(a, b, c, d) == Md5Reference.Digest(n + 1, x[..])
  {
    ghost var block := x[k..k + 16];
    assert block == x[..][k..k + 16];
    ghost var r := Regs(AA, BB, CC, DD);
    ghost var t := TraceOf(r, block);
    TraceOfIsTrace(r, block);
    a, b, c, d := AA, BB, CC, DD;
    a, b, c, d := Round1(t, block, x, k, a, b, c, d);
    a, b, c, d := Round2(t, block, x, k, a, b, c, d);
    a, b, c, d := Round3(t, block, x, k, a, b, c, d);
    a, b, c, d := Round4(t, block, x, k, a, b, c, d);
    ghost var next := DigestStep(n + 1, n, x[..], k, k + 16, r);
    AddUnsignedAdds(a, AA);
    AddUnsignedAdds(b, BB);
    AddUnsignedAdds(c, CC);
    AddUnsignedAdds(d, DD);
    a, b, c, d := AddUnsigned(a, AA), AddUnsigned(b, BB), AddUnsigned(c, CC), AddUnsigned(d, DD);
  }

  lemma RoomForBlock(n: nat, count: nat)
    requires 16 * n < 16 * count
    ensures 16 * n + 16 == 16 * (n + 1) <= 16 * count
  {
  }

  method Blocks(x: array<Word>, ghost count: nat) returns (a: Word, b: Word, c: Word, d: Word)
    requires x.Length == 16 * count
    ensures Regs(a, b, c, d) == Md5Reference.Digest(count, x[..])
  {
    a, b, c, d := 0x67452301, 0xEFCDAB89, 0x98BADCFE, 0x10325476;
    var k := 0;
    ghost var n := 0;
    while k < x.Length
      invariant k == 16 * n <= x.Length
      invariant Regs(a, b, c, d) == Md5Reference.Digest(n, x[..])
    {
      RoomForBlock(n, count);
      a, b, c, d := OneBlock(x, k, a, b, c, d, n);
      k := k + 16;
      n := n + 1;
    }
    assert n == count;
  }

  /** $.md5 on a byte string is the MD5 digest of RFC 1321. */
  method Digest(m: seq<Byte>) returns (hex: string)
    requires |m| < TWO_32
    ensures hex == HexDigest(m)
  {
    var x := ConvertToWordArray(m);
    var a, b, c, d := Blocks(x, x.Length / 16);
    var ha := WordToHex(a);
    var hb := WordToHex(b);
    var hc := WordToHex(c);
    var hd := WordToHex(d);
    hex := ha + hb + hc + hd;
  }
}
