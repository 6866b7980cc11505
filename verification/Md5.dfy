/** lib/js/jquery.md5.js on byte strings: a 32-bit adder made from 30-bit additions, the
    message packed into words by or-ing bytes in place, and 64 steps written out one by one.
    Proved to compute what Md5Reference does. */
module Md5 {
  import opened Bits
  import opened Bytes
  import opened Md5Reference

  // ---------- the adder ----------

  // lX and lY without their two top bits are added; the top bits are put in by hand.
  function AddUnsigned(lX: Word, lY: Word): Word {
    var lResult: Word := And32(lX, 0x3FFF_FFFF) + And32(lY, 0x3FFF_FFFF);
    PutTopBits(lResult, And32(lX, 0x8000_0000), And32(lY, 0x8000_0000), And32(lX, 0x4000_0000), And32(lY, 0x4000_0000))
  }

  function PutTopBits(lResult: Word, lX8: Word, lY8: Word, lX4: Word, lY4: Word): Word {
    if And32(lX4, lY4) != 0 then Xor32(Xor32(Xor32(lResult, 0x8000_0000), lX8), lY8)
    else if Or32(lX4, lY4) != 0 then
      if And32(lResult, 0x4000_0000) != 0 then Xor32(Xor32(Xor32(lResult, 0xC000_0000), lX8), lY8)
      else Xor32(Xor32(Xor32(lResult, 0x4000_0000), lX8), lY8)
    else Xor32(Xor32(lResult, lX8), lY8)
  }

  // A word as its low thirty bits and the two above them.
  lemma TwoTopBits(w: nat, h: nat, c: nat)
    requires w < 0x4000_0000 && h < 4 && c < 4
    ensures And(w + h * 0x4000_0000, c * 0x4000_0000) == And(h, c) * 0x4000_0000
    ensures Xor(w + h * 0x4000_0000, c * 0x4000_0000) == w + Xor(h, c) * 0x4000_0000
    ensures And(w + h * 0x4000_0000, 0x3FFF_FFFF) == w
  {
    PowersOfTwo();
    AndHigh(w, h, c, 30);
    XorHigh(w, h, c, 30);
    AndMask(w, h, 30);
  }

  lemma TwoBits(h: nat)
    requires h < 4
    ensures And(h, 1) == h % 2 && And(h, 2) == h - h % 2
    ensures Xor(h, 0) == h && Xor(h, 1) == h + 1 - h % 2 * 2
    ensures Xor(h, 2) == (h + 2) % 4 && Xor(h, 3) == 3 - h
  {
  }

  lemma OrOfZeros(x: nat, y: nat)
    ensures Or(x, y) == 0 <==> x == 0 && y == 0
    ensures And(x, x) == x
    ensures And(x, 0) == 0 && And(0, x) == 0
  {
    AndSelf(x);
  }

  lemma {:induction false} AndSelf(x: nat)
    ensures And(x, x) == x
  {
    if x > 0 {
      AndSelf(x / 2);
    }
  }

  const TOP: nat := 0x4000_0000

  // Toggling top bits c of a word with top bits h and low part w.
  lemma Toggle(v: Word, w: nat, h: nat, c: nat)
    requires w < TOP && h < 4 && c < 4 && v == w + h * TOP
    ensures Xor32(v, c * TOP) == w + Xor(h, c) * TOP
  {
    TwoTopBits(w, h, c);
  }

  lemma SplitBits(x: nat) returns (x8: nat, x4: nat)
    requires x < 4
    ensures x8 == And(x, 2) && x4 == And(x, 1) && x == x8 + x4 && x4 < 2 && (x8 == 0 || x8 == 2)
  {
    TwoBits(x);
    x8, x4 := And(x, 2), And(x, 1);
  }

  // What the branches make of the two top bits.
  function TopBits(x8: nat, y8: nat, x4: nat, y4: nat, carry: nat): nat {
    if And(x4, y4) != 0 then Xor(Xor(Xor(carry, 2), x8), y8)
    else if Or(x4, y4) != 0 then
      if And(carry, 1) != 0 then Xor(Xor(Xor(carry, 3), x8), y8) else Xor(Xor(Xor(carry, 1), x8), y8)
    else Xor(Xor(carry, x8), y8)
  }

  lemma ToggleTwo(h: nat, t: nat)
    requires h < 4 && (t == 0 || t == 2)
    ensures Xor(h, t) == (h + t) % 4
  {
    TwoBits(h);
  }

  lemma HighBitsToggle(h: nat, x8: nat, y8: nat)
    requires h < 4 && (x8 == 0 || x8 == 2) && (y8 == 0 || y8 == 2)
    ensures Xor(h, x8) < 4 && Xor(Xor(h, x8), y8) == (h + x8 + y8) % 4
  {
    ToggleTwo(h, x8);
    ToggleTwo((h + x8) % 4, y8);
  }

  lemma LowBits(x4: nat, y4: nat)
    requires x4 < 2 && y4 < 2
    ensures And(x4, y4) != 0 <==> x4 + y4 == 2
    ensures Or(x4, y4) != 0 <==> x4 + y4 > 0
  {
  }

  lemma CarryToggle(carry: nat) returns (h1: nat, h2: nat, h3: nat)
    requires carry < 2
    ensures h1 == Xor(carry, 1) && (carry == 0 ==> h1 == 1)
    ensures h2 == Xor(carry, 2) && h2 == carry + 2
    ensures h3 == Xor(carry, 3) && (carry == 1 ==> h3 == 2)
    ensures And(carry, 1) == carry
  {
    TwoBits(carry);
    h1, h2, h3 := Xor(carry, 1), Xor(carry, 2), Xor(carry, 3);
  }

  lemma LowBitsAdd(x4: nat, y4: nat, carry: nat) returns (h: nat)
    requires x4 < 2 && y4 < 2 && carry < 2
    ensures h == x4 + y4 + carry < 4
    ensures h == if And(x4, y4) != 0 then Xor(carry, 2)
                 else if Or(x4, y4) != 0 then if And(carry, 1) != 0 then Xor(carry, 3) else Xor(carry, 1)
                 else carry
  {
    LowBits(x4, y4);
    var h1, h2, h3 := CarryToggle(carry);
    h := x4 + y4 + carry;
  }

  lemma TopBitsAdd(x8: nat, y8: nat, x4: nat, y4: nat, carry: nat)
    requires (x8 == 0 || x8 == 2) && (y8 == 0 || y8 == 2) && x4 < 2 && y4 < 2 && carry < 2
    ensures TopBits(x8, y8, x4, y4, carry) == (x4 + y4 + carry + x8 + y8) % 4
  {
    var h := LowBitsAdd(x4, y4, carry);
    HighBitsToggle(h, x8, y8);
  }

  lemma Toggled(v: Word, w: nat, h: nat, c: nat) returns (t: Word, g: nat)
    requires w < TOP && h < 4 && c < 4 && v == w + h * TOP
    ensures t == Xor32(v, c * TOP) && g == Xor(h, c) && g < 4 && t == w + g * TOP
  {
    TwoBits(h);
    Toggle(v, w, h, c);
    t, g := Xor32(v, c * TOP), Xor(h, c);
  }

  lemma ToggleThrice(v: Word, w: nat, carry: nat, c: nat, x8: nat, y8: nat) returns (t: Word, g: nat)
    requires w < TOP && carry < 2 && c < 4 && v == w + carry * TOP && x8 < 4 && y8 < 4
    ensures t == Xor32(Xor32(Xor32(v, c * TOP), x8 * TOP), y8 * TOP)
    ensures g == Xor(Xor(Xor(carry, c), x8), y8)
    ensures t == w + g * TOP
  {
    t, g := Toggled(v, w, carry, c);
    t, g := Toggled(t, w, g, x8);
    t, g := Toggled(t, w, g, y8);
  }

  lemma ToggleTwice(v: Word, w: nat, carry: nat, x8: nat, y8: nat) returns (t: Word, g: nat)
    requires w < TOP && carry < 2 && v == w + carry * TOP && x8 < 4 && y8 < 4
    ensures t == Xor32(Xor32(v, x8 * TOP), y8 * TOP)
    ensures g == Xor(Xor(carry, x8), y8)
    ensures t == w + g * TOP
  {
    t, g := Toggled(v, w, carry, x8);
    t, g := Toggled(t, w, g, y8);
  }

  // The masks split a word into its low part and its two top bits.
  lemma Masks(x: Word) returns (w: nat, h: nat, x8: nat, x4: nat)
    ensures w < TOP && h < 4 && x == w + h * TOP
    ensures x8 == And(h, 2) && And32(x, 0x8000_0000) == x8 * TOP
    ensures x4 == And(h, 1) && And32(x, 0x4000_0000) == x4 * TOP
    ensures And32(x, 0x3FFF_FFFF) == w
    ensures (x8 == 0 || x8 == 2) && x4 < 2
  {
    w, h := x % TOP, x / TOP;
    TwoTopBits(w, h, 2);
    TwoTopBits(w, h, 1);
    x8, x4 := SplitBits(h);
  }

  lemma SecondBits(x4: nat, y4: nat)
    requires x4 < 2 && y4 < 2
    ensures And32(x4 * TOP, y4 * TOP) != 0 <==> And(x4, y4) != 0
    ensures Or32(x4 * TOP, y4 * TOP) != 0 <==> Or(x4, y4) != 0
  {
    LowBits(x4, y4);
    OrOfZeros(x4 * TOP, y4 * TOP);
    OrOfZeros(TOP, TOP);
  }

  // The sum of the low parts, with the carry out of it.
  lemma LowSum(xl: nat, yl: nat) returns (v: Word, w: nat, carry: nat)
    requires xl < TOP && yl < TOP
    ensures v == xl + yl == w + carry * TOP && w < TOP && carry < 2
    ensures And32(v, 0x4000_0000) == carry * TOP && And(carry, 1) == carry
  {
    v := xl + yl;
    var w', h, x8, x4 := Masks(v);
    w, carry := w', h;
    TwoBits(carry);
  }

  lemma Branches(v: Word, w: nat, carry: nat, x8: nat, y8: nat, x4: nat, y4: nat)
    requires w < TOP && carry < 2 && v == w + carry * TOP && x8 < 4 && y8 < 4
    ensures (if And(x4, y4) != 0 then Xor32(Xor32(Xor32(v, 2 * TOP), x8 * TOP), y8 * TOP)
             else if Or(x4, y4) != 0 then
               if carry != 0 then Xor32(Xor32(Xor32(v, 3 * TOP), x8 * TOP), y8 * TOP)
               else Xor32(Xor32(Xor32(v, 1 * TOP), x8 * TOP), y8 * TOP)
             else Xor32(Xor32(v, x8 * TOP), y8 * TOP))
         == w + (if And(x4, y4) != 0 then Xor(Xor(Xor(carry, 2), x8), y8)
                 else if Or(x4, y4) != 0 then
                   if carry != 0 then Xor(Xor(Xor(carry, 3), x8), y8) else Xor(Xor(Xor(carry, 1), x8), y8)
                 else Xor(Xor(carry, x8), y8)) * TOP
  {
    if And(x4, y4) != 0 {
      var t, g := ToggleThrice(v, w, carry, 2, x8, y8);
    } else if Or(x4, y4) != 0 {
      var t, g := ToggleThrice(v, w, carry, if carry != 0 then 3 else 1, x8, y8);
    } else {
      var t, g := ToggleTwice(v, w, carry, x8, y8);
    }
  }

  // The tests and masks, with the top bits as multiples of TOP.
  lemma PutTopBitsParts(v: Word, x8: nat, y8: nat, x4: nat, y4: nat, c: nat)
    requires x8 < 4 && y8 < 4 && x4 < 2 && y4 < 2
    requires And32(v, 0x4000_0000) == c * TOP
    ensures PutTopBits(v, x8 * TOP, y8 * TOP, x4 * TOP, y4 * TOP) ==
              if And(x4, y4) != 0 then Xor32(Xor32(Xor32(v, 2 * TOP), x8 * TOP), y8 * TOP)
              else if Or(x4, y4) != 0 then
                if c != 0 then Xor32(Xor32(Xor32(v, 3 * TOP), x8 * TOP), y8 * TOP)
                else Xor32(Xor32(Xor32(v, 1 * TOP), x8 * TOP), y8 * TOP)
              else Xor32(Xor32(v, x8 * TOP), y8 * TOP)
  {
    SecondBits(x4, y4);
  }

  lemma TopBitsPut(v: Word, w: nat, carry: nat, hx: nat, hy: nat, x8: nat, y8: nat, x4: nat, y4: nat) returns (t: nat)
    requires w < TOP && carry < 2 && v == w + carry * TOP && hx < 4 && hy < 4
    requires And32(v, 0x4000_0000) == carry * TOP && And(carry, 1) == carry
    requires x8 == And(hx, 2) && y8 == And(hy, 2) && x4 == And(hx, 1) && y4 == And(hy, 1)
    requires x8 < 4 && y8 < 4 && x4 < 2 && y4 < 2
    ensures t == (hx + hy + carry) % 4
    ensures PutTopBits(v, x8 * TOP, y8 * TOP, x4 * TOP, y4 * TOP) == w + t * TOP
  {
    var _, _ := SplitBits(hx);
    var _, _ := SplitBits(hy);
    t := TopBits(x8, y8, x4, y4, carry);
    PutTopBitsParts(v, x8, y8, x4, y4, carry);
    Branches(v, w, carry, x8, y8, x4, y4);
    TopBitsAdd(x8, y8, x4, y4, carry);
  }

  lemma AddWithTopBits(x: Word, y: Word) returns (w: nat, s: nat, t: nat)
    ensures w < TOP && t == s % 4
    ensures x + y == w + s * TOP
    ensures AddUnsigned(x, y) == w + t * TOP
  {
    var xl, hx, x8, x4 := Masks(x);
    var yl, hy, y8, y4 := Masks(y);
    var v, w', carry := LowSum(xl, yl);
    t := TopBitsPut(v, w', carry, hx, hy, x8, y8, x4, y4);
    w, s := w', hx + hy + carry;
  }

  lemma ModTop(n: nat, w: nat, s: nat, t: nat)
    requires n == w + s * TOP && w < TOP && t == s % 4
    ensures n % TWO_32 == w + t * TOP
  {
    var q := s / 4;
    assert n == q * TWO_32 + (w + t * TOP);
  }

  lemma SumModulo(x: Word, y: Word, w: nat, s: nat, t: nat, r: Word)
    requires x + y == w + s * TOP && w < TOP && t == s % 4 && r == w + t * TOP
    ensures r == Add32(x, y)
  {
    ModTop(x + y, w, s, t);
  }

  /** The hand-made adder is addition modulo 2^32. */
  lemma AddUnsignedAdds(x: Word, y: Word)
    ensures AddUnsigned(x, y) == Add32(x, y)
  {
    var w, s, t := AddWithTopBits(x, y);
    SumModulo(x, y, w, s, t, AddUnsigned(x, y));
  }

  // ---------- the step functions ----------

  function FF(a: Word, b: Word, c: Word, d: Word, x: Word, s: nat, ac: Word): Word
    requires s <= 32
  {
    AddUnsigned(RotateLeft(AddUnsigned(a, AddUnsigned(AddUnsigned(F(b, c, d), x), ac)), s), b)
  }

  function GG(a: Word, b: Word, c: Word, d: Word, x: Word, s: nat, ac: Word): Word
    requires s <= 32
  {
    AddUnsigned(RotateLeft(AddUnsigned(a, AddUnsigned(AddUnsigned(G(b, c, d), x), ac)), s), b)
  }

  function HH(a: Word, b: Word, c: Word, d: Word, x: Word, s: nat, ac: Word): Word
    requires s <= 32
  {
    AddUnsigned(RotateLeft(AddUnsigned(a, AddUnsigned(AddUnsigned(H(b, c, d), x), ac)), s), b)
  }

  function II(a: Word, b: Word, c: Word, d: Word, x: Word, s: nat, ac: Word): Word
    requires s <= 32
  {
    AddUnsigned(RotateLeft(AddUnsigned(a, AddUnsigned(AddUnsigned(I(b, c, d), x), ac)), s), b)
  }

  lemma Added(x: Word, y: Word) returns (r: Word)
    ensures r == AddUnsigned(x, y) && r == Add32(y, x) && r == (x + y) % TWO_32
  {
    AddUnsignedAdds(x, y);
    r := Add32(x, y);
  }

  lemma SumOfThree(f: Word, x: Word, ac: Word) returns (sum: Word)
    ensures sum == AddUnsigned(AddUnsigned(f, x), ac) && sum == (f + x + ac) % TWO_32
  {
    var r := Added(f, x);
    sum := Added(r, ac);
    ModSum(r, f + x, ac);
  }

  lemma SumOfFour(a: Word, f: Word, x: Word, ac: Word) returns (sum: Word)
    ensures sum == AddUnsigned(a, AddUnsigned(AddUnsigned(f, x), ac)) && sum == (a + f + x + ac) % TWO_32
  {
    var r := SumOfThree(f, x, ac);
    sum := Added(a, r);
    ModSum(r, f + x + ac, a);
    assert a + r == r + a;
  }

  lemma RotatedSum(sum: Word, s: nat, b: Word) returns (r: Word)
    requires s <= 32
    ensures r == AddUnsigned(RotateLeft(sum, s), b) && r == Add32(b, RotateLeft(sum, s))
  {
    var rotated := RotateLeft(sum, s);
    r := Added(rotated, b);
  }

  lemma NewRegister(a: Word, b: Word, f: Word, x: Word, s: nat, ac: Word) returns (r: Word)
    requires s <= 32
    ensures r == AddUnsigned(RotateLeft(AddUnsigned(a, AddUnsigned(AddUnsigned(f, x), ac)), s), b)
    ensures r == Add32(b, RotateLeft(Add32(Add32(Add32(a, f), x), ac), s))
  {
    ReferenceSum(a, f, x, ac);
    var sum := SumOfFour(a, f, x, ac);
    r := RotatedSum(sum, s, b);
  }

  // ---------- one line of the unrolled rounds ----------

  // Mentioned to name a step whose equation is wanted.
  predicate Wanted(i: nat) { true }

  // All states the reference goes through on one block.
  ghost predicate IsTrace(t: seq<Regs>, x: seq<Word>) {
    |t| == 65 && |x| == 16 && forall i: nat {:trigger Wanted(i)} :: i < 64 && Wanted(i) ==> t[i + 1] == Step(i, t[i], x)
  }

  ghost predicate At(t: seq<Regs>, i: nat, a: Word, b: Word, c: Word, d: Word) {
    i < |t| && t[i] == Regs(a, b, c, d)
  }

  // What section 3.4 lays down for step i: word j of the block, shift s, constant ac.
  predicate Scheduled(i: nat, j: nat, s: nat, ac: Word)
    requires i < 64
  {
    j == Pick(i) && s == Shift(i) && ac == T(i)
  }

  // The step that writes r where a was, mixing the other registers to f.
  lemma NextState(t: seq<Regs>, block: seq<Word>, i: nat, j: nat, a: Word, b: Word, c: Word, d: Word,
                  f: Word, x: Word, s: nat, ac: Word, r: Word)
    requires IsTrace(t, block) && i < 64 && At(t, i, a, b, c, d)
    requires Scheduled(i, j, s, ac) && x == block[j] && f == Mix(i, b, c, d)
    requires r == Add32(b, RotateLeft(Add32(Add32(Add32(a, f), x), ac), s))
    ensures At(t, i + 1, d, r, b, c)
  {
    assert Wanted(i);
  }

  method DoFF(ghost t: seq<Regs>, ghost block: seq<Word>, ghost i: nat, ghost j: nat,
              a: Word, b: Word, c: Word, d: Word, x: Word, s: nat, ac: Word) returns (r: Word)
    requires IsTrace(t, block) && 0 <= i < 16 && At(t, i, a, b, c, d)
    requires Scheduled(i, j, s, ac) && x == block[j]
    ensures At(t, i + 1, d, r, b, c)
  {
    ghost var f := F(b, c, d);
    ghost var register := NewRegister(a, b, f, x, s, ac);
    r := FF(a, b, c, d, x, s, ac);
    NextState(t, block, i, j, a, b, c, d, f, x, s, ac, register);
  }

  method DoGG(ghost t: seq<Regs>, ghost block: seq<Word>, ghost i: nat, ghost j: nat,
              a: Word, b: Word, c: Word, d: Word, x: Word, s: nat, ac: Word) returns (r: Word)
    requires IsTrace(t, block) && 16 <= i < 32 && At(t, i, a, b, c, d)
    requires Scheduled(i, j, s, ac) && x == block[j]
    ensures At(t, i + 1, d, r, b, c)
  {
    ghost var f := G(b, c, d);
    ghost var register := NewRegister(a, b, f, x, s, ac);
    r := GG(a, b, c, d, x, s, ac);
    NextState(t, block, i, j, a, b, c, d, f, x, s, ac, register);
  }

  method DoHH(ghost t: seq<Regs>, ghost block: seq<Word>, ghost i: nat, ghost j: nat,
              a: Word, b: Word, c: Word, d: Word, x: Word, s: nat, ac: Word) returns (r: Word)
    requires IsTrace(t, block) && 32 <= i < 48 && At(t, i, a, b, c, d)
    requires Scheduled(i, j, s, ac) && x == block[j]
    ensures At(t, i + 1, d, r, b, c)
  {
    ghost var f := H(b, c, d);
    ghost var register := NewRegister(a, b, f, x, s, ac);
    r := HH(a, b, c, d, x, s, ac);
    NextState(t, block, i, j, a, b, c, d, f, x, s, ac, register);
  }

  method DoII(ghost t: seq<Regs>, ghost block: seq<Word>, ghost i: nat, ghost j: nat,
              a: Word, b: Word, c: Word, d: Word, x: Word, s: nat, ac: Word) returns (r: Word)
    requires IsTrace(t, block) && 48 <= i < 64 && At(t, i, a, b, c, d)
    requires Scheduled(i, j, s, ac) && x == block[j]
    ensures At(t, i + 1, d, r, b, c)
  {
    ghost var f := I(b, c, d);
    ghost var register := NewRegister(a, b, f, x, s, ac);
    r := II(a, b, c, d, x, s, ac);
    NextState(t, block, i, j, a, b, c, d, f, x, s, ac, register);
  }

  // ---------- the unrolled rounds ----------

  const S11 := 7
  const S12 := 12
  const S13 := 17
  const S14 := 22
  const S21 := 5
  const S22 := 9
  const S23 := 14
  const S24 := 20
  const S31 := 4
  const S32 := 11
  const S33 := 16
  const S34 := 23
  const S41 := 6
  const S42 := 10
  const S43 := 15
  const S44 := 21

  lemma Schedule1()
    ensures Scheduled(0, 0, S11, 0xD76AA478) && Scheduled(1, 1, S12, 0xE8C7B756)
    ensures Scheduled(2, 2, S13, 0x242070DB) && Scheduled(3, 3, S14, 0xC1BDCEEE)
    ensures Scheduled(4, 4, S11, 0xF57C0FAF) && Scheduled(5, 5, S12, 0x4787C62A)
    ensures Scheduled(6, 6, S13, 0xA8304613) && Scheduled(7, 7, S14, 0xFD469501)
    ensures Scheduled(8, 8, S11, 0x698098D8) && Scheduled(9, 9, S12, 0x8B44F7AF)
    ensures Scheduled(10, 10, S13, 0xFFFF5BB1) && Scheduled(11, 11, S14, 0x895CD7BE)
    ensures Scheduled(12, 12, S11, 0x6B901122) && Scheduled(13, 13, S12, 0xFD987193)
    ensures Scheduled(14, 14, S13, 0xA679438E) && Scheduled(15, 15, S14, 0x49B40821)
  {
  }

  method Round1(ghost t: seq<Regs>, ghost block: seq<Word>, x: array<Word>, k: nat,
                 a0: Word, b0: Word, c0: Word, d0: Word) returns (a: Word, b: Word, c: Word, d: Word)
    requires k + 16 <= x.Length && |block| == 16 && forall j :: 0 <= j < 16 ==> block[j] == x[k + j]
    requires IsTrace(t, block) && At(t, 0, a0, b0, c0, d0)
    ensures At(t, 16, a, b, c, d)
  {
    Schedule1();
    a, b, c, d := a0, b0, c0, d0;
    a := DoFF(t, block, 0, 0, a, b, c, d, x[k + 0], S11, 0xD76AA478);
    d := DoFF(t, block, 1, 1, d, a, b, c, x[k + 1], S12, 0xE8C7B756);
    c := DoFF(t, block, 2, 2, c, d, a, b, x[k + 2], S13, 0x242070DB);
    b := DoFF(t, block, 3, 3, b, c, d, a, x[k + 3], S14, 0xC1BDCEEE);
    a := DoFF(t, block, 4, 4, a, b, c, d, x[k + 4], S11, 0xF57C0FAF);
    d := DoFF(t, block, 5, 5, d, a, b, c, x[k + 5], S12, 0x4787C62A);
    c := DoFF(t, block, 6, 6, c, d, a, b, x[k + 6], S13, 0xA8304613);
    b := DoFF(t, block, 7, 7, b, c, d, a, x[k + 7], S14, 0xFD469501);
    a := DoFF(t, block, 8, 8, a, b, c, d, x[k + 8], S11, 0x698098D8);
    d := DoFF(t, block, 9, 9, d, a, b, c, x[k + 9], S12, 0x8B44F7AF);
    c := DoFF(t, block, 10, 10, c, d, a, b, x[k + 10], S13, 0xFFFF5BB1);
    b := DoFF(t, block, 11, 11, b, c, d, a, x[k + 11], S14, 0x895CD7BE);
    a := DoFF(t, block, 12, 12, a, b, c, d, x[k + 12], S11, 0x6B901122);
    d := DoFF(t, block, 13, 13, d, a, b, c, x[k + 13], S12, 0xFD987193);
    c := DoFF(t, block, 14, 14, c, d, a, b, x[k + 14], S13, 0xA679438E);
    b := DoFF(t, block, 15, 15, b, c, d, a, x[k + 15], S14, 0x49B40821);
  }

  lemma Schedule2()
    ensures Scheduled(16, 1, S21, 0xF61E2562) && Scheduled(17, 6, S22, 0xC040B340)
    ensures Scheduled(18, 11, S23, 0x265E5A51) && Scheduled(19, 0, S24, 0xE9B6C7AA)
    ensures Scheduled(20, 5, S21, 0xD62F105D) && Scheduled(21, 10, S22, 0x2441453)
    ensures Scheduled(22, 15, S23, 0xD8A1E681) && Scheduled(23, 4, S24, 0xE7D3FBC8)
    ensures Scheduled(24, 9, S21, 0x21E1CDE6) && Scheduled(25, 14, S22, 0xC33707D6)
    ensures Scheduled(26, 3, S23, 0xF4D50D87) && Scheduled(27, 8, S24, 0x455A14ED)
    ensures Scheduled(28, 13, S21, 0xA9E3E905) && Scheduled(29, 2, S22, 0xFCEFA3F8)
    ensures Scheduled(30, 7, S23, 0x676F02D9) && Scheduled(31, 12, S24, 0x8D2A4C8A)
  {
  }

  method Round2(ghost t: seq<Regs>, ghost block: seq<Word>, x: array<Word>, k: nat,
                 a0: Word, b0: Word, c0: Word, d0: Word) returns (a: Word, b: Word, c: Word, d: Word)
    requires k + 16 <= x.Length && |block| == 16 && forall j :: 0 <= j < 16 ==> block[j] == x[k + j]
    requires IsTrace(t, block) && At(t, 16, a0, b0, c0, d0)
    ensures At(t, 32, a, b, c, d)
  {
    Schedule2();
    a, b, c, d := a0, b0, c0, d0;
    a := DoGG(t, block, 16, 1, a, b, c, d, x[k + 1], S21, 0xF61E2562);
    d := DoGG(t, block, 17, 6, d, a, b, c, x[k + 6], S22, 0xC040B340);
    c := DoGG(t, block, 18, 11, c, d, a, b, x[k + 11], S23, 0x265E5A51);
    b := DoGG(t, block, 19, 0, b, c, d, a, x[k + 0], S24, 0xE9B6C7AA);
    a := DoGG(t, block, 20, 5, a, b, c, d, x[k + 5], S21, 0xD62F105D);
    d := DoGG(t, block, 21, 10, d, a, b, c, x[k + 10], S22, 0x2441453);
    c := DoGG(t, block, 22, 15, c, d, a, b, x[k + 15], S23, 0xD8A1E681);
    b := DoGG(t, block, 23, 4, b, c, d, a, x[k + 4], S24, 0xE7D3FBC8);
    a := DoGG(t, block, 24, 9, a, b, c, d, x[k + 9], S21, 0x21E1CDE6);
    d := DoGG(t, block, 25, 14, d, a, b, c, x[k + 14], S22, 0xC33707D6);
    c := DoGG(t, block, 26, 3, c, d, a, b, x[k + 3], S23, 0xF4D50D87);
    b := DoGG(t, block, 27, 8, b, c, d, a, x[k + 8], S24, 0x455A14ED);
    a := DoGG(t, block, 28, 13, a, b, c, d, x[k + 13], S21, 0xA9E3E905);
    d := DoGG(t, block, 29, 2, d, a, b, c, x[k + 2], S22, 0xFCEFA3F8);
    c := DoGG(t, block, 30, 7, c, d, a, b, x[k + 7], S23, 0x676F02D9);
    b := DoGG(t, block, 31, 12, b, c, d, a, x[k + 12], S24, 0x8D2A4C8A);
  }

  lemma Schedule3()
    ensures Scheduled(32, 5, S31, 0xFFFA3942) && Scheduled(33, 8, S32, 0x8771F681)
    ensures Scheduled(34, 11, S33, 0x6D9D6122) && Scheduled(35, 14, S34, 0xFDE5380C)
    ensures Scheduled(36, 1, S31, 0xA4BEEA44) && Scheduled(37, 4, S32, 0x4BDECFA9)
    ensures Scheduled(38, 7, S33, 0xF6BB4B60) && Scheduled(39, 10, S34, 0xBEBFBC70)
    ensures Scheduled(40, 13, S31, 0x289B7EC6) && Scheduled(41, 0, S32, 0xEAA127FA)
    ensures Scheduled(42, 3, S33, 0xD4EF3085) && Scheduled(43, 6, S34, 0x4881D05)
    ensures Scheduled(44, 9, S31, 0xD9D4D039) && Scheduled(45, 12, S32, 0xE6DB99E5)
    ensures Scheduled(46, 15, S33, 0x1FA27CF8) && Scheduled(47, 2, S34, 0xC4AC5665)
  {
  }

  method Round3(ghost t: seq<Regs>, ghost block: seq<Word>, x: array<Word>, k: nat,
                 a0: Word, b0: Word, c0: Word, d0: Word) returns (a: Word, b: Word, c: Word, d: Word)
    requires k + 16 <= x.Length && |block| == 16 && forall j :: 0 <= j < 16 ==> block[j] == x[k + j]
    requires IsTrace(t, block) && At(t, 32, a0, b0, c0, d0)
    ensures At(t, 48, a, b, c, d)
  {
    Schedule3();
    a, b, c, d := a0, b0, c0, d0;
    a := DoHH(t, block, 32, 5, a, b, c, d, x[k + 5], S31, 0xFFFA3942);
    d := DoHH(t, block, 33, 8, d, a, b, c, x[k + 8], S32, 0x8771F681);
    c := DoHH(t, block, 34, 11, c, d, a, b, x[k + 11], S33, 0x6D9D6122);
    b := DoHH(t, block, 35, 14, b, c, d, a, x[k + 14], S34, 0xFDE5380C);
    a := DoHH(t, block, 36, 1, a, b, c, d, x[k + 1], S31, 0xA4BEEA44);
    d := DoHH(t, block, 37, 4, d, a, b, c, x[k + 4], S32, 0x4BDECFA9);
    c := DoHH(t, block, 38, 7, c, d, a, b, x[k + 7], S33, 0xF6BB4B60);
    b := DoHH(t, block, 39, 10, b, c, d, a, x[k + 10], S34, 0xBEBFBC70);
    a := DoHH(t, block, 40, 13, a, b, c, d, x[k + 13], S31, 0x289B7EC6);
    d := DoHH(t, block, 41, 0, d, a, b, c, x[k + 0], S32, 0xEAA127FA);
    c := DoHH(t, block, 42, 3, c, d, a, b, x[k + 3], S33, 0xD4EF3085);
    b := DoHH(t, block, 43, 6, b, c, d, a, x[k + 6], S34, 0x4881D05);
    a := DoHH(t, block, 44, 9, a, b, c, d, x[k + 9], S31, 0xD9D4D039);
    d := DoHH(t, block, 45, 12, d, a, b, c, x[k + 12], S32, 0xE6DB99E5);
    c := DoHH(t, block, 46, 15, c, d, a, b, x[k + 15], S33, 0x1FA27CF8);
    b := DoHH(t, block, 47, 2, b, c, d, a, x[k + 2], S34, 0xC4AC5665);
  }

  lemma Schedule4()
    ensures Scheduled(48, 0, S41, 0xF4292244) && Scheduled(49, 7, S42, 0x432AFF97)
    ensures Scheduled(50, 14, S43, 0xAB9423A7) && Scheduled(51, 5, S44, 0xFC93A039)
    ensures Scheduled(52, 12, S41, 0x655B59C3) && Scheduled(53, 3, S42, 0x8F0CCC92)
    ensures Scheduled(54, 10, S43, 0xFFEFF47D) && Scheduled(55, 1, S44, 0x85845DD1)
    ensures Scheduled(56, 8, S41, 0x6FA87E4F) && Scheduled(57, 15, S42, 0xFE2CE6E0)
    ensures Scheduled(58, 6, S43, 0xA3014314) && Scheduled(59, 13, S44, 0x4E0811A1)
    ensures Scheduled(60, 4, S41, 0xF7537E82) && Scheduled(61, 11, S42, 0xBD3AF235)
    ensures Scheduled(62, 2, S43, 0x2AD7D2BB) && Scheduled(63, 9, S44, 0xEB86D391)
  {
  }

  method Round4(ghost t: seq<Regs>, ghost block: seq<Word>, x: array<Word>, k: nat,
                 a0: Word, b0: Word, c0: Word, d0: Word) returns (a: Word, b: Word, c: Word, d: Word)
    requires k + 16 <= x.Length && |block| == 16 && forall j :: 0 <= j < 16 ==> block[j] == x[k + j]
    requires IsTrace(t, block) && At(t, 48, a0, b0, c0, d0)
    ensures At(t, 64, a, b, c, d)
  {
    Schedule4();
    a, b, c, d := a0, b0, c0, d0;
    a := DoII(t, block, 48, 0, a, b, c, d, x[k + 0], S41, 0xF4292244);
    d := DoII(t, block, 49, 7, d, a, b, c, x[k + 7], S42, 0x432AFF97);
    c := DoII(t, block, 50, 14, c, d, a, b, x[k + 14], S43, 0xAB9423A7);
    b := DoII(t, block, 51, 5, b, c, d, a, x[k + 5], S44, 0xFC93A039);
    a := DoII(t, block, 52, 12, a, b, c, d, x[k + 12], S41, 0x655B59C3);
    d := DoII(t, block, 53, 3, d, a, b, c, x[k + 3], S42, 0x8F0CCC92);
    c := DoII(t, block, 54, 10, c, d, a, b, x[k + 10], S43, 0xFFEFF47D);
    b := DoII(t, block, 55, 1, b, c, d, a, x[k + 1], S44, 0x85845DD1);
    a := DoII(t, block, 56, 8, a, b, c, d, x[k + 8], S41, 0x6FA87E4F);
    d := DoII(t, block, 57, 15, d, a, b, c, x[k + 15], S42, 0xFE2CE6E0);
    c := DoII(t, block, 58, 6, c, d, a, b, x[k + 6], S43, 0xA3014314);
    b := DoII(t, block, 59, 13, b, c, d, a, x[k + 13], S44, 0x4E0811A1);
    a := DoII(t, block, 60, 4, a, b, c, d, x[k + 4], S41, 0xF7537E82);
    d := DoII(t, block, 61, 11, d, a, b, c, x[k + 11], S42, 0xBD3AF235);
    c := DoII(t, block, 62, 2, c, d, a, b, x[k + 2], S43, 0x2AD7D2BB);
    b := DoII(t, block, 63, 9, b, c, d, a, x[k + 9], S44, 0xEB86D391);
  }
}
