/** Bitwise operators on natural numbers, digit by digit, and the 32-bit words of
    JavaScript's operators as their values modulo 2^32. */
module Bits {
  import opened Bytes

  type Word = x: nat | x < 0x1_0000_0000

  function And(x: nat, y: nat): (r: nat)
    ensures r <= x && r <= y
  {
    if x == 0 || y == 0 then 0 else 2 * And(x / 2, y / 2) + if x % 2 == 1 && y % 2 == 1 then 1 else 0
  }

  function Or(x: nat, y: nat): (r: nat)
    ensures x <= r && y <= r
    decreases x + y
  {
    if x == 0 then y else if y == 0 then x
    else 2 * Or(x / 2, y / 2) + if x % 2 == 1 || y % 2 == 1 then 1 else 0
  }

  function Xor(x: nat, y: nat): nat
    decreases x + y
  {
    if x == 0 then y else if y == 0 then x
    else 2 * Xor(x / 2, y / 2) + if x % 2 == y % 2 then 0 else 1
  }

  function Pow2(k: nat): (p: nat)
    ensures p > 0
  {
    if k == 0 then 1 else 2 * Pow2(k - 1)
  }

  // ---------- bit by bit ----------

  // Bit k of x, the lowest one being bit 0.
  predicate Bit(x: nat, k: nat) {
    if k == 0 then x % 2 == 1 else Bit(x / 2, k - 1)
  }

  lemma {:induction false} NoBits(k: nat)
    ensures !Bit(0, k)
    decreases k
  {
    if k > 0 {
      NoBits(k - 1);
    }
  }

  lemma {:induction false} AndBit(x: nat, y: nat, k: nat)
    ensures Bit(And(x, y), k) <==> Bit(x, k) && Bit(y, k)
    decreases k
  {
    NoBits(k);
    if x > 0 && y > 0 && k > 0 {
      AndBit(x / 2, y / 2, k - 1);
    }
  }

  lemma {:induction false} OrBit(x: nat, y: nat, k: nat)
    ensures Bit(Or(x, y), k) <==> Bit(x, k) || Bit(y, k)
    decreases k
  {
    NoBits(k);
    if x > 0 && y > 0 && k > 0 {
      OrBit(x / 2, y / 2, k - 1);
    }
  }

  lemma {:induction false} XorBit(x: nat, y: nat, k: nat)
    ensures Bit(Xor(x, y), k) <==> Bit(x, k) != Bit(y, k)
    decreases k
  {
    NoBits(k);
    if x > 0 && y > 0 && k > 0 {
      XorBit(x / 2, y / 2, k - 1);
    }
  }

  // Taken from all ones.
  lemma {:induction false} NotBit(x: nat, n: nat, k: nat)
    requires x < Pow2(n) && k < n
    ensures Bit(Pow2(n) - 1 - x, k) <==> !Bit(x, k)
    decreases k
  {
    var p := Pow2(n - 1);
    assert Pow2(n) == 2 * p;
    assert (2 * p - 1 - x) / 2 == p - 1 - x / 2;
    if k > 0 {
      NotBit(x / 2, n - 1, k - 1);
    }
  }

  /** The bits settle the number. */
  lemma {:induction false} SameBits(x: nat, y: nat, n: nat)
    requires x < Pow2(n) && y < Pow2(n) && forall k: nat :: k < n ==> Bit(x, k) == Bit(y, k)
    ensures x == y
    decreases n
  {
    if n > 0 {
      assert Bit(x, 0) == Bit(y, 0);
      forall k: nat | k < n - 1
        ensures Bit(x / 2, k) == Bit(y / 2, k)
      {
        assert Bit(x, k + 1) == Bit(y, k + 1);
      }
      SameBits(x / 2, y / 2, n - 1);
    }
  }

  // ---------- ranges ----------

  lemma {:induction false} OrBelow(x: nat, y: nat, k: nat)
    requires x < Pow2(k) && y < Pow2(k)
    ensures Or(x, y) < Pow2(k)
    decreases k
  {
    if k > 0 && x > 0 && y > 0 {
      OrBelow(x / 2, y / 2, k - 1);
    }
  }

  lemma {:induction false} XorBelow(x: nat, y: nat, k: nat)
    requires x < Pow2(k) && y < Pow2(k)
    ensures Xor(x, y) < Pow2(k)
    decreases k
  {
    if k > 0 && x > 0 && y > 0 {
      XorBelow(x / 2, y / 2, k - 1);
    }
  }

  // ---------- numbers split at bit k ----------

  lemma AndDigit(a: nat, i: nat, b: nat, j: nat)
    requires i < 2 && j < 2
    ensures And(2 * a + i, 2 * b + j) == 2 * And(a, b) + if i == 1 && j == 1 then 1 else 0
  {
    assert (2 * a + i) / 2 == a && (2 * b + j) / 2 == b;
  }

  lemma OrDigit(a: nat, i: nat, b: nat)
    requires i < 2
    ensures Or(2 * a + i, 2 * b) == 2 * Or(a, b) + i
  {
    assert (2 * a + i) / 2 == a && 2 * b / 2 == b;
  }

  lemma XorDigit(a: nat, i: nat, b: nat)
    requires i < 2
    ensures Xor(2 * a + i, 2 * b) == 2 * Xor(a, b) + i
  {
    assert (2 * a + i) / 2 == a && 2 * b / 2 == b;
  }

  // A product, and the product with one factor doubled.
  lemma Product(h: nat, p: nat) returns (y: nat)
    ensures y == h * p && 2 * y == h * (2 * p)
  {
    y := h * p;
  }

  // w with y put above it, both one digit further up.
  lemma Lifted(w: nat, y: nat) returns (x: nat)
    ensures x == w / 2 + y && w + 2 * y == 2 * x + w % 2
  {
    x := w / 2 + y;
  }

  lemma {:induction false} AndHigh(w: nat, h: nat, c: nat, k: nat)
    requires w < Pow2(k)
    ensures And(w + h * Pow2(k), c * Pow2(k)) == And(h, c) * Pow2(k)
    decreases k
  {
    if k > 0 {
      var y := Product(h, Pow2(k - 1));
      var z := Product(c, Pow2(k - 1));
      var r := Product(And(h, c), Pow2(k - 1));
      var x := Lifted(w, y);
      AndHigh(w / 2, h, c, k - 1);
      AndDigit(x, w % 2, z, 0);
    }
  }

  lemma {:induction false} XorHigh(w: nat, h: nat, c: nat, k: nat)
    requires w < Pow2(k)
    ensures Xor(w + h * Pow2(k), c * Pow2(k)) == w + Xor(h, c) * Pow2(k)
    decreases k
  {
    if k > 0 {
      var y := Product(h, Pow2(k - 1));
      var z := Product(c, Pow2(k - 1));
      var r := Product(Xor(h, c), Pow2(k - 1));
      var x := Lifted(w, y);
      XorHigh(w / 2, h, c, k - 1);
      XorDigit(x, w % 2, z);
    }
  }

  lemma {:induction false} OrHigh(w: nat, c: nat, k: nat)
    requires w < Pow2(k)
    ensures Or(w, c * Pow2(k)) == w + c * Pow2(k)
    decreases k
  {
    if k > 0 {
      var z := Product(c, Pow2(k - 1));
      OrHigh(w / 2, c, k - 1);
      OrDigit(w / 2, w % 2, z);
    }
  }

  // The mask of the k lowest bits.
  lemma {:induction false} AndMask(w: nat, h: nat, k: nat)
    requires w < Pow2(k)
    ensures And(w + h * Pow2(k), Pow2(k) - 1) == w
    decreases k
  {
    if k > 0 {
      var y := Product(h, Pow2(k - 1));
      var x := Lifted(w, y);
      var m := Pow2(k - 1) - 1;
      AndMask(w / 2, h, k - 1);
      AndDigit(x, w % 2, m, 1);
      assert Pow2(k) - 1 == 2 * m + 1;
    }
  }

  // ---------- words ----------

  lemma PowersOfTwo()
    ensures Pow2(8) == 0x100 && Pow2(16) == 0x1_0000 && Pow2(24) == 0x100_0000
    ensures Pow2(30) == 0x4000_0000 && Pow2(32) == TWO_32
  {
  }

  function Or32(x: Word, y: Word): Word {
    PowersOfTwo();
    OrBelow(x, y, 32);
    Or(x, y)
  }

  function Xor32(x: Word, y: Word): Word {
    PowersOfTwo();
    XorBelow(x, y, 32);
    Xor(x, y)
  }

  function And32(x: Word, y: Word): Word {
    And(x, y)
  }

  function Not32(x: Word): Word {
    TWO_32 - 1 - x
  }

  function Add32(x: Word, y: Word): Word {
    (x + y) % TWO_32
  }

  // x << s and x >>> s.
  function ShiftLeft(x: Word, s: nat): Word
    decreases s
  {
    if s == 0 then x else ShiftLeft(2 * x % TWO_32, s - 1)
  }

  function ShiftRight(x: Word, s: nat): Word {
    if s == 0 then x else ShiftRight(x / 2, s - 1)
  }

  lemma {:induction false} ShiftTwice(x: Word, s: nat, t: nat)
    ensures ShiftRight(x, s + t) == ShiftRight(ShiftRight(x, s), t)
    decreases s
  {
    if s > 0 {
      ShiftTwice(x / 2, s - 1, t);
    }
  }

  lemma ShiftByBytes(x: Word)
    ensures ShiftRight(x, 8) == x / 0x100
    ensures ShiftRight(x, 16) == x / 0x1_0000
    ensures ShiftRight(x, 24) == x / 0x100_0000
  {
    ShiftByByte(x);
    ShiftByByte(x / 0x100);
    ShiftByByte(x / 0x1_0000);
    ShiftTwice(x, 8, 8);
    ShiftTwice(x, 16, 8);
  }

  lemma ShiftByTwo(x: Word)
    ensures ShiftRight(x, 2) == x / 4
  {
    assert ShiftRight(x, 2) == ShiftRight(x / 2, 1) == ShiftRight(x / 2 / 2, 0);
  }

  lemma ShiftByByte(x: Word)
    ensures ShiftRight(x, 8) == x / 0x100
  {
    ShiftTwice(x, 2, 6);
    ShiftTwice(x / 4, 2, 4);
    ShiftTwice(x / 16, 2, 2);
    ShiftByTwo(x);
    ShiftByTwo(x / 4);
    ShiftByTwo(x / 16);
    ShiftByTwo(x / 64);
  }

  // ---------- shifts as products and quotients ----------

  lemma {:induction false} PowSum(i: nat, j: nat)
    ensures Pow2(i + j) == Pow2(j) * Pow2(i)
    decreases i
  {
    if i > 0 {
      PowSum(i - 1, j);
      var y := Product(Pow2(j), Pow2(i - 1));
    }
  }

  lemma Multiple(d: int, q: nat)
    ensures d >= 1 ==> d * q >= q
    ensures d <= -1 ==> d * q <= 0 - q
  {
  }

  lemma Quotient(x: nat, q: nat, h: nat, l: nat)
    requires x == h * q + l && l < q
    ensures x / q == h && x % q == l
  {
    var d: int := x / q - h;
    assert x == (x / q) * q + x % q;
    assert d * q == l - x % q;
    Multiple(d, q);
  }

  lemma {:induction false} ShiftRightParts(x: Word, s: nat) returns (l: nat)
    ensures x == ShiftRight(x, s) * Pow2(s) + l && l < Pow2(s)
    decreases s
  {
    if s == 0 {
      l := 0;
    } else {
      var m := ShiftRightParts(x / 2, s - 1);
      var y := Product(ShiftRight(x / 2, s - 1), Pow2(s - 1));
      l := 2 * m + x % 2;
    }
  }

  lemma {:induction false} ShiftLeftLast(x: Word, s: nat)
    requires s > 0
    ensures ShiftLeft(x, s) == 2 * ShiftLeft(x, s - 1) % TWO_32
    decreases s
  {
    if s > 1 {
      ShiftLeftLast(2 * x % TWO_32, s - 1);
    }
  }

  // A number below 2q, and its lower part.
  lemma Halved(l: nat, q: nat) returns (b: nat, m: nat)
    requires l < 2 * q
    ensures b < 2 && m < q && l == b * q + m
  {
    if l < q {
      b, m := 0, l;
    } else {
      b, m := 1, l - q;
    }
  }

  lemma Doubled(l: nat, b: nat, m: nat, q: nat, p: nat)
    requires l == b * q + m && m < q && b < 2 && q * (2 * p) == TWO_32
    ensures 2 * (l * p) % TWO_32 == m * (2 * p) && m * (2 * p) < TWO_32
  {
    var r := 2 * p;
    assert 2 * (l * p) == l * r == b * (q * r) + m * r;
    assert m * r < q * r;
  }

  lemma Regrouped(x: nat, g: nat, q: nat, b: nat, m: nat, k: nat)
    requires x == g * (2 * q) + k && k == b * q + m
    ensures x == (2 * g + b) * q + m
  {
  }

  lemma {:induction false} ShiftLeftParts(x: Word, s: nat) returns (h: nat, l: nat)
    requires s <= 32
    ensures x == h * Pow2(32 - s) + l && l < Pow2(32 - s) && ShiftLeft(x, s) == l * Pow2(s)
    decreases s
  {
    if s == 0 {
      PowersOfTwo();
      h, l := 0, x;
    } else {
      var g, k := ShiftLeftParts(x, s - 1);
      var q, p := Pow2(32 - s), Pow2(s - 1);
      var b, m := Halved(k, q);
      PowersOfTwo();
      PowSum(s, 32 - s);
      ShiftLeftLast(x, s);
      Doubled(k, b, m, q, p);
      Regrouped(x, g, q, b, m, k);
      h, l := 2 * g + b, m;
    }
  }

  lemma {:induction false} OrCommutes(x: nat, y: nat)
    ensures Or(x, y) == Or(y, x)
    decreases x + y
  {
    if x > 0 && y > 0 {
      OrCommutes(x / 2, y / 2);
    }
  }

  // The parts of x at bit q, put together the other way around.
  lemma Turned(x: Word, h: nat, l: nat, p: nat, q: nat)
    requires x == h * q + l && l < q && q * p == TWO_32
    ensures h < p && x * p % TWO_32 == l * p && x / q == h
  {
    Quotient(x, q, h, l);
    assert h * q < p * q;
    assert x * p == h * (q * p) + l * p;
    assert l * p < q * p;
    Quotient(x * p, TWO_32, h, l * p);
  }

  lemma ShiftLeftIs(x: Word, s: nat)
    requires s <= 32
    ensures ShiftLeft(x, s) == x * Pow2(s) % TWO_32
  {
    var h, l := ShiftLeftParts(x, s);
    PowersOfTwo();
    PowSum(s, 32 - s);
    Turned(x, h, l, Pow2(s), Pow2(32 - s));
  }

  lemma ShiftRightIs(x: Word, s: nat)
    ensures ShiftRight(x, s) == x / Pow2(s)
  {
    var l := ShiftRightParts(x, s);
    Quotient(x, Pow2(s), ShiftRight(x, s), l);
  }

  /** Shifted up and down by as much as 32 bits allow, and put together, x is turned around. */
  lemma ShiftsTurn(x: Word, s: nat)
    requires s <= 32
    ensures Or32(ShiftLeft(x, s), ShiftRight(x, 32 - s)) == x * Pow2(s) % TWO_32 + x / Pow2(32 - s)
  {
    var h, l := ShiftLeftParts(x, s);
    var m := ShiftRightParts(x, 32 - s);
    PowersOfTwo();
    PowSum(s, 32 - s);
    Turned(x, h, l, Pow2(s), Pow2(32 - s));
    Quotient(x, Pow2(32 - s), ShiftRight(x, 32 - s), m);
    OrHigh(h, l, s);
    OrCommutes(h, l * Pow2(s));
  }
}
