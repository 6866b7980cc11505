/** The word splitter's dictionary (lib/eii/ediv.c): a bitmap with one bit for the position
    computed from a word's bytes. Strings hold no NUL; what is read past their end is the NUL. */
module EdivBitmap {
  import opened Bytes

  type Position = x: nat | x < 0x1_0000_0000

  const MAX_PHRASE_S_LEN := 45

  // The source masks bytes; on unsigned bytes its tests are comparisons, and the bits it keeps
  // are remainders.
  lemma MasksAsNumbers(b: bv8)
    ensures b & 0xE0 == 0xE0 <==> b >= 0xE0
    ensures b & 0x80 == 0x80 <==> b >= 0x80
    ensures b & 0x0F == b % 0x10 && b & 0x3F == b % 0x40
  {
  }

  // A byte outside the three-byte characters, or a three-byte character's bits.
  datatype Unit = Single(b: Byte) | Triple(sum: nat)

  // How a position takes in the next unit: c of the word's tc three-byte characters have come.
  type Mixing = (Position, Unit, nat, nat) -> Position

  // A three-byte character begins at p.
  predicate Lead(a: seq<Byte>, p: nat) {
    ByteAt(a, p) >= 0xE0 && ByteAt(a, p + 1) >= 0x80 && ByteAt(a, p + 2) >= 0x80
  }

  lemma LeadFits(a: seq<Byte>, p: nat)
    requires Lead(a, p)
    ensures p + 3 <= |a|
  {
  }

  // The same by bits: the highest three of the first byte are set, and the highest one of each of
  // the two after it.
  predicate ThreeBytes(a: seq<Byte>, p: nat) {
    p + 2 < |a| && a[p] / 0x20 == 7 && a[p + 1] / 0x80 == 1 && a[p + 2] / 0x80 == 1
  }

  lemma LeadByBits(a: seq<Byte>, p: nat)
    ensures Lead(a, p) <==> ThreeBytes(a, p)
  {
  }

  // The three bytes' bits, 4 and 6 and 6 of them.
  function High(b: Byte): nat {
    b % 0x10 * 0x1000
  }

  function Middle(b: Byte): nat {
    b % 0x40 * 0x40
  }

  function Low(b: Byte): nat {
    b % 0x40
  }

  function CharBits(x: Byte, y: Byte, z: Byte): nat {
    High(x) + Middle(y) + Low(z)
  }

  lemma LowBits(b: Byte, high: nat, low: nat, m: nat)
    requires b == high * m + low && low < m && (m == 0x10 || m == 0x40)
    ensures b % m == low
  {
  }

  /** They are the number that UTF-8 cuts into 4, 6 and 6 bits, whatever stands above these: 14 and
      2 and 2 in a well-formed character. */
  lemma CharBitsIsCodePoint(u: nat, x: Byte, y: Byte, z: Byte, p: nat, q: nat, r: nat)
    requires u < 0x1_0000
    requires x == p * 0x10 + u / 0x1000 && y == q * 0x40 + u / 0x40 % 0x40 && z == r * 0x40 + u % 0x40
    ensures CharBits(x, y, z) == u
  {
    LowBits(x, p, u / 0x1000, 0x10);
    LowBits(y, q, u / 0x40 % 0x40, 0x40);
    LowBits(z, r, u % 0x40, 0x40);
    assert u == 0x40 * (u / 0x40) + u % 0x40 && u / 0x40 == 0x40 * (u / 0x1000) + u / 0x40 % 0x40;
  }

  // The units of the first len bytes, from p on; a character that len cuts short is none.
  function Units(a: seq<Byte>, len: nat, p: nat): seq<Unit>
    requires len <= |a|
    decreases len - p
  {
    if p >= len then []
    else if !Lead(a, p) then [Single(a[p])] + Units(a, len, p + 1)
    else if p + 3 <= len then [Triple(CharBits(a[p], a[p + 1], a[p + 2]))] + Units(a, len, p + 3)
    else []
  }

  // How many bytes outside three-byte characters there are.
  function Singles(a: seq<Byte>, len: nat, p: nat): nat
    requires len <= |a|
    decreases len - p
  {
    if p >= len then 0
    else if !Lead(a, p) then 1 + Singles(a, len, p + 1)
    else Singles(a, len, p + 3)
  }

  function Triples(us: seq<Unit>): nat {
    if us == [] then 0 else Triples(us[..|us| - 1]) + if us[|us| - 1].Triple? then 1 else 0
  }

  function Mixed(mix: Mixing, us: seq<Unit>, tc: nat): Position {
    if us == [] then 0
    else
      var most, last := us[..|us| - 1], us[|us| - 1];
      mix(Mixed(mix, most, tc), last, Triples(us), tc)
  }

  lemma {:induction false} SinglesBound(a: seq<Byte>, len: nat, p: nat)
    requires len <= |a|
    ensures p <= len ==> Singles(a, len, p) <= len - p
    decreases len - p
  {
    if p < len {
      SinglesBound(a, len, if Lead(a, p) then p + 3 else p + 1);
    }
  }

  function Characters(a: seq<Byte>, len: nat): nat
    requires len <= |a|
  {
    SinglesBound(a, len, 0);
    (len - Singles(a, len, 0)) / 3
  }

  // The position of the first len bytes of a.
  function PositionOf(mix: Mixing, a: seq<Byte>, len: nat): Position
    requires len <= |a|
  {
    Mixed(mix, Units(a, len, 0), Characters(a, len))
  }

  // ---------- a word stands at the same position inside a longer text ----------

  // Whether a three-byte character begins is settled, everywhere in w, by w's own bytes.
  predicate SelfContained(w: seq<Byte>, p: nat)
    decreases |w| - p
  {
    p >= |w| ||
    if Lead(w, p) then SelfContained(w, p + 3)
    else (w[p] < 0xE0 || p + 2 < |w| || (p + 1 < |w| && w[p + 1] < 0x80)) && SelfContained(w, p + 1)
  }

  // UTF-8 with characters of one to three bytes.
  predicate WellFormed(w: seq<Byte>, p: nat)
    decreases |w| - p
  {
    p >= |w| ||
    if w[p] < 0x80 then WellFormed(w, p + 1)
    else if w[p] < 0xE0 then w[p] >= 0xC0 && Continues(w, p + 1, 1) && WellFormed(w, p + 2)
    else w[p] < 0xF0 && Continues(w, p + 1, 2) && WellFormed(w, p + 3)
  }

  predicate Continues(w: seq<Byte>, p: nat, n: nat) {
    p + n <= |w| && forall k :: p <= k < p + n ==> 0x80 <= w[k] < 0xC0
  }

  lemma {:induction false} WellFormedIsSelfContained(w: seq<Byte>, p: nat)
    requires WellFormed(w, p)
    ensures SelfContained(w, p)
    decreases |w| - p
  {
    if p >= |w| {
    } else if w[p] < 0x80 {
      WellFormedIsSelfContained(w, p + 1);
    } else if w[p] < 0xE0 {
      assert w[p + 1] < 0xC0;
      WellFormedIsSelfContained(w, p + 2);
    } else {
      assert w[p + 1] >= 0x80 && w[p + 2] >= 0x80;
      WellFormedIsSelfContained(w, p + 3);
    }
  }

  lemma {:induction false} UnitsInside(w: seq<Byte>, rest: seq<Byte>, p: nat)
    requires SelfContained(w, p)
    ensures Units(w + rest, |w|, p) == Units(w, |w|, p)
    ensures Singles(w + rest, |w|, p) == Singles(w, |w|, p)
    decreases |w| - p
  {
    if p < |w| {
      if Lead(w, p) {
        LeadFits(w, p);
        assert Lead(w + rest, p);
        UnitsInside(w, rest, p + 3);
      } else {
        assert !Lead(w + rest, p);
        UnitsInside(w, rest, p + 1);
      }
    }
  }

  lemma SameUnits(w: seq<Byte>, rest: seq<Byte>, text: seq<Byte>)
    requires SelfContained(w, 0) && text == w + rest
    ensures Units(text, |w|, 0) == Units(w, |w|, 0)
    ensures Characters(text, |w|) == Characters(w, |w|)
  {
    UnitsInside(w, rest, 0);
  }

  /** A word has the same position wherever it is the beginning of the text, if its own bytes
      settle where its characters begin. */
  lemma SamePosition(mix: Mixing, w: seq<Byte>, rest: seq<Byte>)
    requires SelfContained(w, 0)
    ensures PositionOf(mix, w + rest, |w|) == PositionOf(mix, w, |w|)
  {
    SameUnits(w, rest, w + rest);
  }

  // Otherwise two bytes that may go on with a character make the word end inside one.
  lemma {:induction false} FewerUnits(w: seq<Byte>, p: nat)
    requires !SelfContained(w, p)
    ensures |Units(w + [0x80, 0x80], |w|, p)| < |Units(w, |w|, p)|
    decreases |w| - p
  {
    var text := w + [0x80, 0x80];
    if Lead(w, p) {
      LeadFits(w, p);
      assert Lead(text, p);
      FewerUnits(w, p + 3);
    } else if SelfContained(w, p + 1) {
      assert Lead(text, p);
      assert Units(text, |w|, p) == [];
    } else {
      FewerUnits(w, p + 1);
      if Lead(text, p) {
        assert p + 3 > |w|;
      }
    }
  }

  // A mixing that counts the units.
  function CountUnits(pos: Position, u: Unit, c: nat, tc: nat): Position {
    if pos + 1 < 0x1_0000_0000 then pos + 1 else pos
  }

  lemma {:induction false} CountsUnits(us: seq<Unit>, tc: nat)
    requires |us| < 0x1_0000_0000
    ensures Mixed(CountUnits, us, tc) == |us|
    decreases |us|
  {
    if us != [] {
      CountsUnits(us[..|us| - 1], tc);
    }
  }

  lemma {:induction false} UnitsAtMost(a: seq<Byte>, len: nat, p: nat)
    requires len <= |a|
    ensures p <= len ==> |Units(a, len, p)| <= len - p
    decreases len - p
  {
    if p < len {
      UnitsAtMost(a, len, if Lead(a, p) then p + 3 else p + 1);
    }
  }

  /** So the position of a word is the same before every text, under every mixing, exactly if
      its own bytes settle where its characters begin. */
  lemma SamePositionExactly(w: seq<Byte>)
    requires |w| <= MAX_PHRASE_S_LEN
    ensures (forall mix: Mixing, rest :: PositionOf(mix, w + rest, |w|) == PositionOf(mix, w, |w|))
       <==> SelfContained(w, 0)
  {
    if SelfContained(w, 0) {
      forall mix: Mixing, rest
        ensures PositionOf(mix, w + rest, |w|) == PositionOf(mix, w, |w|)
      {
        SamePosition(mix, w, rest);
      }
    } else {
      var text := w + [0x80, 0x80];
      FewerUnits(w, 0);
      UnitsAtMost(w, |w|, 0);
      CountsUnits(Units(w, |w|, 0), Characters(w, |w|));
      CountsUnits(Units(text, |w|, 0), Characters(text, |w|));
      assert PositionOf(CountUnits, text, |w|) != PositionOf(CountUnits, w, |w|);
    }
  }

  // ---------- computing the position ----------

  method CountCharacters(s: seq<Byte>, len: nat) returns (tc: nat)
    requires len <= |s|
    ensures tc == Characters(s, len)
  {
    var p, c := 0, 0;
    while p < len
      invariant c + Singles(s, len, p) == Singles(s, len, 0)
      decreases len - p
    {
      if !Lead(s, p) {
        c := c + 1;
        p := p + 1;
      } else {
        p := p + 3;
      }
    }
    SinglesBound(s, len, 0);
    tc := (len - c) / 3;
  }

  // The units us have been taken in, and the next one starts at start.
  ghost predicate Taken(mix: Mixing, s: seq<Byte>, len: nat, tc: nat, us: seq<Unit>, start: nat, c: nat, pos: Position)
    requires len <= |s|
  {
    && us + Units(s, len, start) == Units(s, len, 0)
    && c == Triples(us)
    && pos == Mixed(mix, us, tc)
  }

  lemma OneMore(mix: Mixing, s: seq<Byte>, len: nat, tc: nat, us: seq<Unit>, start: nat, c: nat, pos: Position,
                u: Unit, next: nat) returns (more: seq<Unit>)
    requires len <= |s| && Taken(mix, s, len, tc, us, start, c, pos)
    requires Units(s, len, start) == [u] + Units(s, len, next)
    ensures var c' := if u.Triple? then c + 1 else c;
              Taken(mix, s, len, tc, more, next, c', mix(pos, u, c', tc))
  {
    more := us + [u];
    assert more[..|us|] == us;
    assert us + ([u] + Units(s, len, next)) == more + Units(s, len, next);
  }

  lemma AllTaken(mix: Mixing, s: seq<Byte>, len: nat, tc: nat, us: seq<Unit>, start: nat, c: nat, pos: Position)
    requires len <= |s| && Taken(mix, s, len, tc, us, start, c, pos) && Units(s, len, start) == []
    requires tc == Characters(s, len)
    ensures pos == PositionOf(mix, s, len)
  {
    assert us + [] == us;
  }

  lemma NextUnit(s: seq<Byte>, len: nat, start: nat)
    requires start < len <= |s|
    ensures !Lead(s, start) ==> Units(s, len, start) == [Single(s[start])] + Units(s, len, start + 1)
    ensures Lead(s, start) && start + 3 <= len ==>
              Units(s, len, start) == [Triple(CharBits(s[start], s[start + 1], s[start + 2]))] + Units(s, len, start + 3)
    ensures Lead(s, start) && start + 3 > len ==> Units(s, len, start) == []
  {
  }

  // The bits of a character of which the bytes but the last b have come.
  function Sum(s: seq<Byte>, start: nat, b: nat): nat
    requires start + 3 <= |s| && b <= 3
  {
    if b == 3 then 0
    else if b == 2 then High(s[start])
    else if b == 1 then High(s[start]) + Middle(s[start + 1])
    else CharBits(s[start], s[start + 1], s[start + 2])
  }

  method AddBits(s: seq<Byte>, p: nat, b: nat, sum: nat) returns (more: nat)
    requires b < 3 && p < |s|
    requires var start := p - (2 - b); start >= 0 && start + 3 <= |s| && (b < 2 ==> sum == Sum(s, start, b + 1))
    ensures more == Sum(s, p - (2 - b), b)
  {
    if b == 2 {
      more := High(s[p]);
    } else if b == 1 {
      more := sum + Middle(s[p]);
    } else {
      more := sum + Low(s[p]);
    }
  }

  method BitmapPos(mix: Mixing, s: seq<Byte>, len: nat) returns (pos: Position)
    requires len <= |s|
    ensures pos == PositionOf(mix, s, len)
  {
    var tc := CountCharacters(s, len);
    pos := 0;
    var p, c := 0, 0;
    var sum := 0;
    var b := 3;
    ghost var us: seq<Unit> := [];
    ghost var start := 0;
    while p < len
      invariant 1 <= b <= 3 && p == start + (3 - b) <= len
      invariant b < 3 ==> Lead(s, start) && start + 3 <= |s| && sum == Sum(s, start, b)
      invariant Taken(mix, s, len, tc, us, start, c, pos)
      decreases len - p
    {
      NextUnit(s, len, start);
      if b == 3 && !Lead(s, p) {
        us := OneMore(mix, s, len, tc, us, start, c, pos, Single(s[p]), p + 1);
        pos := mix(pos, Single(s[p]), c, tc);
        p := p + 1;
        start := p;
        continue;
      }
      LeadFits(s, start);
      b := b - 1;
      sum := AddBits(s, p, b, sum);
      if b == 0 {
        us := OneMore(mix, s, len, tc, us, start, c, pos, Triple(sum), p + 1);
        c := c + 1;
        pos := mix(pos, Triple(sum), c, tc);
        sum := 0;
        b := 3;
        start := p + 1;
      }
      p := p + 1;
    }
    if start < len {
      NextUnit(s, len, start);
    }
    AllTaken(mix, s, len, tc, us, start, c, pos);
  }
}
