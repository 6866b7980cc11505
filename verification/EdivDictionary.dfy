/** The splitter's dictionary as an object (lib/eii/ediv.c): words are set one by one and never
    taken out, and a lookup tells whether some word set has the same position. */
module EdivDictionary {
  import opened Bytes
  import opened EdivBitmap

  function Mask(k: nat): bv8
    requires k < 8
  {
    match k
    case 0 => 0x01
    case 1 => 0x02
    case 2 => 0x04
    case 3 => 0x08
    case 4 => 0x10
    case 5 => 0x20
    case 6 => 0x40
    case 7 => 0x80
  }

  lemma OneBitSet(b: bv8, j: nat, k: nat)
    requires j < 8 && k < 8
    ensures (b | Mask(j)) & Mask(k) != 0 <==> j == k || b & Mask(k) != 0
  {
    if j == k {
      OwnBit(b, Mask(j));
    } else {
      MasksApart(j, k);
      OtherBit(b, Mask(j), Mask(k));
    }
  }

  lemma MasksApart(j: nat, k: nat)
    requires j < 8 && k < 8 && j != k
    ensures Mask(j) & Mask(k) == 0
  {
  }

  lemma OwnBit(b: bv8, m: bv8)
    requires m != 0
    ensures (b | m) & m != 0
  {
    assert (b | m) & m == m;
  }

  lemma OtherBit(b: bv8, m: bv8, n: bv8)
    requires m & n == 0
    ensures (b | m) & n == b & n
  {
  }

  predicate BitAt(bits: seq<bv8>, pos: Position)
    requires |bits| == 0x2000_0000
  {
    bits[pos / 8] & Mask(pos % 8) != 0
  }

  lemma SetOneBit(bits: seq<bv8>, pos: Position, q: Position)
    requires |bits| == 0x2000_0000
    ensures BitAt(bits[pos / 8 := bits[pos / 8] | Mask(pos % 8)], q) <==> q == pos || BitAt(bits, q)
  {
    if q / 8 == pos / 8 {
      OneBitSet(bits[pos / 8], pos % 8, q % 8);
    }
  }

  class Dictionary {
    const mix: Mixing
    const bm: array<bv8>
    // The words set so far.
    ghost var Words: set<seq<Byte>>

    // ediv_init
    constructor (mix: Mixing)
      ensures Valid() && Words == {} && this.mix == mix && fresh(bm)
    {
      this.mix := mix;
      bm := new bv8[0x2000_0000](_ => 0);
      Words := {};
    }

    // A bit is set exactly if a word was set that has its position.
    ghost predicate Valid()
      reads this, bm
    {
      && bm.Length == 0x2000_0000
      && forall q: Position :: BitAt(bm[..], q) <==> exists w :: w in Words && PositionOf(mix, w, |w|) == q
    }

    // ediv_word_set
    method WordSet(w: seq<Byte>)
      requires Valid()
      modifies this`Words, bm
      ensures Valid() && Words == old(Words) + if |w| > MAX_PHRASE_S_LEN then {} else {w}
    {
      if |w| > MAX_PHRASE_S_LEN {
        return;
      }
      var pos := BitmapPos(mix, w, |w|);
      ghost var bits := bm[..];
      bm[pos / 8] := bm[pos / 8] | Mask(pos % 8);
      assert bm[..] == bits[pos / 8 := bits[pos / 8] | Mask(pos % 8)];
      Words := Words + {w};
      forall q: Position
        ensures BitAt(bm[..], q) <==> exists x :: x in Words && PositionOf(mix, x, |x|) == q
      {
        SetOneBit(bits, pos, q);
      }
    }

    // BITMAP_GET at the position of the first len bytes of s
    method Lookup(s: seq<Byte>, len: nat) returns (found: bool)
      requires Valid() && len <= |s|
      ensures found == BitAt(bm[..], PositionOf(mix, s, len))
    {
      var pos := BitmapPos(mix, s, len);
      found := bm[pos / 8] & Mask(pos % 8) != 0;
    }
  }

  /** No false negatives: a word that was set, and whose own bytes settle where its characters
      begin, is found at the beginning of any text that begins with it. */
  lemma SetWordIsFound(d: Dictionary, w: seq<Byte>, rest: seq<Byte>)
    requires d.Valid() && w in d.Words && SelfContained(w, 0)
    ensures BitAt(d.bm[..], PositionOf(d.mix, w + rest, |w|))
  {
    SamePosition(d.mix, w, rest);
  }
}
