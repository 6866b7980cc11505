/** Splitting a text into words (lib/eii/ediv.c): from where the last word ended, longer and
    longer stretches of the text are looked up, and the first one found ends the word; if none
    is found, one character is passed on alone. */
module EdivSplit {
  import opened Bytes
  import opened EdivBitmap
  import opened EdivDictionary
  import opened Wrappers

  datatype Options = Options(onlyMaxMatch: bool, throwUnknown: bool, skipNutf: bool)

  // hit(s, i): the i bytes from s on are found in the dictionary.
  type Hits = (nat, nat) -> bool

  function Width(a: seq<Byte>, p: nat): (n: nat)
    ensures n > 0 && (p < |a| ==> p + n <= |a|)
  {
    if Lead(a, p) then LeadFits(a, p); 3 else 1
  }

  // Where the bytes outside three-byte characters from p on end.
  function RunEnd(a: seq<Byte>, p: nat): (e: nat)
    requires p <= |a|
    ensures p <= e <= |a|
    ensures p < |a| && !Lead(a, p) ==> p < e
    decreases |a| - p
  {
    if p == |a| || Lead(a, p) then p else RunEnd(a, p + 1)
  }

  // After i bytes from s on were not found, how many to try next. With skip, runs of other bytes
  // are stepped over; es is where the first such run began, and each further one steps on by the
  // distance from there.
  function Onward(a: seq<Byte>, skip: bool, s: nat, i: nat, es: Option<nat>): (next: (nat, Option<nat>))
    requires s + i <= |a| && (es.Some? ==> es.value <= s + i)
    ensures i < next.0 && (next.1.Some? ==> next.1.value <= s + next.0)
  {
    var e := RunEnd(a, s + i);
    if !skip then (i + Width(a, s + i), es)
    else if e == s + i then (i + 3, es)
    else if es.None? then (i + (e - (s + i)), Some(s + i))
    else (i + (e - es.value), es)
  }

  // The length of the first stretch from s on that is found, i or more bytes long.
  function FirstHit(a: seq<Byte>, hit: Hits, skip: bool, s: nat, i: nat, es: Option<nat>): (found: Option<nat>)
    requires s <= |a| && (es.Some? ==> es.value <= s + i)
    ensures found.Some? ==> i <= found.value < MAX_PHRASE_S_LEN && s + found.value <= |a|
    decreases if i < MAX_PHRASE_S_LEN then MAX_PHRASE_S_LEN - i else 0
  {
    if i >= MAX_PHRASE_S_LEN || s + i > |a| then None
    else if hit(s, i) then Some(i)
    else
      var next := Onward(a, skip, s, i, es);
      FirstHit(a, hit, skip, s, next.0, next.1)
  }

  function WordLength(a: seq<Byte>, hit: Hits, skip: bool, s: nat): Option<nat>
    requires s <= |a|
  {
    FirstHit(a, hit, skip, s, 0, None)
  }

  // Where the word from s on ends; s if there is none.
  function WordEnd(a: seq<Byte>, hit: Hits, skip: bool, s: nat): (t: nat)
    requires s <= |a|
    ensures s <= t <= |a|
  {
    match WordLength(a, hit, skip, s)
    case Some(i) => s + i
    case None => if skip then RunEnd(a, s) else s
  }

  function PieceEnd(a: seq<Byte>, hit: Hits, skip: bool, s: nat): (t: nat)
    requires s < |a|
    ensures s < t <= |a|
  {
    var t := WordEnd(a, hit, skip, s);
    if t > s then t else s + Width(a, s)
  }

  // If a run is stepped over at the beginning of a piece and every match is reported, the
  // callback gets the run at once and es is set to NULL, with which the source then goes on
  // to compute.
  predicate ComputesWithNull(a: seq<Byte>, hit: Hits, o: Options, s: nat)
    requires s < |a|
  {
    o.skipNutf && !o.onlyMaxMatch && !hit(s, 0) && !Lead(a, s)
  }

  // That happens somewhere from s on.
  predicate Undefined(a: seq<Byte>, hit: Hits, o: Options, s: nat)
    requires s <= |a|
    decreases |a| - s
  {
    s < |a| && (ComputesWithNull(a, hit, o, s) || Undefined(a, hit, o, PieceEnd(a, hit, o.skipNutf, s)))
  }

  // What the callback gets, from s on.
  function Calls(a: seq<Byte>, hit: Hits, o: Options, s: nat): seq<seq<Byte>>
    requires s <= |a|
    decreases |a| - s
  {
    if s == |a| then []
    else if ComputesWithNull(a, hit, o, s) then [a[s..RunEnd(a, s)]]
    else CallsAt(a, hit, o, s) + Calls(a, hit, o, PieceEnd(a, hit, o.skipNutf, s))
  }

  function CallsAt(a: seq<Byte>, hit: Hits, o: Options, s: nat): seq<seq<Byte>>
    requires s < |a|
  {
    Reported(a, o, s, WordEnd(a, hit, o.skipNutf, s), WordLength(a, hit, o.skipNutf, s).Some?)
  }

  // What the callback gets once the scan from s on has come to t.
  function Reported(a: seq<Byte>, o: Options, s: nat, t: nat, found: bool): seq<seq<Byte>>
    requires s <= t <= |a| && s < |a|
  {
    (if found && !o.onlyMaxMatch then [a[s..t]] else [])
    + if t > s then if o.onlyMaxMatch then [a[s..t]] else []
      else if !o.throwUnknown then [a[s..s + Width(a, s)]] else []
  }

  // ---------- nothing is lost ----------

  lemma {:induction false} ConcatTogether(ws: seq<seq<Byte>>, xs: seq<seq<Byte>>)
    ensures Concat(ws + xs) == Concat(ws) + Concat(xs)
    decreases |xs|
  {
    if xs == [] {
      assert ws + xs == ws;
    } else {
      var k := |xs| - 1;
      assert (ws + xs)[..|ws| + k] == ws + xs[..k];
      ConcatTogether(ws, xs[..k]);
    }
  }

  lemma ConcatOne(w: seq<Byte>)
    ensures Concat([w]) == w && Concat([[], w]) == w
  {
    var none: seq<Byte> := [];
    assert [w][..0] == [] && [none, w][..1] == [none] && [none][..0] == [];
  }

  lemma PieceKept(a: seq<Byte>, hit: Hits, o: Options, s: nat)
    requires s < |a| && !o.throwUnknown && !ComputesWithNull(a, hit, o, s)
    ensures Concat(CallsAt(a, hit, o, s)) == a[s..PieceEnd(a, hit, o.skipNutf, s)]
  {
    var piece := a[s..PieceEnd(a, hit, o.skipNutf, s)];
    ConcatOne(piece);
    if CallsAt(a, hit, o, s) != [piece] {
      assert a[s..s] == [];
      assert CallsAt(a, hit, o, s) == [[], piece];
    }
  }

  lemma CutAt(a: seq<Byte>, s: nat, t: nat)
    requires s <= t <= |a|
    ensures a[s..t] + a[t..] == a[s..]
  {
    assert a[s..][..t - s] == a[s..t] && a[s..][t - s..] == a[t..];
  }

  lemma KeptTogether(ws: seq<seq<Byte>>, xs: seq<seq<Byte>>, a: seq<Byte>, s: nat, t: nat)
    requires s <= t <= |a| && Concat(ws) == a[s..t] && Concat(xs) == a[t..]
    ensures Concat(ws + xs) == a[s..]
  {
    ConcatTogether(ws, xs);
    CutAt(a, s, t);
  }

  // What one piece adds.
  lemma OnePiece(a: seq<Byte>, hit: Hits, o: Options, s: nat) returns (t: nat)
    requires s < |a| && !ComputesWithNull(a, hit, o, s)
    ensures t == PieceEnd(a, hit, o.skipNutf, s) && s < t <= |a|
    ensures Calls(a, hit, o, s) == CallsAt(a, hit, o, s) + Calls(a, hit, o, t)
    ensures Undefined(a, hit, o, s) == Undefined(a, hit, o, t)
  {
    t := PieceEnd(a, hit, o.skipNutf, s);
  }

  /** Put together again, what the callback gets is the text. */
  lemma {:induction false} SplitKeepsText(a: seq<Byte>, hit: Hits, o: Options, s: nat)
    requires s <= |a| && !o.throwUnknown && !Undefined(a, hit, o, s)
    ensures Concat(Calls(a, hit, o, s)) == a[s..]
    decreases |a| - s
  {
    if s < |a| {
      var t := OnePiece(a, hit, o, s);
      SplitKeepsText(a, hit, o, t);
      PieceKept(a, hit, o, s);
      KeptTogether(CallsAt(a, hit, o, s), Calls(a, hit, o, t), a, s, t);
    }
  }

  /** Every match reported or only words, with nothing thrown away: the callback gets the text,
      unless runs are stepped over and every match is reported. */
  lemma SplitKeepsWholeText(a: seq<Byte>, hit: Hits, o: Options)
    requires !o.throwUnknown && (o.onlyMaxMatch || !o.skipNutf)
    ensures Concat(Calls(a, hit, o, 0)) == a
  {
    Defined(a, hit, o, 0);
    SplitKeepsText(a, hit, o, 0);
  }

  // ---------- what is thrown away ----------

  // From p to q there is one run: no three-byte character begins in it, and one begins after it or
  // the text is over.
  predicate RunFrom(a: seq<Byte>, p: nat, q: nat) {
    p < q <= |a| && (forall j: nat :: p <= j < q ==> !ThreeBytes(a, j)) && (q < |a| ==> ThreeBytes(a, q))
  }

  lemma {:induction false} RunIsRun(a: seq<Byte>, p: nat)
    requires p < |a| && !Lead(a, p)
    ensures RunFrom(a, p, RunEnd(a, p))
    decreases |a| - p
  {
    LeadByBits(a, p);
    if p + 1 < |a| && !Lead(a, p + 1) {
      RunIsRun(a, p + 1);
    } else if p + 1 < |a| {
      LeadByBits(a, p + 1);
    }
  }

  // w is a stretch found in the dictionary or, if runs are stepped over, a run.
  ghost predicate FoundOrRun(a: seq<Byte>, hit: Hits, skip: bool, w: seq<Byte>) {
    exists p: nat, q: nat :: p <= q <= |a| && w == a[p..q] && (hit(p, q - p) || (skip && RunFrom(a, p, q)))
  }

  lemma WordIsFound(a: seq<Byte>, hit: Hits, skip: bool, s: nat)
    requires s < |a|
    ensures var t := WordEnd(a, hit, skip, s);
            && (WordLength(a, hit, skip, s).Some? || t > s ==> FoundOrRun(a, hit, skip, a[s..t]))
            && (skip && !Lead(a, s) ==> FoundOrRun(a, hit, skip, a[s..RunEnd(a, s)]))
  {
    var t := WordEnd(a, hit, skip, s);
    ShortestWord(a, hit, skip, s, 0, None);
    if skip && !Lead(a, s) {
      RunIsRun(a, s);
      assert FoundOrRun(a, hit, skip, a[s..RunEnd(a, s)]);
    }
    if WordLength(a, hit, skip, s).Some? {
      assert hit(s, t - s);
    }
  }

  /** When what is unknown is thrown away, the callback gets nothing but stretches found in the
      dictionary and, if they are stepped over, runs. */
  lemma {:induction false} OnlyFoundOrRuns(a: seq<Byte>, hit: Hits, o: Options, s: nat)
    requires s <= |a| && o.throwUnknown
    ensures forall w :: w in Calls(a, hit, o, s) ==> FoundOrRun(a, hit, o.skipNutf, w)
    decreases |a| - s
  {
    if s < |a| {
      WordIsFound(a, hit, o.skipNutf, s);
      if !ComputesWithNull(a, hit, o, s) {
        var t := OnePiece(a, hit, o, s);
        OnlyFoundOrRuns(a, hit, o, t);
      }
    }
  }

  // The text without the characters at which no word or run begins.
  function Kept(a: seq<Byte>, hit: Hits, skip: bool, s: nat): seq<Byte>
    requires s <= |a|
    decreases |a| - s
  {
    if s == |a| then []
    else
      var t := WordEnd(a, hit, skip, s);
      if t > s then a[s..t] + Kept(a, hit, skip, t)
      else if ThreeBytes(a, s) then Kept(a, hit, skip, s + 3) else Kept(a, hit, skip, s + 1)
  }

  lemma PieceThrown(a: seq<Byte>, hit: Hits, o: Options, s: nat)
    requires s < |a| && o.throwUnknown && !ComputesWithNull(a, hit, o, s)
    ensures Concat(CallsAt(a, hit, o, s)) == a[s..WordEnd(a, hit, o.skipNutf, s)]
  {
    var word := a[s..WordEnd(a, hit, o.skipNutf, s)];
    ConcatOne(word);
    if CallsAt(a, hit, o, s) != [word] {
      assert CallsAt(a, hit, o, s) == [] && word == [];
    }
  }

  /** Put together, they are the text without the characters at which no word or run begins. */
  lemma {:induction false} ThrownExactly(a: seq<Byte>, hit: Hits, o: Options, s: nat)
    requires s <= |a| && o.throwUnknown && !Undefined(a, hit, o, s)
    ensures Concat(Calls(a, hit, o, s)) == Kept(a, hit, o.skipNutf, s)
    decreases |a| - s
  {
    if s < |a| {
      var t := OnePiece(a, hit, o, s);
      ThrownExactly(a, hit, o, t);
      PieceThrown(a, hit, o, s);
      ConcatTogether(CallsAt(a, hit, o, s), Calls(a, hit, o, t));
      LeadByBits(a, s);
      if WordEnd(a, hit, o.skipNutf, s) == s {
        assert a[s..s] + Kept(a, hit, o.skipNutf, t) == Kept(a, hit, o.skipNutf, t);
      }
    }
  }

  // The characters from s on, one by one.
  function Characters(a: seq<Byte>, s: nat): seq<seq<Byte>>
    requires s <= |a|
    decreases |a| - s
  {
    if s == |a| then []
    else if ThreeBytes(a, s) then [a[s..s + 3]] + Characters(a, s + 3)
    else [a[s..s + 1]] + Characters(a, s + 1)
  }

  /** With nothing found and no run stepped over, there are no calls, or one for each character. */
  lemma {:induction false} NothingFound(a: seq<Byte>, hit: Hits, o: Options, s: nat)
    requires s <= |a| && (forall p: nat, i: nat :: !hit(p, i)) && (!o.skipNutf || AllLeads(a, s))
    ensures Calls(a, hit, o, s) == if o.throwUnknown then [] else Characters(a, s)
    decreases |a| - s
  {
    if s < |a| {
      NothingHere(a, hit, o, s);
      NothingFound(a, hit, o, s + if ThreeBytes(a, s) then 3 else 1);
    }
  }

  lemma NothingHere(a: seq<Byte>, hit: Hits, o: Options, s: nat)
    requires s < |a| && (forall p: nat, i: nat :: !hit(p, i)) && (o.skipNutf ==> Lead(a, s))
    ensures !ComputesWithNull(a, hit, o, s)
    ensures var t := s + if ThreeBytes(a, s) then 3 else 1;
            && t <= |a| && PieceEnd(a, hit, o.skipNutf, s) == t
            && CallsAt(a, hit, o, s) == if o.throwUnknown then [] else [a[s..t]]
  {
    ShortestWord(a, hit, o.skipNutf, s, 0, None);
    LeadByBits(a, s);
  }

  // ---------- where the source computes with NULL ----------

  lemma {:induction false} Defined(a: seq<Byte>, hit: Hits, o: Options, s: nat)
    requires s <= |a|
    requires o.onlyMaxMatch || !o.skipNutf || forall p: nat :: p <= |a| ==> hit(p, 0)
    ensures !Undefined(a, hit, o, s)
    decreases |a| - s
  {
    if s < |a| {
      Defined(a, hit, o, PieceEnd(a, hit, o.skipNutf, s));
    }
  }

  lemma UndefinedOnlyIf(bits: seq<bv8>, mix: Mixing, a: seq<Byte>, o: Options)
    requires |bits| == 0x2000_0000 && Undefined(a, HitsOf(bits, mix, a), o, 0)
    ensures o.skipNutf && !o.onlyMaxMatch && !BitAt(bits, 0)
  {
    EmptyStretch(bits, mix, a);
    if !o.skipNutf || o.onlyMaxMatch || BitAt(bits, 0) {
      Defined(a, HitsOf(bits, mix, a), o, 0);
    }
  }

  // "a"
  lemma NullExample(bits: seq<bv8>, mix: Mixing, o: Options)
    requires |bits| == 0x2000_0000 && !BitAt(bits, 0)
    requires o.skipNutf && !o.onlyMaxMatch
    ensures Undefined([0x61], HitsOf(bits, mix, [0x61]), o, 0)
  {
    EmptyStretch(bits, mix, [0x61]);
    assert ComputesWithNull([0x61], HitsOf(bits, mix, [0x61]), o, 0);
  }

  /** A dictionary and options keep the source from computing with NULL on every text exactly if
      runs are not stepped over, or only words are reported, or the bit at position 0 is set. */
  lemma DefinedExactly(bits: seq<bv8>, mix: Mixing, o: Options)
    requires |bits| == 0x2000_0000
    ensures (forall a :: !Undefined(a, HitsOf(bits, mix, a), o, 0))
       <==> !o.skipNutf || o.onlyMaxMatch || BitAt(bits, 0)
  {
    if !o.skipNutf || o.onlyMaxMatch || BitAt(bits, 0) {
      forall a | Undefined(a, HitsOf(bits, mix, a), o, 0)
        ensures false
      {
        UndefinedOnlyIf(bits, mix, a, o);
      }
    } else {
      NullExample(bits, mix, o);
    }
  }

  // From s on there are only three-byte characters.
  predicate AllLeads(a: seq<Byte>, s: nat)
    decreases |a| - s
  {
    s == |a| || (Lead(a, s) && AllLeads(a, s + 3))
  }

  lemma {:induction false} HitAmongLeads(a: seq<Byte>, hit: Hits, s: nat, i: nat)
    requires s + i <= |a| && AllLeads(a, s + i)
    ensures var found := FirstHit(a, hit, true, s, i, None);
            found.Some? ==> AllLeads(a, s + found.value)
    decreases |a| - i
  {
    if i < MAX_PHRASE_S_LEN && s + i < |a| && !hit(s, i) {
      HitAmongLeads(a, hit, s, i + 3);
    }
  }

  lemma {:induction false} DefinedOnLeads(a: seq<Byte>, hit: Hits, o: Options, s: nat)
    requires s <= |a| && AllLeads(a, s) && o.skipNutf
    ensures !Undefined(a, hit, o, s)
    decreases |a| - s
  {
    if s < |a| {
      HitAmongLeads(a, hit, s, 0);
      DefinedOnLeads(a, hit, o, PieceEnd(a, hit, true, s));
    }
  }

  lemma {:induction false} NeverFound(a: seq<Byte>, hit: Hits, s: nat, i: nat, es: Option<nat>)
    requires s <= |a| && (es.Some? ==> es.value <= s + i) && forall j: nat :: !hit(s, j)
    ensures FirstHit(a, hit, true, s, i, es) == None
    decreases if i < MAX_PHRASE_S_LEN then MAX_PHRASE_S_LEN - i else 0
  {
    if i < MAX_PHRASE_S_LEN && s + i <= |a| {
      var next := Onward(a, true, s, i, es);
      NeverFound(a, hit, s, next.0, next.1);
    }
  }

  lemma {:induction false} UndefinedElsewhere(a: seq<Byte>, hit: Hits, o: Options, s: nat)
    requires s <= |a| && !AllLeads(a, s) && o.skipNutf && !o.onlyMaxMatch
    requires forall p: nat, i: nat :: !hit(p, i)
    ensures Undefined(a, hit, o, s)
    decreases |a| - s
  {
    if Lead(a, s) {
      NeverFound(a, hit, s, 0, None);
      assert PieceEnd(a, hit, true, s) == s + 3;
      UndefinedElsewhere(a, hit, o, s + 3);
    }
  }

  ghost predicate NoEmptyHit(hit: Hits) {
    forall p: nat :: !hit(p, 0)
  }

  /** And a text is safe, whatever is found in it but the empty stretch, exactly if it consists of
      three-byte characters. */
  lemma SafeTexts(a: seq<Byte>, o: Options)
    requires o.skipNutf && !o.onlyMaxMatch
    ensures (forall hit: Hits :: NoEmptyHit(hit) ==> !Undefined(a, hit, o, 0)) <==> AllLeads(a, 0)
  {
    if AllLeads(a, 0) {
      forall hit: Hits
        ensures !Undefined(a, hit, o, 0)
      {
        DefinedOnLeads(a, hit, o, 0);
      }
    } else {
      var never: Hits := (p: nat, i: nat) => false;
      UndefinedElsewhere(a, never, o, 0);
      assert NoEmptyHit(never) && Undefined(a, never, o, 0);
    }
  }

  // ---------- empty calls ----------

  lemma {:induction false} EmptyCalls(a: seq<Byte>, hit: Hits, o: Options, s: nat, empty: bool)
    requires s < |a| && forall p: nat :: p <= |a| ==> hit(p, 0) == empty
    ensures [] in Calls(a, hit, o, s) <==> !o.onlyMaxMatch && empty
    decreases |a| - s
  {
    if !ComputesWithNull(a, hit, o, s) {
      var t := PieceEnd(a, hit, o.skipNutf, s);
      var here, later := CallsAt(a, hit, o, s), Calls(a, hit, o, t);
      assert [] in here + later <==> [] in here || [] in later;
      EmptyCall(a, hit, o, s);
      if t < |a| {
        EmptyCalls(a, hit, o, t, empty);
      }
    }
  }

  lemma EmptyCall(a: seq<Byte>, hit: Hits, o: Options, s: nat)
    requires s < |a|
    ensures [] in CallsAt(a, hit, o, s) <==> !o.onlyMaxMatch && hit(s, 0)
  {
    var found := WordLength(a, hit, o.skipNutf, s);
    if hit(s, 0) && !o.onlyMaxMatch {
      assert CallsAt(a, hit, o, s)[0] == a[s..s] == [];
    }
  }

  function HitsOf(bits: seq<bv8>, mix: Mixing, a: seq<Byte>): Hits
    requires |bits| == 0x2000_0000
  {
    (s: nat, i: nat) => s <= |a| && i <= |a| - s && BitAt(bits, PositionOf(mix, a[s..], i))
  }

  // All empty stretches stand at position 0.
  lemma EmptyStretch(bits: seq<bv8>, mix: Mixing, a: seq<Byte>)
    requires |bits| == 0x2000_0000
    ensures forall p: nat :: p <= |a| ==> HitsOf(bits, mix, a)(p, 0) == BitAt(bits, 0)
  {
  }

  /** No call is for nothing, unless some word set stands at position 0 and every match is
      reported. */
  lemma NoEmptyCalls(d: Dictionary, a: seq<Byte>, o: Options)
    requires d.Valid() && a != []
    ensures [] !in Calls(a, HitsOf(d.bm[..], d.mix, a), o, 0)
       <==> o.onlyMaxMatch || forall w :: w in d.Words ==> PositionOf(d.mix, w, |w|) != 0
  {
    EmptyStretch(d.bm[..], d.mix, a);
    EmptyCalls(a, HitsOf(d.bm[..], d.mix, a), o, 0, BitAt(d.bm[..], 0));
  }

  // ---------- which words ----------

  // From i on, a stretch of k bytes is looked up unless a shorter one is found.
  predicate Tried(a: seq<Byte>, skip: bool, s: nat, i: nat, es: Option<nat>, k: nat)
    requires s <= |a| && (es.Some? ==> es.value <= s + i)
    decreases k - i
  {
    && i <= k < MAX_PHRASE_S_LEN && s + k <= |a|
    && (i == k ||
        var next := Onward(a, skip, s, i, es);
        Tried(a, skip, s, next.0, next.1, k))
  }

  /** Whatever the options, the word found is the shortest stretch looked up that is in the
      dictionary, and if none is found none is. */
  lemma {:induction false} ShortestWord(a: seq<Byte>, hit: Hits, skip: bool, s: nat, i: nat, es: Option<nat>)
    requires s <= |a| && (es.Some? ==> es.value <= s + i)
    ensures match FirstHit(a, hit, skip, s, i, es)
            case Some(k) =>
              Tried(a, skip, s, i, es, k) && hit(s, k) && forall j: nat :: j < k && Tried(a, skip, s, i, es, j) ==> !hit(s, j)
            case None => forall j: nat :: Tried(a, skip, s, i, es, j) ==> !hit(s, j)
    decreases if i < MAX_PHRASE_S_LEN then MAX_PHRASE_S_LEN - i else 0
  {
    if i < MAX_PHRASE_S_LEN && s + i <= |a| && !hit(s, i) {
      var next := Onward(a, skip, s, i, es);
      ShortestWord(a, hit, skip, s, next.0, next.1);
      assert forall j: nat :: Tried(a, skip, s, i, es, j) ==> j == i || Tried(a, skip, s, next.0, next.1, j);
    }
  }

  predicate Candidate(a: seq<Byte>, hit: Hits, skip: bool, s: nat, k: nat)
    requires s <= |a|
  {
    Tried(a, skip, s, 0, None, k) && hit(s, k)
  }

  /** So it is the longest one, as promised, exactly if there is no other to choose from. */
  lemma LongestExactly(a: seq<Byte>, hit: Hits, skip: bool, s: nat)
    requires s <= |a| && WordLength(a, hit, skip, s).Some?
    ensures (forall k: nat :: Candidate(a, hit, skip, s, k) ==> k <= WordLength(a, hit, skip, s).value)
       <==> (forall j: nat, k: nat :: Candidate(a, hit, skip, s, j) && Candidate(a, hit, skip, s, k) ==> j == k)
  {
    ShortestWord(a, hit, skip, s, 0, None);
    var found := WordLength(a, hit, skip, s).value;
    assert Candidate(a, hit, skip, s, found);
  }

  /** So if the empty stretch is found, every character is passed on alone. */
  lemma EmptyWordSpoils(a: seq<Byte>, hit: Hits, s: nat)
    requires s < |a| && hit(s, 0)
    ensures forall skip :: PieceEnd(a, hit, skip, s) == s + Width(a, s)
  {
  }

  /** Words of the full length that may be set are never looked up. */
  lemma FullLengthNeverFound(a: seq<Byte>, hit: Hits, skip: bool, s: nat)
    requires s <= |a|
    ensures WordLength(a, hit, skip, s) != Some(45)
  {
  }

  // The ends of w's characters are looked up where the text goes on with w.
  lemma {:induction false} WordTried(a: seq<Byte>, s: nat, w: seq<Byte>, p: nat)
    requires s + |w| <= |a| && a[s..s + |w|] == w && p <= |w| < MAX_PHRASE_S_LEN
    requires SelfContained(w, p)
    ensures Tried(a, false, s, p, None, |w|)
    decreases |w| - p
  {
    if p < |w| {
      assert forall k :: 0 <= k < |w| ==> w[k] == a[s + k];
      if Lead(w, p) {
        LeadFits(w, p);
        assert Lead(a, s + p);
        WordTried(a, s, w, p + 3);
      } else {
        assert !Lead(a, s + p);
        WordTried(a, s, w, p + 1);
      }
    }
  }

  // From p on there are whole characters up to q.
  predicate EndsCharacter(a: seq<Byte>, p: nat, q: nat)
    decreases q - p
  {
    p == q || (p < q && EndsCharacter(a, p + (if ThreeBytes(a, p) then 3 else 1), q))
  }

  /** When runs are not stepped over, what is looked up is exactly the stretches of whole characters
      of less than 45 bytes. */
  lemma {:induction false} TriedCharacters(a: seq<Byte>, s: nat, i: nat, k: nat)
    requires s + i <= |a|
    ensures Tried(a, false, s, i, None, k) <==> k < 45 && s + k <= |a| && EndsCharacter(a, s + i, s + k)
    decreases k - i
  {
    if i < k && s + k <= |a| {
      LeadByBits(a, s + i);
      TriedCharacters(a, s, i + Width(a, s + i), k);
    }
  }

  // The n bytes from s on are, from i on, three-byte characters and at most one run of other
  // bytes, none if ran, that the text does not go on with after them.
  predicate OneRun(a: seq<Byte>, s: nat, i: nat, n: nat, ran: bool)
    requires s + n <= |a|
    decreases n - i
  {
    i == n || (i < n &&
      if Lead(a, s + i) then OneRun(a, s, i + 3, n, ran)
      else !ran && RunEnd(a, s + i) <= s + n && OneRun(a, s, RunEnd(a, s + i) - s, n, true))
  }

  lemma {:induction false} OneRunTried(a: seq<Byte>, s: nat, i: nat, n: nat, es: Option<nat>)
    requires s + n <= |a| && n < MAX_PHRASE_S_LEN && (es.Some? ==> es.value <= s + i)
    requires OneRun(a, s, i, n, es.Some?)
    ensures Tried(a, true, s, i, es, n)
    decreases n - i
  {
    if i < n {
      var next := Onward(a, true, s, i, es);
      OneRunTried(a, s, next.0, n, next.1);
    }
  }

  // The n bytes from s on end, at the latest, with the second run of other bytes, with the first
  // if ran.
  predicate WithinTwoRuns(a: seq<Byte>, s: nat, i: nat, n: nat, ran: bool)
    requires s + n <= |a|
    decreases n - i
  {
    i >= n ||
    if Lead(a, s + i) then WithinTwoRuns(a, s, i + 3, n, ran)
    else if ran then s + n <= RunEnd(a, s + i)
    else WithinTwoRuns(a, s, RunEnd(a, s + i) - s, n, true)
  }

  /** When runs are stepped over, a stretch that ends in or with a second run is never looked up:
      the step over that run is measured from where the first one began.  Up to there those looked
      up are exactly the stretches of three-byte characters and at most one run. */
  lemma {:induction false} TriedExactly(a: seq<Byte>, s: nat, i: nat, n: nat, es: Option<nat>)
    requires s + n <= |a| && n < MAX_PHRASE_S_LEN && (es.Some? ==> es.value < s + i)
    requires WithinTwoRuns(a, s, i, n, es.Some?)
    ensures Tried(a, true, s, i, es, n) <==> OneRun(a, s, i, n, es.Some?)
    decreases n - i
  {
    if i < n {
      var next := Onward(a, true, s, i, es);
      if Lead(a, s + i) || es.None? {
        TriedExactly(a, s, next.0, n, next.1);
      } else {
        assert next.0 > n;
      }
    }
  }

  lemma SetWordHits(d: Dictionary, a: seq<Byte>, s: nat, w: seq<Byte>)
    requires d.Valid() && w in d.Words && SelfContained(w, 0)
    requires s + |w| <= |a| && a[s..s + |w|] == w
    ensures HitsOf(d.bm[..], d.mix, a)(s, |w|)
  {
    assert a[s..] == w + a[s + |w|..];
    SetWordIsFound(d, w, a[s + |w|..]);
  }

  /** Where the text goes on with a word that was set, a word is found there, that one or a
      shorter one; when runs are stepped over, only for words of three-byte characters with at
      most one run among them, that ends with the word if it ends it. */
  lemma SetWordEndsPiece(d: Dictionary, a: seq<Byte>, skip: bool, s: nat, w: seq<Byte>)
    requires d.Valid() && w in d.Words && SelfContained(w, 0) && |w| < MAX_PHRASE_S_LEN
    requires s + |w| <= |a| && a[s..s + |w|] == w
    requires skip ==> OneRun(a, s, 0, |w|, false)
    ensures var found := WordLength(a, HitsOf(d.bm[..], d.mix, a), skip, s);
              found.Some? && found.value <= |w|
  {
    SetWordHits(d, a, s, w);
    if skip {
      OneRunTried(a, s, 0, |w|, None);
    } else {
      WordTried(a, s, w, 0);
    }
    ShortestWord(a, HitsOf(d.bm[..], d.mix, a), skip, s, 0, None);
  }

  /** So a word that ends with its second run, or goes on in it, is not found there, set or not. */
  lemma SecondRunNotFound(a: seq<Byte>, hit: Hits, s: nat, n: nat)
    requires s + n <= |a| && WithinTwoRuns(a, s, 0, n, false) && !OneRun(a, s, 0, n, false)
    ensures WordLength(a, hit, true, s) != Some(n)
  {
    if n < MAX_PHRASE_S_LEN {
      TriedExactly(a, s, 0, n, None);
      ShortestWord(a, hit, true, s, 0, None);
    }
  }

  // "a", a three-byte character and "b"
  lemma SecondRunExample(hit: Hits)
    ensures WordLength([0x61, 0xE4, 0xB8, 0x89, 0x62], hit, true, 0) != Some(5)
  {
    var a: seq<Byte> := [0x61, 0xE4, 0xB8, 0x89, 0x62];
    assert Lead(a, 1) && RunEnd(a, 1) == 1 && RunEnd(a, 5) == 5;
    SecondRunNotFound(a, hit, 0, 5);
  }

  /** So of a word and one that goes on after it, where both were set, the longer one is never
      taken, though its bit is set and it would have been looked up. */
  lemma ExtensionNotTaken(d: Dictionary, w: seq<Byte>, x: seq<Byte>)
    requires d.Valid() && w in d.Words && w + x in d.Words && x != [] && |w + x| < MAX_PHRASE_S_LEN
    requires SelfContained(w, 0) && SelfContained(w + x, 0)
    ensures var hit := HitsOf(d.bm[..], d.mix, w + x); var found := WordLength(w + x, hit, false, 0);
              Candidate(w + x, hit, false, 0, |w + x|) && found.Some? && found.value <= |w| < |w + x|
  {
    var a := w + x;
    assert a[0..0 + |w|] == w && a[0..0 + |a|] == a;
    SetWordHits(d, a, 0, a);
    WordTried(a, 0, a, 0);
    SetWordEndsPiece(d, a, false, 0, w);
  }

  lemma Ascii(p: Byte, q: Byte)
    requires p < 0x80 && q < 0x80
    ensures SelfContained([p], 0) && SelfContained([p] + [q], 0)
    ensures !Lead([p] + [q], 0)
  {
    var pq := [p] + [q];
    assert SelfContained([p], 1) && SelfContained(pq, 2);
    assert SelfContained(pq, 1);
  }

  /** With a letter and two letters in the dictionary, the two are cut after the first. */
  lemma ShorterWordTaken(d: Dictionary, p: Byte, q: Byte)
    requires d.Valid() && d.Words == {[p], [p] + [q]} && p < 0x80 && q < 0x80
    ensures PieceEnd([p] + [q], HitsOf(d.bm[..], d.mix, [p] + [q]), false, 0) == 1
  {
    Ascii(p, q);
    ExtensionNotTaken(d, [p], [q]);
  }

  // "a" and "ab"
  lemma ShorterWordExample(d: Dictionary)
    requires d.Valid() && d.Words == {[0x61], [0x61] + [0x62]}
    ensures PieceEnd([0x61] + [0x62], HitsOf(d.bm[..], d.mix, [0x61] + [0x62]), false, 0) == 1
  {
    ShorterWordTaken(d, 0x61, 0x62);
  }

  // ---------- the code ----------

  // The calls made before s was come to, and that nothing undefined was done.
  ghost predicate Made(calls: seq<seq<Byte>>, a: seq<Byte>, hit: Hits, o: Options, s: nat) {
    && s <= |a|
    && calls + Calls(a, hit, o, s) == Calls(a, hit, o, 0)
    && Undefined(a, hit, o, s) == Undefined(a, hit, o, 0)
  }

  lemma NothingMade(a: seq<Byte>, hit: Hits, o: Options)
    ensures Made([], a, hit, o, 0)
  {
  }

  lemma OnePieceMore(calls: seq<seq<Byte>>, a: seq<Byte>, hit: Hits, o: Options, s: nat, t: nat, more: seq<seq<Byte>>)
    requires Made(calls, a, hit, o, s) && s < |a| && !ComputesWithNull(a, hit, o, s)
    requires t == PieceEnd(a, hit, o.skipNutf, s) && more == calls + CallsAt(a, hit, o, s)
    ensures Made(more, a, hit, o, t)
  {
    var _ := OnePiece(a, hit, o, s);
    assert calls + (CallsAt(a, hit, o, s) + Calls(a, hit, o, t)) == more + Calls(a, hit, o, t);
  }

  lemma LastPiece(calls: seq<seq<Byte>>, a: seq<Byte>, hit: Hits, o: Options, s: nat)
    requires Made(calls, a, hit, o, s)
    ensures s == |a| ==> calls == Calls(a, hit, o, 0) && !Undefined(a, hit, o, 0)
    ensures s < |a| && ComputesWithNull(a, hit, o, s) ==>
              calls + [a[s..RunEnd(a, s)]] == Calls(a, hit, o, 0) && Undefined(a, hit, o, 0)
  {
    assert calls + [] == calls;
  }

  // ediv_word_split; undefined if it computes with NULL, until then it makes the calls.
  method Split(d: Dictionary, ts: seq<Byte>, o: Options) returns (calls: seq<seq<Byte>>, undefined: bool)
    requires d.Valid()
    ensures var hit := HitsOf(d.bm[..], d.mix, ts);
              calls == Calls(ts, hit, o, 0) && undefined == Undefined(ts, hit, o, 0)
    ensures !o.skipNutf || o.onlyMaxMatch || BitAt(d.bm[..], 0) ==> !undefined
    ensures !undefined && !o.throwUnknown ==> Concat(calls) == ts
  {
    ghost var hit := HitsOf(d.bm[..], d.mix, ts);
    calls := [];
    undefined := false;
    var s := 0;
    NothingMade(ts, hit, o);
    while s < |ts|
      invariant Made(calls, ts, hit, o, s)
      decreases |ts| - s
    {
      var t, found, broken := Scan(d, ts, o, s, hit);
      if broken {
        LastPiece(calls, ts, hit, o, s);
        UndefinedOnlyIf(d.bm[..], d.mix, ts, o);
        calls := calls + [ts[s..t]];
        return calls, true;
      }
      ghost var before, from := calls, s;
      calls, s := Report(ts, o, s, t, found, calls);
      OnePieceMore(before, ts, hit, o, from, s, calls);
    }
    LastPiece(calls, ts, hit, o, s);
    undefined := false;
    if !o.throwUnknown {
      SplitKeepsText(ts, hit, o, 0);
    }
  }

  // What ediv_word_split does between two words.
  method Report(ts: seq<Byte>, o: Options, s: nat, t: nat, found: bool, before: seq<seq<Byte>>)
    returns (calls: seq<seq<Byte>>, next: nat)
    requires s <= t <= |ts| && s < |ts|
    ensures calls == before + Reported(ts, o, s, t, found)
    ensures next == if t > s then t else s + Width(ts, s)
  {
    calls := before;
    if found && !o.onlyMaxMatch {
      calls := calls + [ts[s..t]];
    }
    if t > s {
      if o.onlyMaxMatch {
        calls := calls + [ts[s..t]];
      }
      next := t;
    } else {
      var r := Width(ts, s);
      if !o.throwUnknown {
        calls := calls + [ts[s..s + r]];
      }
      next := s + r;
    }
  }

  // The inner loop of ediv_word_split: looks for the end t of the word from s on.
  method Scan(d: Dictionary, ts: seq<Byte>, o: Options, s: nat, ghost hit: Hits)
    returns (t: nat, found: bool, undefined: bool)
    requires d.Valid() && s < |ts| && hit == HitsOf(d.bm[..], d.mix, ts)
    ensures undefined == ComputesWithNull(ts, hit, o, s)
    ensures undefined ==> t == RunEnd(ts, s)
    ensures !undefined ==>
              t == WordEnd(ts, hit, o.skipNutf, s) && found == WordLength(ts, hit, o.skipNutf, s).Some?
  {
    ghost var end := RunEnd(ts, s);
    var es: Option<nat> := None;
    t := s;
    found, undefined := false, false;
    var r: int := |ts| - s;
    var i := 0;
    while i < MAX_PHRASE_S_LEN && r >= 0
      invariant r == |ts| - s - i && !found && !undefined
      invariant es.Some? ==> es.value <= s + i
      invariant i > 0 ==> !ComputesWithNull(ts, hit, o, s)
      invariant FirstHit(ts, hit, o.skipNutf, s, i, es) == WordLength(ts, hit, o.skipNutf, s)
      invariant t == if o.skipNutf && i > 0 then end else s
      decreases MAX_PHRASE_S_LEN - i
    {
      found := LookupAt(d, ts, s, i, hit);
      if found {
        t := s + i;
        break;
      }
      if o.skipNutf && !o.onlyMaxMatch && i == 0 && !Lead(ts, s) {
        t, es := SkipRun(ts, s, None);
        undefined := true;
        return;
      }
      ghost var next := StepOn(ts, hit, o.skipNutf, s, i, es);
      var j;
      j, es, t := Step(ts, o.skipNutf, s, i, es, t);
      i, r := j, r - (j - i);
    }
  }

  method LookupAt(d: Dictionary, ts: seq<Byte>, s: nat, i: nat, ghost hit: Hits) returns (found: bool)
    requires d.Valid() && s + i <= |ts| && hit == HitsOf(d.bm[..], d.mix, ts)
    ensures found == hit(s, i)
  {
    found := d.Lookup(ts[s..], i);
  }

  // How ediv_word_split goes on after a stretch that was not found; the first run from s on is
  // a word unless a longer one is found.
  method Step(ts: seq<Byte>, skip: bool, s: nat, i: nat, es0: Option<nat>, t0: nat)
    returns (j: nat, es: Option<nat>, t: nat)
    requires s + i <= |ts| && (es0.Some? ==> es0.value <= s + i)
    ensures (j, es) == Onward(ts, skip, s, i, es0)
    ensures t == if skip && i == 0 then RunEnd(ts, s) else t0
  {
    var e := s + i;
    es, t := es0, t0;
    if skip {
      e, es := SkipRun(ts, e, es);
      if i == 0 {
        t := e;
      }
      if e != s + i {
        j := i + (e - es.value);
      } else {
        j := i + 3;
      }
    } else {
      j := i + Width(ts, e);
    }
  }

  lemma StepOn(a: seq<Byte>, hit: Hits, skip: bool, s: nat, i: nat, es: Option<nat>) returns (next: (nat, Option<nat>))
    requires s + i <= |a| && i < MAX_PHRASE_S_LEN && (es.Some? ==> es.value <= s + i) && !hit(s, i)
    ensures next == Onward(a, skip, s, i, es)
    ensures FirstHit(a, hit, skip, s, i, es) == FirstHit(a, hit, skip, s, next.0, next.1)
  {
    next := Onward(a, skip, s, i, es);
  }

  // Steps over the bytes outside three-byte characters, and keeps where the first run began.
  method SkipRun(ts: seq<Byte>, from: nat, es0: Option<nat>) returns (e: nat, es: Option<nat>)
    requires from <= |ts|
    ensures e == RunEnd(ts, from)
    ensures es == if e == from || es0.Some? then es0 else Some(from)
  {
    e, es := from, es0;
    while e < |ts| && !Lead(ts, e)
      invariant from <= e <= |ts| && RunEnd(ts, e) == RunEnd(ts, from)
      invariant es == if e == from || es0.Some? then es0 else Some(from)
      decreases |ts| - e
    {
      if es.None? {
        es := Some(e);
      }
      e := e + 1;
    }
  }
}
