/** explode (event/daemon/common.c): cuts a C string into fields in place, by writing a NUL over
    each separator and keeping a pointer to the start of each field. Pointers are offsets into
    the string's memory. */
module Explode {
  import opened Bytes

  // ---------- what the fields are ----------

  // The first separator at or after p, or the end.
  function NextSep(s: seq<Byte>, split: Byte, p: nat): (q: nat)
    requires p <= |s|
    ensures p <= q <= |s|
    decreases |s| - p
  {
    if p == |s| || s[p] == split then p else NextSep(s, split, p + 1)
  }

  // The first other character at or after p, or the end.
  function NextRun(s: seq<Byte>, split: Byte, p: nat): (q: nat)
    requires p <= |s|
    ensures p <= q <= |s|
    decreases |s| - p
  {
    if p == |s| || s[p] != split then p else NextRun(s, split, p + 1)
  }

  lemma {:induction false} NextSepIs(s: seq<Byte>, split: Byte, p: nat)
    requires p <= |s|
    ensures var q := NextSep(s, split, p);
              (q < |s| ==> s[q] == split) && forall k :: p <= k < q ==> s[k] != split
    decreases |s| - p
  {
    if p < |s| && s[p] != split {
      NextSepIs(s, split, p + 1);
    }
  }

  lemma {:induction false} NextRunIs(s: seq<Byte>, split: Byte, p: nat)
    requires p <= |s|
    ensures var q := NextRun(s, split, p);
              (q < |s| ==> s[q] != split) && forall k :: p <= k < q ==> s[k] == split
    decreases |s| - p
  {
    if p < |s| && s[p] == split {
      NextRunIs(s, split, p + 1);
    }
  }

  // The maximal runs without separator from p on; the n-th takes all the rest. A count below 1
  // is no limit.
  function Runs(s: seq<Byte>, split: Byte, p: nat, n: int): seq<seq<Byte>>
    requires p <= |s|
    decreases |s| - p
  {
    var q := NextRun(s, split, p);
    if q == |s| then []
    else if n == 1 then [s[q..]]
    else [s[q..NextSep(s, split, q + 1)]] + Runs(s, split, NextSep(s, split, q + 1), n - 1)
  }

  // The text before the first separator, then the runs after it, limit fields at most.
  function Fields(s: seq<Byte>, split: Byte, limit: nat): seq<seq<Byte>> {
    if limit == 1 then [s]
    else
      var u := NextSep(s, split, 0);
      [s[..u]] + Runs(s, split, u, limit - 1)
  }

  lemma RunIsRun(s: seq<Byte>, split: Byte, q: nat)
    requires q < |s| && s[q] != split
    ensures split !in s[q..NextSep(s, split, q + 1)]
  {
    NextSepIs(s, split, q + 1);
  }

  /** Every run is there for its characters: none is empty or begins with a separator, and only
      the one that takes the rest may hold any. */
  lemma {:induction false} RunsAreRuns(s: seq<Byte>, split: Byte, p: nat, n: int)
    requires p <= |s|
    ensures n >= 1 ==> |Runs(s, split, p, n)| <= n
    ensures forall k :: 0 <= k < |Runs(s, split, p, n)| ==>
              var run := Runs(s, split, p, n)[k]; run != [] && run[0] != split && (k != n - 1 ==> split !in run)
    decreases |s| - p
  {
    var q := NextRun(s, split, p);
    NextRunIs(s, split, p);
    if q < |s| && n != 1 {
      RunIsRun(s, split, q);
      RunsAreRuns(s, split, NextSep(s, split, q + 1), n - 1);
    }
  }

  lemma {:induction false} RunsUpToLimit(s: seq<Byte>, split: Byte, p: nat, n: nat)
    requires p <= |s| && n >= 1
    ensures |Runs(s, split, p, n)| == if |Runs(s, split, p, -1)| < n then |Runs(s, split, p, -1)| else n
    decreases |s| - p
  {
    var q := NextRun(s, split, p);
    if q < |s| {
      var u := NextSep(s, split, q + 1);
      RunsUnlimited(s, split, u, -2);
      assert |Runs(s, split, p, -1)| == 1 + |Runs(s, split, u, -1)|;
      if n > 1 {
        RunsUpToLimit(s, split, u, n - 1);
      }
    }
  }

  // Any count below 1 is no limit.
  lemma {:induction false} RunsUnlimited(s: seq<Byte>, split: Byte, p: nat, n: int)
    requires p <= |s| && n < 0
    ensures Runs(s, split, p, n) == Runs(s, split, p, -1)
    decreases |s| - p
  {
    var q := NextRun(s, split, p);
    if q < |s| {
      var u := NextSep(s, split, q + 1);
      RunsUnlimited(s, split, u, n - 1);
      RunsUnlimited(s, split, u, -2);
    }
  }

  /** There are as many fields as there would be without a limit, or as many as the limit. */
  lemma FieldsUpToLimit(s: seq<Byte>, split: Byte, limit: nat)
    requires limit >= 1
    ensures var all := |Fields(s, split, 0)|; |Fields(s, split, limit)| == if all < limit then all else limit
  {
    if limit > 1 {
      RunsUpToLimit(s, split, NextSep(s, split, 0), limit - 1);
    }
  }

  /** A field after the first holds a separator only if it is the last that the limit allows. */
  lemma OnlyRestHoldsSeps(s: seq<Byte>, split: Byte, limit: nat, k: nat)
    requires 0 < k < |Fields(s, split, limit)| && split in Fields(s, split, limit)[k]
    ensures |Fields(s, split, limit)| == limit && k == limit - 1
  {
    RunsAreRuns(s, split, NextSep(s, split, 0), limit - 1);
  }

  predicate AllSeps(t: seq<Byte>, split: Byte) {
    forall k :: 0 <= k < |t| ==> t[k] == split
  }

  // t begins with k separators, one at least, and then f.
  predicate Behind(t: seq<Byte>, split: Byte, k: nat, f: seq<Byte>) {
    0 < k && k + |f| <= |t| && AllSeps(t[..k], split) && t[k..k + |f|] == f
  }

  // t is the fields fs, each behind separators, and more separators.
  ghost predicate Spells(t: seq<Byte>, split: Byte, fs: seq<seq<Byte>>)
    decreases |fs|
  {
    if fs == [] then AllSeps(t, split)
    else exists k: nat :: Behind(t, split, k, fs[0]) && Spells(t[k + |fs[0]|..], split, fs[1..])
  }

  lemma FirstSpelt(s: seq<Byte>, split: Byte, p: nat, q: nat, u: nat, rest: seq<seq<Byte>>)
    requires p < q <= u <= |s| && (forall k :: p <= k < q ==> s[k] == split)
    requires Spells(s[u..], split, rest)
    ensures Spells(s[p..], split, [s[q..u]] + rest)
  {
    var t, fs := s[p..], [s[q..u]] + rest;
    assert fs[0] == s[q..u] && fs[1..] == rest;
    assert t[q - p..q - p + |fs[0]|] == s[q..u] && t[q - p + |fs[0]|..] == s[u..];
    assert Behind(t, split, q - p, fs[0]);
  }

  lemma {:induction false} RunsSpell(s: seq<Byte>, split: Byte, p: nat, n: int)
    requires p <= |s| && (p < |s| ==> s[p] == split)
    ensures Spells(s[p..], split, Runs(s, split, p, n))
    decreases |s| - p
  {
    var q := NextRun(s, split, p);
    NextRunIs(s, split, p);
    if q == |s| {
    } else if n == 1 {
      FirstSpelt(s, split, p, q, |s|, []);
      assert s[q..|s|] == s[q..] && [s[q..]] + [] == [s[q..]];
    } else {
      var u := NextSep(s, split, q + 1);
      NextSepIs(s, split, q + 1);
      RunsSpell(s, split, u, n - 1);
      FirstSpelt(s, split, p, q, u, Runs(s, split, u, n - 1));
    }
  }

  /** The fields spell the text: its beginning without separators, then each run behind
      separators, so that with RunsAreRuns they can only be the maximal runs. */
  lemma FieldsSpell(s: seq<Byte>, split: Byte, limit: nat)
    ensures var fs := Fields(s, split, limit);
            && fs != [] && fs[0] <= s
            && (limit == 1 ==> fs == [s])
            && (limit != 1 ==> split !in fs[0] && Spells(s[|fs[0]|..], split, fs[1..]))
  {
    if limit != 1 {
      var u := NextSep(s, split, 0);
      NextSepIs(s, split, 0);
      RunsSpell(s, split, u, limit - 1);
      var rest := Runs(s, split, u, limit - 1);
      assert ([s[..u]] + rest)[1..] == rest;
    }
  }

  // ---------- what the code does with limit 1 ----------

  // The limit is looked at only after a character has been dealt with, so limit 1 is noticed
  // only if the first character starts no field.
  predicate OverrunsOne(s: seq<Byte>, split: Byte, limit: nat) {
    limit == 1 && IsStart(s, split, 1)
  }

  // The fields the code leaves behind.
  function Written(s: seq<Byte>, split: Byte, limit: nat): seq<seq<Byte>> {
    if limit != 1 || s == [] || s[0] != split then Fields(s, split, limit)
    else if OverrunsOne(s, split, limit) then Fields(s, split, 0)
    else [[]]
  }

  /** The code's fields are the right ones unless it is told to make one field of a text that
      begins with a separator. */
  lemma WrittenExactly(s: seq<Byte>, split: Byte, limit: nat)
    ensures Written(s, split, limit) == Fields(s, split, limit)
       <==> limit != 1 || s == [] || s[0] != split
  {
    if limit == 1 && s != [] && s[0] == split {
      assert Written(s, split, limit)[0] == [];
      assert Fields(s, split, limit)[0] == s;
    }
  }

  /** It writes more pointers than it was allowed exactly if that text goes on with a field. */
  lemma OverrunsExactly(s: seq<Byte>, split: Byte, limit: nat)
    requires limit >= 1
    ensures |Written(s, split, limit)| <= limit <==> !OverrunsOne(s, split, limit)
  {
    if limit > 1 {
      RunsAreRuns(s, split, NextSep(s, split, 0), limit - 1);
    } else if OverrunsOne(s, split, limit) {
      assert NextSep(s, split, 0) == 0 && NextRun(s, split, 0) == 1;
    }
  }

  // ",a" with limit 1
  lemma OverrunExample()
    ensures Written([44, 97], 44, 1) == [[], [97]]
  {
    var s: seq<Byte> := [44, 97];
    assert NextSep(s, 44, 0) == 0 && NextRun(s, 44, 0) == 1 && NextSep(s, 44, 2) == 2;
    assert NextRun(s, 44, 2) == 2;
    assert Runs(s, 44, 2, -2) == [];
    assert Runs(s, 44, 0, -1) == [s[1..2]] + Runs(s, 44, 2, -2);
    assert OverrunsOne(s, 44, 1) && s[1..2] == [97] && s[..0] == [];
    assert Fields(s, 44, 0) == [s[..0]] + Runs(s, 44, 0, -1);
  }

  // ---------- C strings ----------

  function CString(a: seq<Byte>, p: nat): (s: seq<Byte>)
    ensures p <= |a| ==> p + |s| <= |a|
    decreases |a| - p
  {
    if p >= |a| || a[p] == 0 then [] else [a[p]] + CString(a, p + 1)
  }

  lemma {:induction false} CStringSpan(a: seq<Byte>, p: nat, q: nat)
    requires p <= q < |a| && a[q] == 0
    requires forall k :: p <= k < q ==> a[k] != 0
    ensures CString(a, p) == a[p..q]
    decreases q - p
  {
    if p < q {
      CStringSpan(a, p + 1, q);
      assert a[p..q] == [a[p]] + a[p + 1..q];
    }
  }

  lemma {:induction false} CStringEnds(a: seq<Byte>, p: nat)
    requires p < |a| && 0 in a[p..]
    ensures var n := |CString(a, p)|;
              p + n < |a| && a[p + n] == 0 && CString(a, p) == a[p..p + n] && 0 !in a[p..p + n]
    decreases |a| - p
  {
    if a[p] != 0 {
      assert a[p..][1..] == a[p + 1..];
      CStringEnds(a, p + 1);
      var n := |CString(a, p + 1)|;
      assert a[p..p + 1 + n] == [a[p]] + a[p + 1..p + 1 + n];
    }
  }

  function Denoted(a: seq<Byte>, ps: seq<nat>): seq<seq<Byte>> {
    seq(|ps|, k requires 0 <= k < |ps| => CString(a, ps[k]))
  }

  // ---------- the pointers and the cuts ----------

  predicate IsStart(s: seq<Byte>, split: Byte, q: nat)
    requires q > 0
  {
    q < |s| && s[q - 1] == split && s[q] != split
  }

  // The pointers there are once the first p characters have been dealt with.
  function Starts(s: seq<Byte>, split: Byte, p: nat): (ps: seq<nat>)
    ensures |ps| >= 1
  {
    if p == 0 then [0] else Starts(s, split, p - 1) + if IsStart(s, split, p) then [p] else []
  }

  // Those that come after p, up to e.
  function Later(s: seq<Byte>, split: Byte, p: nat, e: nat): seq<nat>
    decreases e - p
  {
    if p >= e then [] else (if IsStart(s, split, p + 1) then [p + 1] else []) + Later(s, split, p + 1, e)
  }

  lemma {:induction false} StartsThenLater(s: seq<Byte>, split: Byte, p: nat, e: nat)
    requires p <= e
    ensures Starts(s, split, e) == Starts(s, split, p) + Later(s, split, p, e)
    decreases e - p
  {
    if p == e {
      assert Starts(s, split, p) + [] == Starts(s, split, p);
    } else {
      StartsThenLater(s, split, p + 1, e);
      var here := if IsStart(s, split, p + 1) then [p + 1] else [];
      Associates(Starts(s, split, p), here, Later(s, split, p + 1, e));
    }
  }

  lemma Associates(a: seq<nat>, b: seq<nat>, c: seq<nat>)
    ensures a + (b + c) == (a + b) + c
  {
  }

  // Where the code stops if from p on it may keep n more pointers.
  function Stop(s: seq<Byte>, split: Byte, n: int, p: nat): (e: nat)
    requires p <= |s|
    ensures p <= e <= |s|
    ensures p < |s| ==> p < e
    decreases |s| - p
  {
    if p == |s| then p
    else if !IsStart(s, split, p + 1) then Stop(s, split, n, p + 1)
    else if n == 1 then p + 1
    else Stop(s, split, n - 1, p + 1)
  }

  function StopAt(s: seq<Byte>, split: Byte, limit: nat): (e: nat)
    ensures e <= |s|
  {
    if limit != 1 then Stop(s, split, limit - 1, 0)
    else if OverrunsOne(s, split, limit) then Stop(s, split, -1, 0)
    else if s == [] then 0 else 1
  }

  // Memory a holds text s, with the separators before e overwritten.
  predicate Cut(a: seq<Byte>, s: seq<Byte>, split: Byte, e: nat) {
    && |s| < |a| && a[|s|] == 0
    && 0 !in s
    && forall q :: 0 <= q < |s| ==> a[q] == if q < e && s[q] == split then 0 else s[q]
  }

  lemma FieldUpTo(a: seq<Byte>, s: seq<Byte>, split: Byte, e: nat, p: nat, u: nat)
    requires Cut(a, s, split, e) && p <= u <= |s|
    requires u < |s| ==> s[u] == split && u < e
    requires forall k :: p <= k < u ==> s[k] != split
    ensures CString(a, p) == s[p..u]
  {
    CStringSpan(a, p, u);
    assert a[p..u] == s[p..u];
  }

  lemma LastField(a: seq<Byte>, s: seq<Byte>, split: Byte, e: nat)
    requires Cut(a, s, split, e) && e <= |s|
    ensures CString(a, e) == s[e..]
  {
    CStringSpan(a, e, |s|);
    assert a[e..|s|] == s[e..];
  }

  // Inside a run nothing starts.
  lemma {:induction false} NoStopInside(s: seq<Byte>, split: Byte, n: int, p: nat, u: nat)
    requires p <= u <= |s|
    requires forall k :: p <= k < u ==> s[k] != split
    ensures Stop(s, split, n, p) == Stop(s, split, n, u)
    decreases u - p
  {
    if p < u {
      NoStopInside(s, split, n, p + 1, u);
    }
  }

  lemma {:induction false} NoneInside(s: seq<Byte>, split: Byte, p: nat, u: nat, e: nat)
    requires p <= u <= |s| && u <= e
    requires forall k :: p <= k < u ==> s[k] != split
    ensures Later(s, split, p, e) == Later(s, split, u, e)
    decreases u - p
  {
    if p < u {
      NoneInside(s, split, p + 1, u, e);
    }
  }

  lemma RunStays(s: seq<Byte>, split: Byte, n: int, p: nat, u: nat, e: nat)
    requires p <= u <= |s| && e == Stop(s, split, n, p)
    requires forall k :: p <= k < u ==> s[k] != split
    ensures e == Stop(s, split, n, u) && Later(s, split, p, e) == Later(s, split, u, e)
    ensures u <= e && (u < |s| ==> u < e)
  {
    NoStopInside(s, split, n, p, u);
    NoneInside(s, split, p, u, e);
  }

  lemma DenotedMore(a: seq<Byte>, p: nat, ps: seq<nat>)
    ensures Denoted(a, [p] + ps) == [CString(a, p)] + Denoted(a, ps)
  {
    var all := [p] + ps;
    assert forall k :: 0 < k < |all| ==> all[k] == ps[k - 1];
  }

  // The run from q to u is denoted by its pointer, in front of the rest.
  lemma OneRunDenoted(a: seq<Byte>, s: seq<Byte>, split: Byte, q: nat, u: nat, e: nat, rest: seq<seq<Byte>>)
    requires q <= u <= |s| && Cut(a, s, split, e) && (u < |s| ==> s[u] == split && u < e)
    requires forall k :: q <= k < u ==> s[k] != split
    requires Denoted(a, Later(s, split, q, e)) == rest
    ensures Denoted(a, [q] + Later(s, split, q, e)) == [s[q..u]] + rest
  {
    DenotedMore(a, q, Later(s, split, q, e));
    FieldUpTo(a, s, split, e, q, u);
  }

  // The first run from p on, where a separator is, begins right after it or later.
  lemma RunsFrom(s: seq<Byte>, split: Byte, n: int, p: nat, q: nat)
    requires p < |s| && s[p] == split && q == p + 1
    ensures !IsStart(s, split, q) ==>
              (q < |s| ==> s[q] == split) && Runs(s, split, p, n) == Runs(s, split, q, n)
    ensures IsStart(s, split, q) ==>
              Runs(s, split, p, n) == if n == 1 then [s[q..]]
                                      else [s[q..NextSep(s, split, q + 1)]] + Runs(s, split, NextSep(s, split, q + 1), n - 1)
  {
    assert NextRun(s, split, p) == NextRun(s, split, q);
  }

  lemma LastRunDenoted(a: seq<Byte>, s: seq<Byte>, split: Byte, p: nat, q: nat)
    requires q == p + 1 && IsStart(s, split, q) && Cut(a, s, split, q)
    ensures Denoted(a, Later(s, split, p, q)) == [s[q..]]
  {
    LastField(a, s, split, q);
    DenotedMore(a, q, []);
    assert Later(s, split, p, q) == [q] + [];
  }

  lemma IntoRun(s: seq<Byte>, split: Byte, n: int, p: nat, q: nat) returns (e: nat)
    requires q == p + 1 && IsStart(s, split, q) && n != 1
    ensures e == Stop(s, split, n, p) && e == Stop(s, split, n - 1, q) && q <= e
    ensures Later(s, split, p, e) == [q] + Later(s, split, q, e)
  {
    e := Stop(s, split, n - 1, q);
  }

  // One run is stepped over, from q to u, and where the code stops does not change.
  lemma RunSteppedOver(s: seq<Byte>, split: Byte, n: int, p: nat, q: nat) returns (u: nat, e: nat)
    requires q == p + 1 && IsStart(s, split, q) && n != 1
    ensures q <= u <= |s| && (u < |s| ==> s[u] == split) && forall k :: q <= k < u ==> s[k] != split
    ensures Runs(s, split, p, n) == [s[q..u]] + Runs(s, split, u, n - 1)
    ensures e == Stop(s, split, n, p) && e == Stop(s, split, n - 1, u) && u <= e && (u < |s| ==> u < e)
    ensures Later(s, split, p, e) == [q] + Later(s, split, q, e)
    ensures Later(s, split, q, e) == Later(s, split, u, e)
  {
    u := NextSep(s, split, q + 1);
    NextSepIs(s, split, q + 1);
    RunsFrom(s, split, n, p, q);
    e := IntoRun(s, split, n, p, q);
    RunStays(s, split, n - 1, q, u, e);
  }

  lemma {:induction false} RunsDenoted(a: seq<Byte>, s: seq<Byte>, split: Byte, n: int, p: nat, e: nat)
    requires p <= |s| && (p < |s| ==> s[p] == split)
    requires e == Stop(s, split, n, p) && Cut(a, s, split, e)
    ensures Denoted(a, Later(s, split, p, e)) == Runs(s, split, p, n)
    decreases |s| - p
  {
    var q := p + 1;
    if p == |s| {
    } else if !IsStart(s, split, q) {
      RunsFrom(s, split, n, p, q);
      RunsDenoted(a, s, split, n, q, e);
    } else if n == 1 {
      RunsFrom(s, split, n, p, q);
      LastRunDenoted(a, s, split, p, q);
    } else {
      var u, _ := RunSteppedOver(s, split, n, p, q);
      RunsDenoted(a, s, split, n - 1, u, e);
      OneRunDenoted(a, s, split, q, u, e, Runs(s, split, u, n - 1));
    }
  }

  /** The pointers kept where the code stops denote the fields. */
  lemma StartsDenote(a: seq<Byte>, s: seq<Byte>, split: Byte, limit: nat)
    requires Cut(a, s, split, StopAt(s, split, limit))
    ensures Denoted(a, Starts(s, split, StopAt(s, split, limit))) == Written(s, split, limit)
  {
    var e := StopAt(s, split, limit);
    if limit != 1 || OverrunsOne(s, split, limit) {
      var n := if limit == 1 then -1 else limit - 1;
      var u := NextSep(s, split, 0);
      NextSepIs(s, split, 0);
      RunStays(s, split, n, 0, u, e);
      RunsDenoted(a, s, split, n, u, e);
      FieldUpTo(a, s, split, e, 0, u);
      StartsThenLater(s, split, 0, e);
      DenotedMore(a, 0, Later(s, split, 0, e));
    } else if s == [] || s[0] != split {
      CStringSpan(a, 0, |s|);
      assert a[0..|s|] == s;
    } else {
      CStringSpan(a, 0, 0);
    }
  }

  // ---------- the code ----------

  // How many pointers are kept, as the loop counts them.
  lemma {:induction false} StopsLater(s: seq<Byte>, split: Byte, limit: nat, p: nat)
    requires p <= |s| && p <= StopAt(s, split, limit)
    ensures |Starts(s, split, p)| <= |Starts(s, split, StopAt(s, split, limit))|
  {
    StartsThenLater(s, split, p, StopAt(s, split, limit));
  }

  // Where the loop has got to: it still has to go on, or it has just reached its end.
  predicate Going(s: seq<Byte>, split: Byte, limit: nat, p: nat) {
    && p <= |s|
    && (limit != 1 ==> StopAt(s, split, limit) == Stop(s, split, limit - |Starts(s, split, p)|, p))
    && (limit == 1 && p > 0 ==> StopAt(s, split, limit) == |s|)
    && (limit != 1 || p > 0 ==> |Starts(s, split, p)| != limit)
  }

  lemma GoingOn(s: seq<Byte>, split: Byte, limit: nat, p: nat)
    requires Going(s, split, limit, p) && p < |s|
    ensures StopAt(s, split, limit) >= p + 1
    ensures |Starts(s, split, p + 1)| == limit ==> StopAt(s, split, limit) == p + 1
    ensures |Starts(s, split, p + 1)| != limit ==> Going(s, split, limit, p + 1)
  {
    if limit == 1 && p == 0 && OverrunsOne(s, split, limit) {
      UnlimitedStop(s, split, -1, 0);
    }
  }

  lemma {:induction false} UnlimitedStop(s: seq<Byte>, split: Byte, n: int, p: nat)
    requires p <= |s| && n < 1
    ensures Stop(s, split, n, p) == |s|
    decreases |s| - p
  {
    if p < |s| {
      UnlimitedStop(s, split, if IsStart(s, split, p + 1) then n - 1 else n, p + 1);
    }
  }

  /** Any memory with a NUL in it holds a C string. */
  lemma MemoryHoldsText(a: seq<Byte>, split: Byte)
    requires 0 in a
    ensures Cut(a, CString(a, 0), split, 0)
  {
    CStringEnds(a, 0);
  }

  predicate StartsField(a: seq<Byte>, split: Byte, p: nat)
    requires p + 1 < |a|
  {
    a[p] == split && a[p + 1] != 0 && a[p + 1] != split
  }

  lemma CutStep(a: seq<Byte>, s: seq<Byte>, split: Byte, p: nat)
    requires Cut(a, s, split, p) && p < |s|
    ensures a[p] == s[p]
    ensures IsStart(s, split, p + 1) <==> StartsField(a, split, p)
    ensures Starts(s, split, p + 1) == Starts(s, split, p) + if IsStart(s, split, p + 1) then [p + 1] else []
    ensures Cut(if s[p] == split then a[p := 0] else a, s, split, p + 1)
  {
  }

  // There are as many pointers as fields, whatever the memory.
  lemma Room(s: seq<Byte>, split: Byte, limit: nat)
    requires 0 !in s
    ensures |Starts(s, split, StopAt(s, split, limit))| == |Written(s, split, limit)|
  {
    var e := StopAt(s, split, limit);
    var a: seq<Byte> := seq(|s| + 1, q requires 0 <= q <= |s| =>
      if q == |s| then 0 else if q < e && s[q] == split then 0 else s[q]);
    StartsDenote(a, s, split, limit);
  }

  // The memory a and the pointers t before the loop deals with the character at p, and b and u
  // after.
  predicate Marked(a: seq<Byte>, t: seq<nat>, i: nat, b: seq<Byte>, u: seq<nat>, j: nat, split: Byte, p: nat)
    requires p + 1 < |a|
  {
    && b == (if a[p] == split then a[p := 0] else a)
    && j == (if StartsField(a, split, p) then i + 1 else i)
    && j < |t|
    && u == (if StartsField(a, split, p) then t[j := p + 1] else t)
  }

  // The first p characters have been dealt with; a0 and t0 were there before the call.
  predicate At(a: seq<Byte>, t: seq<nat>, i: nat, s: seq<Byte>, split: Byte, p: nat, a0: seq<Byte>, t0: seq<nat>) {
    && Cut(a, s, split, p)
    && i < |t| == |t0|
    && t[..i + 1] == Starts(s, split, p)
    && t[i + 1..] == t0[i + 1..]
    && |a| == |a0| && a[|s|..] == a0[|s|..]
  }

  lemma MarkStep(a: seq<Byte>, t: seq<nat>, i: nat, b: seq<Byte>, u: seq<nat>, j: nat,
                 s: seq<Byte>, split: Byte, p: nat, a0: seq<Byte>, t0: seq<nat>)
    requires At(a, t, i, s, split, p, a0, t0) && p < |s|
    requires Marked(a, t, i, b, u, j, split, p)
    ensures At(b, u, j, s, split, p + 1, a0, t0)
  {
    CutStep(a, s, split, p);
    assert b[|s|..] == a[|s|..];
    if StartsField(a, split, p) {
      assert u[..j + 1] == t[..i + 1] + [p + 1];
      assert u[j + 1..] == t[i + 1..][1..];
      assert t0[j + 1..] == t0[i + 1..][1..];
    }
  }

  lemma PointerFits(a: seq<Byte>, t: seq<nat>, i: nat, s: seq<Byte>, split: Byte, limit: nat, p: nat, a0: seq<Byte>, t0: seq<nat>)
    requires At(a, t, i, s, split, p, a0, t0) && p < |s| && p + 1 <= StopAt(s, split, limit)
    requires |Written(s, split, limit)| <= |t|
    ensures StartsField(a, split, p) ==> i + 1 < |t|
  {
    CutStep(a, s, split, p);
    StopsLater(s, split, limit, p + 1);
    Room(s, split, limit);
  }

  // What is there in the end: the pointers up to i denote the fields, and neither later pointers
  // nor memory after the string has changed.
  predicate Exploded(a: seq<Byte>, t: seq<nat>, i: nat, s: seq<Byte>, split: Byte, limit: nat, a0: seq<Byte>, t0: seq<nat>) {
    && i < |t| == |t0|
    && Denoted(a, t[..i + 1]) == Written(s, split, limit)
    && t[i + 1..] == t0[i + 1..]
    && |s| < |a| == |a0| && a[|s|..] == a0[|s|..]
  }

  lemma AtFirst(a0: seq<Byte>, t0: seq<nat>, s: seq<Byte>, split: Byte)
    requires Cut(a0, s, split, 0) && t0 != []
    ensures At(a0, t0[0 := 0], 0, s, split, 0, a0, t0)
  {
    assert t0[0 := 0][..1] == [0];
  }

  lemma AtLast(a: seq<Byte>, t: seq<nat>, i: nat, s: seq<Byte>, split: Byte, limit: nat, p: nat, a0: seq<Byte>, t0: seq<nat>)
    requires At(a, t, i, s, split, p, a0, t0) && p == StopAt(s, split, limit)
    ensures Exploded(a, t, i, s, split, limit, a0, t0)
  {
    StartsDenote(a, s, split, limit);
  }

  // The fields are the promised ones, and no more than allowed, exactly under these conditions.
  predicate KeptExactly(fields: seq<seq<Byte>>, s: seq<Byte>, split: Byte, limit: nat) {
    && (fields == Fields(s, split, limit) <==> limit != 1 || s == [] || s[0] != split)
    && (limit >= 1 ==> (|fields| <= limit <==> !OverrunsOne(s, split, limit)))
  }

  lemma ExplodedMeans(a: seq<Byte>, t: seq<nat>, i: nat, s: seq<Byte>, split: Byte, limit: nat, a0: seq<Byte>, t0: seq<nat>)
    requires Exploded(a, t, i, s, split, limit, a0, t0)
    ensures KeptExactly(Denoted(a, t[..i + 1]), s, split, limit)
  {
    WrittenExactly(s, split, limit);
    if limit >= 1 {
      OverrunsExactly(s, split, limit);
    }
  }

  method Mark(split: Byte, input: array<Byte>, tP: array<nat>, p: nat, i: nat) returns (j: nat)
    requires p + 1 < input.Length && i < tP.Length
    requires StartsField(input[..], split, p) ==> i + 1 < tP.Length
    modifies input, tP
    ensures Marked(old(input[..]), old(tP[..]), i, input[..], tP[..], j, split, p)
  {
    j := i;
    if input[p] == split {
      j := j + 1;
      input[p] := 0;
      if input[p + 1] != 0 && input[p + 1] != split {
        tP[j] := p + 1;
      } else {
        j := j - 1;
      }
    }
  }

  lemma StopsAtEnd(a: seq<Byte>, s: seq<Byte>, split: Byte, limit: nat, k: nat)
    requires Going(s, split, limit, k) && Cut(a, s, split, k)
    ensures a[k] == 0 <==> k == |s|
    ensures k == |s| ==> k == StopAt(s, split, limit)
  {
    if k < |s| {
      CutStep(a, s, split, k);
    }
  }

  // One turn of explode's loop, the character at k being none of the end.
  method Turn(split: Byte, input: array<Byte>, tP: array<nat>, limit: nat, k: nat, i: nat,
              ghost s: seq<Byte>, ghost a0: seq<Byte>, ghost t0: seq<nat>)
    returns (j: nat)
    requires Going(s, split, limit, k) && At(input[..], tP[..], i, s, split, k, a0, t0) && k < |s|
    requires |Written(s, split, limit)| <= tP.Length
    modifies input, tP
    ensures At(input[..], tP[..], j, s, split, k + 1, a0, t0)
    ensures if j + 1 == limit then k + 1 == StopAt(s, split, limit) else Going(s, split, limit, k + 1)
  {
    ghost var a, t := input[..], tP[..];
    GoingOn(s, split, limit, k);
    PointerFits(a, t, i, s, split, limit, k, a0, t0);
    j := Mark(split, input, tP, k, i);
    MarkStep(a, t, i, input[..], tP[..], j, s, split, k, a0, t0);
  }

  // explode's loop.
  method Scan(split: Byte, input: array<Byte>, tP: array<nat>, limit: nat,
              ghost s: seq<Byte>, ghost a0: seq<Byte>, ghost t0: seq<nat>)
    returns (i: nat, ghost p: nat)
    requires At(input[..], tP[..], 0, s, split, 0, a0, t0)
    requires |Written(s, split, limit)| <= tP.Length
    modifies input, tP
    ensures p == StopAt(s, split, limit) && At(input[..], tP[..], i, s, split, p, a0, t0)
  {
    i := 0;
    var k := 0;
    StopsAtEnd(input[..], s, split, limit, k);
    while input[k] != 0
      invariant Going(s, split, limit, k)
      invariant At(input[..], tP[..], i, s, split, k, a0, t0)
      invariant input[k] == 0 <==> k == |s|
      decreases |s| - k
    {
      i := Turn(split, input, tP, limit, k, i, s, a0, t0);
      k := k + 1;
      if i + 1 == limit {
        return i, k;
      }
      StopsAtEnd(input[..], s, split, limit, k);
    }
    StopsAtEnd(input[..], s, split, limit, k);
    p := k;
  }

  /** The pointers to the fields of the string s are kept in tP[0] to tP[i]. They denote the
      promised fields, and are no more than allowed, exactly as text and limit have it. */
  method Explode(split: Byte, input: array<Byte>, tP: array<nat>, limit: nat) returns (i: nat, ghost s: seq<Byte>)
    requires 0 in input[..]
    requires |Written(CString(input[..], 0), split, limit)| <= tP.Length
    modifies input, tP
    ensures s == old(CString(input[..], 0))
    ensures Exploded(input[..], tP[..], i, s, split, limit, old(input[..]), old(tP[..]))
    ensures KeptExactly(Denoted(input[..], tP[..i + 1]), s, split, limit)
  {
    ghost var a0, t0 := input[..], tP[..];
    s := CString(a0, 0);
    MemoryHoldsText(a0, split);
    Room(s, split, limit);
    tP[0] := 0;
    AtFirst(a0, t0, s, split);
    assert tP[..] == t0[0 := 0];
    ghost var p;
    i, p := Scan(split, input, tP, limit, s, a0, t0);
    AtLast(input[..], tP[..], i, s, split, limit, p, a0, t0);
    ExplodedMeans(input[..], tP[..], i, s, split, limit, a0, t0);
  }
}
