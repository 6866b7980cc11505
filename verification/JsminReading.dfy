/** What a reading of a text is, said without the lexer: gaps made of blanks and comments,
    lexemes each in its own form, and nothing of the text lost.  Lex finds the one reading
    a text has, and fails exactly when it has none. */
module JsminReading {
  import opened Wrappers
  import opened JsminLexer

  // ---------- gaps ----------

  predicate LineComment(u: string) {
    && |u| >= 3 && u[0] == u[1] == '/' && u[|u| - 1] == '\n'
    && forall i :: 2 <= i < |u| - 1 ==> u[i] != '\n'
  }

  predicate BlockComment(u: string) {
    && |u| >= 4 && u[0] == '/' && u[1] == '*' && u[|u| - 2] == '*' && u[|u| - 1] == '/'
    && forall i :: 2 <= i < |u| - 2 ==> u[i] != '*' || u[i + 1] != '/'
  }

  // A line comment counts as a newline, a block comment as a space.
  predicate GapUnit(u: string, newline: bool) {
    if newline then u == "\n" || LineComment(u) else u == " " || BlockComment(u)
  }

  ghost predicate IsGap(g: string, newline: bool)
    decreases |g|
  {
    || (g == "" && !newline)
    || exists k, before, here ::
         0 <= k < |g| && IsGap(g[..k], before) && GapUnit(g[k..], here) && newline == (before || here)
  }

  // After the last lexeme a line comment may also run to the end of the text.
  predicate OpenLineComment(u: string) {
    |u| >= 2 && u[0] == u[1] == '/' && forall i :: 2 <= i < |u| ==> u[i] != '\n'
  }

  ghost predicate IsTail(t: string) {
    exists k, newline ::
      0 <= k <= |t| && IsGap(t[..k], newline) && (k == |t| || OpenLineComment(t[k..]))
  }

  lemma ExtendGap(g: string, newline: bool, u: string, here: bool)
    requires IsGap(g, newline) && u != "" && GapUnit(u, here)
    ensures IsGap(g + u, newline || here)
  {
    assert (g + u)[..|g|] == g && (g + u)[|g|..] == u;
  }

  // ---------- the comment scanners ----------

  lemma DropLineSplits(t: string) returns (k: nat)
    ensures k <= |t| && DropLine(t) == t[k..] && forall i :: 0 <= i < k ==> t[i] != '\n'
    decreases |t|
  {
    if t == "" || t[0] == '\n' {
      k := 0;
    } else {
      k := DropLineSplits(t[1..]);
      k := k + 1;
      assert forall i :: 0 < i < k ==> t[i] == t[1..][i - 1];
    }
  }

  lemma {:induction false} DropLineStops(u: string, rest: string)
    requires forall i :: 0 <= i < |u| ==> u[i] != '\n'
    requires rest == "" || rest[0] == '\n'
    ensures DropLine(u + rest) == rest
    decreases |u|
  {
    if u == "" {
      assert u + rest == rest;
    } else {
      assert (u + rest)[1..] == u[1..] + rest;
      DropLineStops(u[1..], rest);
    }
  }

  lemma CloseCommentSplits(t: string) returns (k: nat)
    requires CloseComment(t).Some?
    ensures 2 <= k <= |t| && CloseComment(t).value == t[k..] && t[k - 2] == '*' && t[k - 1] == '/'
    ensures forall i :: 0 <= i < k - 2 ==> t[i] != '*' || t[i + 1] != '/'
    decreases |t|
  {
    if t[0] == '*' && t[1] == '/' {
      k := 2;
    } else {
      var t1 := t[1..];
      k := CloseCommentSplits(t1);
      k := k + 1;
      assert forall i :: 0 < i < k - 2 ==> t[i] == t1[i - 1] && t[i + 1] == t1[i];
    }
  }

  lemma {:induction false} CloseCommentStops(u: string, rest: string)
    requires |u| >= 2 && u[|u| - 2] == '*' && u[|u| - 1] == '/'
    requires forall i :: 0 <= i < |u| - 2 ==> u[i] != '*' || u[i + 1] != '/'
    ensures CloseComment(u + rest) == Some(rest)
    decreases |u|
  {
    if |u| == 2 {
      assert (u + rest)[2..] == rest;
    } else {
      assert (u + rest)[1..] == u[1..] + rest;
      CloseCommentStops(u[1..], rest);
    }
  }

  lemma LineCommentTaken(t: string)
    requires OpensComment(t) && t[1] == '/'
    ensures var f := NextSym(t); var raw := t[..|t| - |f.rest|];
            if f.sym.Eof? then OpenLineComment(t) else f.sym == Ch('\n') && LineComment(raw) && t == raw + f.rest
  {
    var t2 := t[2..];
    var k := DropLineSplits(t2);
    assert t2[k..] == t[k + 2..];
    assert forall i :: 2 <= i < k + 2 ==> t[i] == t2[i - 2];
    if k < |t2| {
      assert t2[k..][1..] == t[k + 3..];
    }
  }

  lemma BlockCommentTaken(t: string)
    requires OpensComment(t) && t[1] == '*' && NextSym(t).Fetched?
    ensures var f := NextSym(t); var raw := t[..|t| - |f.rest|];
            f.sym == Ch(' ') && BlockComment(raw) && t == raw + f.rest
  {
    var t2 := t[2..];
    var k := CloseCommentSplits(t2);
    assert t2[k..] == t[k + 2..];
    assert forall i :: 2 <= i < k + 2 ==> t[i] == t2[i - 2];
  }

  // What next() takes off the front of a text.
  lemma NextTakesUnit(t: string)
    requires NextSym(t).Fetched?
    ensures var f := NextSym(t); var raw := t[..|t| - |f.rest|];
            && t == raw + f.rest
            && (f.sym.Eof? ==> t == "" || OpenLineComment(t))
            && (f.sym == Ch(' ') ==> GapUnit(raw, false))
            && (f.sym == Ch('\n') ==> GapUnit(raw, true))
            && (f.sym.Ch? && f.sym.c != ' ' && f.sym.c != '\n' ==> raw == [f.sym.c] && !OpensComment(t))
  {
    if OpensComment(t) {
      if t[1] == '/' {
        LineCommentTaken(t);
      } else {
        BlockCommentTaken(t);
      }
    }
  }

  lemma UnitIsNext(u: string, newline: bool, rest: string)
    requires GapUnit(u, newline)
    ensures NextSym(u + rest) == Fetched(Ch(if newline then '\n' else ' '), rest)
  {
    var t := u + rest;
    if u == "\n" || u == " " {
      assert t[1..] == rest;
    } else if newline {
      var body := u[2..|u| - 1];
      assert t[2..] == body + ("\n" + rest);
      DropLineStops(body, "\n" + rest);
      assert ("\n" + rest)[1..] == rest;
    } else {
      assert t[2..] == u[2..] + rest;
      CloseCommentStops(u[2..], rest);
    }
  }

  // ---------- readings ----------

  function Source(items: seq<Item>, tail: string): string
    decreases |items|
  {
    if items == [] then tail
    else items[0].gap + items[0].lexeme.Text() + Source(items[1..], tail)
  }

  predicate WellFormed(x: Lexeme) {
    match x
    case Plain(c) => c != ' ' && c != '\n' && !IsQuote(c)
    case Str(text) => |text| >= 2 && IsQuote(text[0]) && LiteralEnd(text[0], text[1..]) == Some(|text| - 1)
    case Regex(text) =>
      |text| >= 3 && text[0] == '/' && text[1] !in {'/', '*'} && LiteralEnd('/', text[1..]) == Some(|text| - 1)
  }

  ghost predicate Sound(left: char, it: Item) {
    && IsGap(it.gap, it.newline)
    && WellFormed(it.lexeme)
    && (FirstChar(it.lexeme) == '/' ==> it.lexeme.Regex? == StartsRegex(left, it.newline))
  }

  predicate OpensAfterSlash(t: string) {
    t != "" && t[0] in {'/', '*'}
  }

  ghost predicate Reads(left: char, items: seq<Item>, tail: string)
    decreases |items|
  {
    if items == [] then IsTail(tail)
    else
      && Sound(left, items[0])
      && (items[0].lexeme == Plain('/') ==> !OpensAfterSlash(Source(items[1..], tail)))
      && Reads(LastChar(left, items[0].lexeme), items[1..], tail)
  }

  // ---------- the lexer finds a reading ----------

  lemma LiteralPrefix(q: char, t: string)
    requires LiteralEnd(q, t).Some?
    ensures LiteralEnd(q, t[..LiteralEnd(q, t).value]) == LiteralEnd(q, t)
    decreases |t|
  {
    var k := LiteralEnd(q, t).value;
    if t[0] != q {
      var step := if t[0] == '\\' then 2 else 1;
      LiteralPrefix(q, t[step..]);
      assert t[..k][step..] == t[step..][..k - step];
    }
  }

  lemma {:induction false} LiteralStops(q: char, u: string, rest: string)
    requires LiteralEnd(q, u) == Some(|u|)
    ensures LiteralEnd(q, u + rest) == Some(|u|)
    decreases |u|
  {
    if u[0] != q {
      var step := if u[0] == '\\' then 2 else 1;
      assert (u + rest)[step..] == u[step..] + rest;
      LiteralStops(q, u[step..], rest);
    }
  }

  lemma ReadsOne(left: char, it: Item, gap: string, text: string, rest: string, more: Lexed, last: char)
    requires Sound(left, it) && it.gap == gap && it.lexeme.Text() == text && LastChar(left, it.lexeme) == last
    requires FindsReading(last, "", rest, more)
    requires it.lexeme == Plain('/') ==> !OpensAfterSlash(rest)
    ensures FindsReading(left, gap, text + rest, Cons(it, more))
  {
    if more.Lexed? {
      var all := [it] + more.items;
      assert all[0] == it && all[1..] == more.items;
      assert "" + rest == rest;
      assert gap + (text + rest) == gap + text + rest;
    }
  }

  lemma LiteralRead(q: char, rest: string, k: nat)
    requires LiteralEnd(q, rest) == Some(k)
    ensures var text := [q] + rest[..k];
            && text[1..] == rest[..k] && LiteralEnd(q, text[1..]) == Some(|text| - 1) && text[|text| - 1] == q
            && [q] + rest == text + rest[k..]
  {
    LiteralPrefix(q, rest);
    assert ([q] + rest[..k])[1..] == rest[..k];
    assert rest == rest[..k] + rest[k..];
  }

  lemma ConcatAssociates(a: string, b: string, c: string)
    ensures a + b + c == a + (b + c)
  {
  }

  ghost predicate FindsReading(left: char, gap: string, t: string, r: Lexed) {
    r.Lexed? ==> Source(r.items, r.tail) == gap + t && Reads(left, r.items, r.tail)
  }

  lemma {:induction false} LexFindsReading(left: char, gap: string, newline: bool, t: string)
    requires IsGap(gap, newline)
    ensures FindsReading(left, gap, t, Lex(left, gap, newline, t))
    decreases |t|, 1
  {
    var f := NextSym(t);
    if f.Fetched? {
      NextTakesUnit(t);
      var raw := t[..|t| - |f.rest|];
      if f.sym.Eof? {
        EndIsReading(left, gap, newline, t);
      } else if f.sym.c == ' ' || f.sym.c == '\n' {
        ExtendGap(gap, newline, raw, f.sym.c == '\n');
        LexFindsReading(left, gap + raw, newline || f.sym.c == '\n', f.rest);
        ConcatAssociates(gap, raw, f.rest);
      } else {
        assert f.rest != "" ==> t[1] == f.rest[0];
        LexFindsLexeme(left, gap, newline, f.sym.c, f.rest);
      }
    }
  }

  lemma EndIsReading(left: char, gap: string, newline: bool, t: string)
    requires IsGap(gap, newline) && (t == "" || OpenLineComment(t))
    ensures Reads(left, [], gap + t)
  {
    assert (gap + t)[..|gap|] == gap && (gap + t)[|gap|..] == t;
  }

  lemma {:induction false} LexFindsLexeme(left: char, gap: string, newline: bool, c: char, rest: string)
    requires IsGap(gap, newline)
    requires c != ' ' && c != '\n' && (c == '/' ==> !OpensAfterSlash(rest))
    ensures FindsReading(left, gap, [c] + rest, LexSym(left, gap, newline, [c], Ch(c), rest))
    decreases |rest| + 1, 0
  {
    assert IsGap("", false);
    if IsQuote(c) || (c == '/' && StartsRegex(left, newline)) {
      if LiteralEnd(c, rest).Some? {
        var k := LiteralEnd(c, rest).value;
        LexFindsReading(c, "", false, rest[k..]);
        LiteralIsSound(left, gap, newline, c, rest, k);
        LiteralRead(c, rest, k);
        ReadsOne(left, LiteralItem(gap, newline, c, rest[..k]), gap, [c] + rest[..k],
                 rest[k..], Lex(c, "", false, rest[k..]), c);
      }
    } else {
      LexFindsReading(c, "", false, rest);
      ReadsOne(left, Item(gap, newline, Plain(c)), gap, [c], rest, Lex(c, "", false, rest), c);
    }
  }

  function LiteralItem(gap: string, newline: bool, c: char, body: string): Item {
    Item(gap, newline, if IsQuote(c) then Str([c] + body) else Regex("/" + body))
  }

  lemma LiteralIsWellFormed(c: char, rest: string, k: nat)
    requires IsQuote(c) || (c == '/' && !OpensAfterSlash(rest))
    requires LiteralEnd(c, rest) == Some(k)
    ensures var x := LiteralItem("", false, c, rest[..k]).lexeme;
            WellFormed(x) && !x.Plain? && x.Text() == [c] + rest[..k] && x.Text()[k] == c
  {
    LiteralRead(c, rest, k);
    assert ([c] + rest[..k])[1] == rest[0];
  }

  lemma LiteralIsSound(left: char, gap: string, newline: bool, c: char, rest: string, k: nat)
    requires IsGap(gap, newline)
    requires IsQuote(c) || (c == '/' && StartsRegex(left, newline) && !OpensAfterSlash(rest))
    requires LiteralEnd(c, rest) == Some(k)
    ensures var it := LiteralItem(gap, newline, c, rest[..k]);
            && Sound(left, it) && it.lexeme.Text() == [c] + rest[..k] && LastChar(left, it.lexeme) == c
            && it.lexeme != Plain('/')
  {
    LiteralIsWellFormed(c, rest, k);
    var it := LiteralItem(gap, newline, c, rest[..k]);
    assert it.lexeme == LiteralItem("", false, c, rest[..k]).lexeme;
    assert FirstChar(it.lexeme) == c;
  }

  // ---------- the lexer finds every reading ----------

  lemma LexOneUnit(left: char, gap: string, newline: bool, u: string, here: bool, rest: string)
    requires u != "" && GapUnit(u, here)
    ensures Lex(left, gap, newline, u + rest) == Lex(left, gap + u, newline || here, rest)
  {
    UnitIsNext(u, here, rest);
    assert (u + rest)[..|u|] == u;
  }

  lemma {:induction false} LexThroughGap(left: char, gap: string, newline: bool, g: string, more: bool, rest: string)
    requires IsGap(g, more)
    ensures Lex(left, gap, newline, g + rest) == Lex(left, gap + g, newline || more, rest)
    decreases |g|
  {
    if g == "" && !more {
      assert g + rest == rest && gap + g == gap;
    } else {
      var k, before, here :| 0 <= k < |g| && IsGap(g[..k], before) && GapUnit(g[k..], here) && more == (before || here);
      var u := g[k..];
      assert g == g[..k] + u;
      LexThroughGap(left, gap, newline, g[..k], before, u + rest);
      ConcatAssociates(g[..k], u, rest);
      LexOneUnit(left, gap + g[..k], newline || before, u, here, rest);
      ConcatAssociates(gap, g[..k], u);
    }
  }

  lemma LexStartsLexeme(left: char, gap: string, newline: bool, c: char, after: string)
    requires c == '/' ==> !OpensAfterSlash(after)
    ensures Lex(left, gap, newline, [c] + after) == LexSym(left, gap, newline, [c], Ch(c), after)
  {
    var t := [c] + after;
    assert t[1..] == after && t[..1] == [c];
    assert !OpensComment(t);
  }

  lemma LexSymLiteral(left: char, gap: string, newline: bool, c: char, after: string, k: nat)
    requires IsQuote(c) || (c == '/' && StartsRegex(left, newline))
    requires LiteralEnd(c, after) == Some(k)
    ensures LexSym(left, gap, newline, [c], Ch(c), after)
         == Cons(LiteralItem(gap, newline, c, after[..k]), Lex(c, "", false, after[k..]))
  {
  }

  lemma LexLiteral(left: char, gap: string, newline: bool, c: char, body: string, rest: string)
    requires IsQuote(c) || (c == '/' && StartsRegex(left, newline) && !OpensAfterSlash(body + rest))
    requires LiteralEnd(c, body) == Some(|body|)
    ensures Lex(left, gap, newline, [c] + body + rest)
         == Cons(LiteralItem(gap, newline, c, body), Lex(c, "", false, rest))
  {
    var after := body + rest;
    ConcatAssociates([c], body, rest);
    LexStartsLexeme(left, gap, newline, c, after);
    LiteralStops(c, body, rest);
    LexSymLiteral(left, gap, newline, c, after, |body|);
    assert after[..|body|] == body && after[|body|..] == rest;
  }

  lemma LexOneLexeme(left: char, it: Item, rest: string)
    requires Sound(left, it) && (it.lexeme == Plain('/') ==> !OpensAfterSlash(rest))
    ensures Lex(left, it.gap, it.newline, it.lexeme.Text() + rest)
         == Cons(it, Lex(LastChar(left, it.lexeme), "", false, rest))
  {
    var text := it.lexeme.Text();
    if it.lexeme.Plain? {
      LexStartsLexeme(left, it.gap, it.newline, it.lexeme.c, rest);
    } else {
      assert text == [text[0]] + text[1..];
      assert text[1..][0] == text[1];
      LexLiteral(left, it.gap, it.newline, text[0], text[1..], rest);
    }
  }

  lemma {:induction false} LexOpenLine(left: char, gap: string, newline: bool, u: string)
    requires u == "" || OpenLineComment(u)
    ensures Lex(left, gap, newline, u) == Lexed([], gap + u)
  {
    if u != "" {
      DropLineStops(u[2..], "");
      assert u[2..] + "" == u[2..];
    }
    assert u[..|u|] == u;
  }

  lemma LexTail(left: char, tail: string)
    requires IsTail(tail)
    ensures Lex(left, "", false, tail) == Lexed([], tail)
  {
    var k, newline :| 0 <= k <= |tail| && IsGap(tail[..k], newline) && (k == |tail| || OpenLineComment(tail[k..]));
    assert tail == tail[..k] + tail[k..];
    LexThroughGap(left, "", false, tail[..k], newline, tail[k..]);
    assert "" + tail[..k] == tail[..k];
    LexOpenLine(left, tail[..k], newline, tail[k..]);
  }

  lemma LexOneItem(left: char, it: Item, rest: string)
    requires Sound(left, it) && (it.lexeme == Plain('/') ==> !OpensAfterSlash(rest))
    ensures Lex(left, "", false, it.gap + it.lexeme.Text() + rest)
         == Cons(it, Lex(LastChar(left, it.lexeme), "", false, rest))
  {
    ConcatAssociates(it.gap, it.lexeme.Text(), rest);
    LexThroughGap(left, "", false, it.gap, it.newline, it.lexeme.Text() + rest);
    assert "" + it.gap == it.gap;
    LexOneLexeme(left, it, rest);
  }

  lemma {:induction false} ReadingIsLexed(left: char, items: seq<Item>, tail: string)
    requires Reads(left, items, tail)
    ensures Lex(left, "", false, Source(items, tail)) == Lexed(items, tail)
    decreases |items|
  {
    if items == [] {
      LexTail(left, tail);
    } else {
      LexOneItem(left, items[0], Source(items[1..], tail));
      ReadingIsLexed(LastChar(left, items[0].lexeme), items[1..], tail);
      assert [items[0]] + items[1..] == items;
    }
  }

  /** The lexer computes the reading of a text: it finds one exactly when there is one, and
      there is never a second. */
  lemma LexIsTheReading(t: string, items: seq<Item>, tail: string)
    ensures LexAll(t) == Lexed(items, tail) <==> Source(items, tail) == t && Reads('\n', items, tail)
  {
    if LexAll(t) == Lexed(items, tail) {
      assert IsGap("", false);
      LexFindsReading('\n', "", false, t);
      assert "" + t == t;
    }
    if Source(items, tail) == t && Reads('\n', items, tail) {
      ReadingIsLexed('\n', items, tail);
    }
  }
}
