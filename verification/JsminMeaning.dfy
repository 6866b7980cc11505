/** What minifying does to the reading of a text: the output has the same lexemes, with
    words kept apart and lines kept apart between words.  The one way to lose this is a
    division sign that ends up against another slash or a star; it is exactly then that
    minifying loses lexemes, and that minifying twice differs from minifying once. */
module JsminMeaning {
  import opened Wrappers
  import opened JsminLexer
  import opened JsminReading

  // A division sign whose next lexeme starts with '/' or '*', whatever lies between them.
  predicate HasSlashPair(items: seq<Item>)
    decreases |items|
  {
    |items| >= 2
    && ((items[0].lexeme == Plain('/') && FirstChar(items[1].lexeme) in {'/', '*'}) || HasSlashPair(items[1..]))
  }

  // The items as the output shows them: each gap shrunk to its separator.
  function Shrunk(left: char, it: Item): Item {
    var sep := Separator(left, it.gap, it.newline, FirstChar(it.lexeme));
    Item(sep, sep == "\n", it.lexeme)
  }

  function ShrinkAll(left: char, items: seq<Item>): (r: seq<Item>)
    ensures |r| == |items|
    decreases |items|
  {
    if items == [] then []
    else [Shrunk(left, items[0])] + ShrinkAll(LastChar(left, items[0].lexeme), items[1..])
  }

  // ---------- the output is the source of the shrunk items ----------

  lemma {:induction false} RenderIsSource(left: char, items: seq<Item>)
    ensures Render(left, items) == Source(ShrinkAll(left, items), "")
    decreases |items|
  {
    if items != [] {
      RenderIsSource(LastChar(left, items[0].lexeme), items[1..]);
      var all := ShrinkAll(left, items);
      assert all[1..] == ShrinkAll(LastChar(left, items[0].lexeme), items[1..]);
    }
  }

  lemma ShrinkingTwice(left: char, it: Item)
    ensures Shrunk(left, Shrunk(left, it)) == Shrunk(left, it)
  {
    assert "\n"[0] == '\n' && " "[0] == ' ';
  }

  lemma {:induction false} RenderShrunk(left: char, items: seq<Item>)
    ensures Render(left, ShrinkAll(left, items)) == Render(left, items)
    decreases |items|
  {
    if items != [] {
      ShrinkingTwice(left, items[0]);
      RenderShrunk(LastChar(left, items[0].lexeme), items[1..]);
      var all := ShrinkAll(left, items);
      assert all[1..] == ShrinkAll(LastChar(left, items[0].lexeme), items[1..]);
    }
  }

  lemma SeparatorIsGap(left: char, gap: string, newline: bool, right: char)
    ensures var sep := Separator(left, gap, newline, right); IsGap(sep, sep == "\n")
  {
    var sep := Separator(left, gap, newline, right);
    if sep != "" {
      assert sep[..0] == "" && sep[0..] == sep;
      assert IsGap(sep[..0], false) && GapUnit(sep[0..], sep == "\n");
    } else {
      assert sep != "\n" by { assert |"\n"| == 1; }
    }
  }

  lemma ShrunkIsSound(left: char, it: Item)
    requires Sound(left, it)
    ensures Sound(left, Shrunk(left, it))
  {
    SeparatorIsGap(left, it.gap, it.newline, FirstChar(it.lexeme));
    assert |"\n"| == 1 && |" "| == 1 && " "[0] != "\n"[0];
  }

  // After a division sign the output goes straight on with the next lexeme.
  lemma AfterSlash(items: seq<Item>)
    requires items == [] || WellFormed(items[0].lexeme)
    ensures OpensAfterSlash(Render('/', items)) <==> items != [] && FirstChar(items[0].lexeme) in {'/', '*'}
  {
  }

  lemma {:induction false} ShrunkReads(left: char, items: seq<Item>, tail: string)
    requires Reads(left, items, tail) && !HasSlashPair(items)
    ensures Reads(left, ShrinkAll(left, items), "")
    decreases |items|
  {
    if items == [] {
      assert ""[..0] == "" && IsGap(""[..0], false);
    } else {
      var last := LastChar(left, items[0].lexeme);
      var all := ShrinkAll(left, items);
      assert all[1..] == ShrinkAll(last, items[1..]);
      ShrunkIsSound(left, items[0]);
      ShrunkReads(last, items[1..], tail);
      RenderIsSource(last, items[1..]);
      if items[0].lexeme == Plain('/') {
        AfterSlash(items[1..]);
      }
    }
  }

  // ---------- a slash pair loses text the second time ----------

  // Nothing but the start of the text can grow: a separator only stands for a gap.
  lemma {:induction false} LexShrinks(left: char, gap: string, newline: bool, t: string)
    requires left != '\n' && (newline ==> gap != "")
    ensures var r := Lex(left, gap, newline, t);
            r.Lexed? ==> |Render(left, r.items)| <= |t| + if gap == "" then 0 else 1
    decreases |t|
  {
    var f := NextSym(t);
    if f.Fetched? && f.sym.Ch? {
      var c := f.sym.c;
      var raw := t[..|t| - |f.rest|];
      if c == ' ' || c == '\n' {
        LexShrinks(left, gap + raw, newline || c == '\n', f.rest);
      } else {
        LexemeShrinks(left, gap, newline, raw, c, f.rest);
      }
    }
  }

  lemma {:induction false} LexemeShrinks(left: char, gap: string, newline: bool, raw: string, c: char, rest: string)
    requires left != '\n' && (newline ==> gap != "") && c != ' ' && c != '\n'
    ensures var r := LexSym(left, gap, newline, raw, Ch(c), rest);
            r.Lexed? ==> |Render(left, r.items)| <= |rest| + 1 + if gap == "" then 0 else 1
    decreases |rest| + 1, 0
  {
    if IsQuote(c) || (c == '/' && StartsRegex(left, newline)) {
      if LiteralEnd(c, rest).Some? {
        var k := LiteralEnd(c, rest).value;
        LexShrinks(c, "", false, rest[k..]);
        RenderOneShort(left, LiteralItem(gap, newline, c, rest[..k]), c, Lex(c, "", false, rest[k..]));
      }
    } else {
      LexShrinks(c, "", false, rest);
      RenderOneShort(left, Item(gap, newline, Plain(c)), c, Lex(c, "", false, rest));
    }
  }

  lemma RenderOneShort(left: char, it: Item, last: char, more: Lexed)
    requires left != '\n' && (it.newline ==> it.gap != "")
    requires it.lexeme.Text() != "" && it.lexeme.Text()[|it.lexeme.Text()| - 1] == last
    ensures var r := Cons(it, more);
            r.Lexed? ==>
              |Render(left, r.items)| <= (if it.gap == "" then 0 else 1) + |it.lexeme.Text()| + |Render(last, more.items)|
  {
    RenderOne(left, it, more);
    assert |Shrunk(left, it).gap| <= if it.gap == "" then 0 else 1;
  }

  lemma RenderOne(left: char, it: Item, more: Lexed)
    ensures var r := Cons(it, more);
            r.Lexed? ==>
              Render(left, r.items) == Shrunk(left, it).gap + it.lexeme.Text() + Render(LastChar(left, it.lexeme), more.items)
  {
    if more.Lexed? {
      assert ([it] + more.items)[1..] == more.items;
    }
  }

  lemma CommentShrinks(left: char, t: string)
    requires left != '\n' && OpensComment(t)
    ensures var r := Lex(left, "", false, t);
            r.Lexed? ==> |Render(left, r.items)| < |t|
  {
    var f := NextSym(t);
    if f.Fetched? && f.sym.Ch? {
      LexShrinks(left, t[..|t| - |f.rest|], f.sym.c == '\n', f.rest);
      assert "" + t[..|t| - |f.rest|] == t[..|t| - |f.rest|];
    }
  }

  lemma {:induction false} SlashPairShrinks(left: char, items: seq<Item>, tail: string)
    requires Reads(left, items, tail) && HasSlashPair(items)
    ensures var r := Lex(left, "", false, Render(left, items));
            r.Lexed? ==> |Render(left, r.items)| < |Render(left, items)|
    decreases |items|
  {
    var it, last := items[0], LastChar(left, items[0].lexeme);
    var more := Render(last, items[1..]);
    if it.lexeme == Plain('/') && FirstChar(items[1].lexeme) in {'/', '*'} {
      AfterSlash(items[1..]);
      assert Render(left, items) == "/" + more;
      CommentShrinks(left, Render(left, items));
    } else {
      ShrunkIsSound(left, it);
      if it.lexeme == Plain('/') {
        AfterSlash(items[1..]);
      }
      LexOneItem(left, Shrunk(left, it), more);
      SlashPairShrinks(last, items[1..], tail);
      RenderOne(left, Shrunk(left, it), Lex(last, "", false, more));
      ShrinkingTwice(left, it);
    }
  }

  // ---------- and lexemes ----------

  function NonBlank(t: string): nat {
    if t == "" then 0 else (if t[0] == ' ' || t[0] == '\n' then 0 else 1) + NonBlank(t[1..])
  }

  // How many characters other than blanks the lexemes have.
  function Weight(items: seq<Item>): nat
    decreases |items|
  {
    if items == [] then 0 else NonBlank(items[0].lexeme.Text()) + Weight(items[1..])
  }

  lemma {:induction false} NonBlankSum(a: string, b: string)
    ensures NonBlank(a + b) == NonBlank(a) + NonBlank(b)
    decreases |a|
  {
    if a == "" {
      assert a + b == b;
    } else {
      NonBlankSum(a[1..], b);
      assert (a + b)[1..] == a[1..] + b;
    }
  }

  lemma {:induction false} SameWeight(a: seq<Item>, b: seq<Item>)
    requires |a| == |b| && forall i :: 0 <= i < |a| ==> a[i].lexeme == b[i].lexeme
    ensures Weight(a) == Weight(b)
    decreases |a|
  {
    if a != [] {
      SameWeight(a[1..], b[1..]);
    }
  }

  lemma SeparatorIsBlank(left: char, gap: string, newline: bool, right: char)
    ensures NonBlank(Separator(left, gap, newline, right)) == 0
  {
    assert NonBlank("\n") == 0 && NonBlank(" ") == 0;
  }

  lemma {:induction false} RenderWeighs(left: char, items: seq<Item>)
    ensures NonBlank(Render(left, items)) == Weight(items)
    decreases |items|
  {
    if items != [] {
      var it := items[0];
      var sep := Separator(left, it.gap, it.newline, FirstChar(it.lexeme));
      var more := Render(LastChar(left, it.lexeme), items[1..]);
      SeparatorIsBlank(left, it.gap, it.newline, FirstChar(it.lexeme));
      RenderWeighs(LastChar(left, it.lexeme), items[1..]);
      NonBlankSum(sep + it.lexeme.Text(), more);
      NonBlankSum(sep, it.lexeme.Text());
    }
  }

  lemma OneMoreWeighs(it: Item, more: Lexed)
    ensures var r := Cons(it, more); r.Lexed? ==> Weight(r.items) == NonBlank(it.lexeme.Text()) + Weight(more.items)
  {
    if more.Lexed? {
      assert ([it] + more.items)[1..] == more.items;
    }
  }

  lemma RestWeighs(t: string)
    requires NextSym(t).Fetched?
    ensures NonBlank(NextSym(t).rest) <= NonBlank(t)
    ensures OpensComment(t) ==> NonBlank(NextSym(t).rest) < NonBlank(t)
  {
    NextTakesUnit(t);
    var rest := NextSym(t).rest;
    NonBlankSum(t[..|t| - |rest|], rest);
    assert t == t[..|t| - |rest|] + rest;
  }

  // The lexemes cannot have more than the text read.
  lemma {:induction false} LexWeighs(left: char, gap: string, newline: bool, t: string)
    ensures var r := Lex(left, gap, newline, t); r.Lexed? ==> Weight(r.items) <= NonBlank(t)
    decreases |t|
  {
    var f := NextSym(t);
    if f.Fetched? && f.sym.Ch? {
      var raw := t[..|t| - |f.rest|];
      RestWeighs(t);
      if f.sym.c == ' ' || f.sym.c == '\n' {
        LexWeighs(left, gap + raw, newline || f.sym.c == '\n', f.rest);
      } else {
        LexemeWeighs(left, gap, newline, raw, f.sym.c, f.rest);
        assert t == [f.sym.c] + f.rest;
      }
    }
  }

  lemma {:induction false} LexemeWeighs(left: char, gap: string, newline: bool, raw: string, c: char, rest: string)
    requires c != ' ' && c != '\n'
    ensures var r := LexSym(left, gap, newline, raw, Ch(c), rest);
            r.Lexed? ==> Weight(r.items) <= NonBlank([c] + rest)
    decreases |rest| + 1, 0
  {
    if IsQuote(c) || (c == '/' && StartsRegex(left, newline)) {
      if LiteralEnd(c, rest).Some? {
        var k := LiteralEnd(c, rest).value;
        LexWeighs(c, "", false, rest[k..]);
        OneMoreWeighs(LiteralItem(gap, newline, c, rest[..k]), Lex(c, "", false, rest[k..]));
        NonBlankSum([c] + rest[..k], rest[k..]);
        assert [c] + rest[..k] + rest[k..] == [c] + rest;
      }
    } else {
      LexWeighs(c, "", false, rest);
      OneMoreWeighs(Item(gap, newline, Plain(c)), Lex(c, "", false, rest));
      NonBlankSum([c], rest);
    }
  }

  lemma CommentWeighs(left: char, t: string)
    requires OpensComment(t)
    ensures var r := Lex(left, "", false, t); r.Lexed? ==> Weight(r.items) < NonBlank(t)
  {
    var f := NextSym(t);
    if f.Fetched? {
      RestWeighs(t);
      if f.sym.Ch? {
        LexWeighs(left, t[..|t| - |f.rest|], f.sym.c == '\n', f.rest);
        assert "" + t[..|t| - |f.rest|] == t[..|t| - |f.rest|];
      }
    }
  }

  lemma PairLoses(left: char, items: seq<Item>)
    requires |items| >= 2 && items[0].lexeme == Plain('/') && FirstChar(items[1].lexeme) in {'/', '*'}
    requires WellFormed(items[1].lexeme) && Shrunk(left, items[0]).gap == ""
    ensures var r := Lex(left, "", false, Render(left, items));
            r.Lexed? ==> Weight(r.items) < Weight(items)
  {
    AfterSlash(items[1..]);
    assert Render(left, items) == "/" + Render('/', items[1..]);
    CommentWeighs(left, Render(left, items));
    RenderWeighs(left, items);
  }

  // A lexeme read again as it was, in front of a text that loses.
  lemma LoserBehind(left: char, it: Item, items: seq<Item>)
    requires items != [] && items[0] == it && Sound(left, it)
    requires it.lexeme == Plain('/') ==> !OpensAfterSlash(Render(LastChar(left, it.lexeme), items[1..]))
    requires var last := LastChar(left, it.lexeme); var r := Lex(last, "", false, Render(last, items[1..]));
             r.Lexed? ==> Weight(r.items) < Weight(items[1..])
    ensures var r := Lex(left, "", false, Render(left, items));
            r.Lexed? ==> Weight(r.items) < Weight(items)
  {
    var last := LastChar(left, it.lexeme);
    ShrunkIsSound(left, it);
    LexOneItem(left, Shrunk(left, it), Render(last, items[1..]));
    OneMoreWeighs(Shrunk(left, it), Lex(last, "", false, Render(last, items[1..])));
  }

  /** The second reading misses characters of the lexemes. */
  lemma {:induction false} SlashPairLoses(left: char, items: seq<Item>, tail: string)
    requires Reads(left, items, tail) && HasSlashPair(items)
    ensures var r := Lex(left, "", false, Render(left, items));
            r.Lexed? ==> Weight(r.items) < Weight(items)
    decreases |items|
  {
    var it, last := items[0], LastChar(left, items[0].lexeme);
    if it.lexeme == Plain('/') && FirstChar(items[1].lexeme) in {'/', '*'} {
      PairLoses(left, items);
    } else {
      if it.lexeme == Plain('/') {
        AfterSlash(items[1..]);
      }
      SlashPairLoses(last, items[1..], tail);
      LoserBehind(left, it, items);
    }
  }

  // ---------- characters ----------

  predicate Clean(t: string) {
    forall i :: 0 <= i < |t| ==> Translate(t[i]) == t[i]
  }

  lemma CleanStays(t: string)
    requires Clean(t)
    ensures TranslateAll(t) == t
  {
  }

  lemma {:induction false} RenderIsClean(left: char, items: seq<Item>, tail: string)
    requires Clean(Source(items, tail))
    ensures Clean(Render(left, items))
    decreases |items|
  {
    if items != [] {
      var before := items[0].gap;
      var text := items[0].lexeme.Text();
      var more := Source(items[1..], tail);
      var t := before + text + more;
      assert Clean(text) by {
        assert forall i :: 0 <= i < |text| ==> text[i] == t[|before| + i];
      }
      assert Clean(more) by {
        assert forall i :: 0 <= i < |more| ==> more[i] == t[|before| + |text| + i];
      }
      RenderIsClean(LastChar(left, items[0].lexeme), items[1..], tail);
    }
  }

  // ---------- main results ----------

  lemma OutputOf(input: string) returns (items: seq<Item>, tail: string)
    requires Minify(input).Ok?
    ensures LexAll(TranslateAll(input)) == Lexed(items, tail)
    ensures Source(items, tail) == TranslateAll(input) && Reads('\n', items, tail)
    ensures Minify(input).value == Render('\n', items)
    ensures TranslateAll(Render('\n', items)) == Render('\n', items)
  {
    var t := TranslateAll(input);
    items, tail := LexAll(t).items, LexAll(t).tail;
    LexIsTheReading(t, items, tail);
    assert Clean(t);
    RenderIsClean('\n', items, tail);
    CleanStays(Render('\n', items));
  }

  predicate BetweenWords(items: seq<Item>, i: nat)
    requires 0 < i < |items|
  {
    IsAlphanum(LastChar(' ', items[i - 1].lexeme)) && IsAlphanum(FirstChar(items[i].lexeme))
  }

  // b is a with gaps changed, but no gap between two words opened, closed, or moved
  // across a line.
  predicate SameProgram(a: seq<Item>, b: seq<Item>) {
    && |a| == |b|
    && (forall i :: 0 <= i < |a| ==> a[i].lexeme == b[i].lexeme)
    && (forall i :: 0 < i < |a| && BetweenWords(a, i) ==>
          (a[i].gap == "" <==> b[i].gap == "") && a[i].newline == b[i].newline)
  }

  lemma {:induction false} ShrinkKeepsProgram(left: char, items: seq<Item>, tail: string)
    requires Reads(left, items, tail)
    ensures SameProgram(items, ShrinkAll(left, items))
    decreases |items|
  {
    if items != [] {
      var last := LastChar(left, items[0].lexeme);
      var all := ShrinkAll(left, items);
      var rest := ShrinkAll(last, items[1..]);
      ShrinkKeepsProgram(last, items[1..], tail);
      assert all == [Shrunk(left, items[0])] + rest;
      if |items| > 1 {
        assert Sound(last, items[1..][0]);
        assert rest[0] == Shrunk(last, items[1]);
        WordsKeptApart(last, items[1]);
      }
      SameProgramExtends(items, all);
    }
  }

  // Between two words a gap and its separator agree on being there and on the line.
  lemma WordsKeptApart(left: char, it: Item)
    requires IsGap(it.gap, it.newline)
    ensures IsAlphanum(left) && IsAlphanum(FirstChar(it.lexeme)) ==>
              (it.gap == "" <==> Shrunk(left, it).gap == "") && it.newline == Shrunk(left, it).newline
  {
    assert |"\n"| == 1 && |" "| == 1 && " "[0] != "\n"[0];
  }

  lemma SameProgramExtends(a: seq<Item>, b: seq<Item>)
    requires a != [] && b != [] && a[0].lexeme == b[0].lexeme && SameProgram(a[1..], b[1..])
    requires |a| > 1 && BetweenWords(a, 1) ==> (a[1].gap == "" <==> b[1].gap == "") && a[1].newline == b[1].newline
    ensures SameProgram(a, b)
  {
    assert |a| == |b|;
    forall i | 0 <= i < |a| ensures a[i].lexeme == b[i].lexeme {
      if i > 0 {
        assert a[i] == a[1..][i - 1] && b[i] == b[1..][i - 1];
      }
    }
    forall i | 1 < i < |a| && BetweenWords(a, i)
      ensures (a[i].gap == "" <==> b[i].gap == "") && a[i].newline == b[i].newline
    {
      assert BetweenWords(a[1..], i - 1);
    }
  }

  /** Minified text is the same program, that is, read again it has the same lexemes in the
      same order, and its words and lines as before, exactly when no division sign is
      followed, blanks and comments aside, by a lexeme that starts with a slash or a star. */
  lemma MinifyKeepsProgram(input: string)
    requires Minify(input).Ok?
    ensures var before := LexAll(TranslateAll(input)); var after := LexAll(Minify(input).value);
            after.Lexed? && SameProgram(before.items, after.items) <==> !HasSlashPair(before.items)
    ensures var before := LexAll(TranslateAll(input)); var after := LexAll(Minify(input).value);
            !HasSlashPair(before.items) ==> after.Lexed? && after.tail == ""
  {
    var items, tail := OutputOf(input);
    if HasSlashPair(items) {
      SlashPairLoses('\n', items, tail);
      var after := LexAll(Minify(input).value);
      if after.Lexed? && SameProgram(items, after.items) {
        SameWeight(items, after.items);
      }
    } else {
      ShrunkReads('\n', items, tail);
      RenderIsSource('\n', items);
      ReadingIsLexed('\n', ShrinkAll('\n', items), "");
      ShrinkKeepsProgram('\n', items, tail);
    }
  }

  /** On the same condition, and no other, minifying again changes nothing. */
  lemma IdempotentExactly(input: string)
    requires Minify(input).Ok?
    ensures Minify(Minify(input).value) == Minify(input)
       <==> !HasSlashPair(LexAll(TranslateAll(input)).items)
  {
    var items, tail := OutputOf(input);
    if HasSlashPair(items) {
      SlashPairShrinks('\n', items, tail);
    } else {
      ShrunkReads('\n', items, tail);
      RenderIsSource('\n', items);
      ReadingIsLexed('\n', ShrinkAll('\n', items), "");
      RenderShrunk('\n', items);
    }
  }

  lemma GapOfOne(newline: bool)
    ensures IsGap("", false) && IsGap(if newline then "\n" else " ", newline)
  {
    var u := if newline then "\n" else " ";
    assert u[..0] == "" && u[0..] == u && IsGap(u[..0], false) && GapUnit(u[0..], newline);
  }

  lemma Prepend(left: char, it: Item, items: seq<Item>, tail: string) returns (all: seq<Item>)
    requires Sound(left, it) && Reads(LastChar(left, it.lexeme), items, tail)
    requires it.lexeme == Plain('/') ==> !OpensAfterSlash(Source(items, tail))
    ensures all == [it] + items && Reads(left, all, tail)
    ensures Source(all, tail) == it.gap + it.lexeme.Text() + Source(items, tail)
    ensures Render(left, all) == Shrunk(left, it).gap + it.lexeme.Text() + Render(LastChar(left, it.lexeme), items)
  {
    all := [it] + items;
    assert all[1..] == items;
  }

  lemma FirstPass()
    ensures Minify("a/ /") == Ok("\na//")
  {
    var items := FirstPassReading();
    ReadingIsLexed('\n', items, "");
    CleanStays("a/ /");
  }

  lemma SecondPass()
    ensures Minify("\na//") == Ok("\na")
  {
    var items := SecondPassReading();
    ReadingIsLexed('\n', items, "//");
    CleanStays("\na//");
  }

  // Dividing by what starts with a slash: the second pass takes "//" for a comment.
  lemma SlashPairExample()
    ensures Minify("a/ /") == Ok("\na//")
    ensures Minify("\na//") == Ok("\na")
  {
    FirstPass();
    SecondPass();
  }

  lemma SlashTail() returns (items: seq<Item>)
    ensures Reads('/', items, "") && Source(items, "") == " /" && Render('/', items) == "/"
  {
    GapOfOne(false);
    assert ""[..0] == "";
    assert Reads('/', [], "");
    items := Prepend('/', Item(" ", false, Plain('/')), [], "");
  }

  lemma FirstPassReading() returns (items: seq<Item>)
    ensures Reads('\n', items, "") && Source(items, "") == "a/ /" && Render('\n', items) == "\na//"
  {
    GapOfOne(false);
    var after := SlashTail();
    after := Prepend('a', Item("", false, Plain('/')), after, "");
    assert Source(after, "") == "/ /" && Render('a', after) == "//";
    items := Prepend('\n', Item("", false, Plain('a')), after, "");
  }

  lemma SecondPassReading() returns (items: seq<Item>)
    ensures Reads('\n', items, "//") && Source(items, "//") == "\na//" && Render('\n', items) == "\na"
  {
    GapOfOne(true);
    assert "//"[..0] == "" && "//"[0..] == "//" && IsGap("//"[..0], false) && OpenLineComment("//"[0..]);
    assert Reads('a', [], "//");
    items := Prepend('\n', Item("\n", true, Plain('a')), [], "//");
  }
}
