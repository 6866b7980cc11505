/** What minifying writes, character by character: what a lexeme is, what stands between two
    lexemes in the output, and what becomes of control characters. */
module JsminOutput {
  import opened Wrappers
  import opened JsminLexer
  import opened JsminReading

  // A character of a name, by its number: a digit, a letter, $, \, _ or anything from 127 on.
  predicate OfName(c: char) {
    var n := c as int;
    48 <= n <= 57 || 65 <= n <= 90 || 97 <= n <= 122 || n == 36 || n == 92 || n == 95 || n >= 127
  }

  // After these a newline can matter, and before these; and after these a slash begins a regular
  // expression.
  predicate EndsLine(c: char) {
    OfName(c) || c == '}' || c == ']' || c == ')' || c == '+' || c == '-' || c == '"' || c == '\''
  }

  predicate StartsLine(c: char) {
    OfName(c) || c == '{' || c == '[' || c == '(' || c == '+' || c == '-'
  }

  predicate BeforeRegex(c: char) {
    || c == '(' || c == ',' || c == '=' || c == ':' || c == '[' || c == '!' || c == '&' || c == '|' || c == '?'
    || c == '{' || c == '}' || c == ';'
  }

  // Item i's lexeme, and the character before its gap; a newline stands for the start of the text.
  predicate HasTexts(items: seq<Item>) {
    forall i :: 0 <= i < |items| ==> items[i].lexeme.Text() != ""
  }

  function Head(x: Lexeme): char
    requires x.Text() != ""
  {
    x.Text()[0]
  }

  function Last(x: Lexeme): char
    requires x.Text() != ""
  {
    x.Text()[|x.Text()| - 1]
  }

  function Left(items: seq<Item>, i: nat): char
    requires i <= |items| && HasTexts(items)
  {
    if i == 0 then '\n' else Last(items[i - 1].lexeme)
  }

  // A newline that can matter stands before item i: the text begins there, or its gap holds one
  // and the character before it ends lines.
  predicate OnNewLine(items: seq<Item>, i: nat)
    requires i < |items| && HasTexts(items)
  {
    i == 0 || (items[i].newline && EndsLine(Left(items, i)))
  }

  // ---------- what stands between lexemes ----------

  function Woven(seps: seq<string>, items: seq<Item>): string
    requires |seps| == |items|
    decreases |items|
  {
    if items == [] then "" else seps[0] + items[0].lexeme.Text() + Woven(seps[1..], items[1..])
  }

  function Between(items: seq<Item>, i: nat): string
    requires i < |items| && HasTexts(items)
  {
    var x := items[i].lexeme;
    if OnNewLine(items, i) && (x.Regex? || StartsLine(Head(x))) then "\n"
    else if i > 0 && items[i].gap != "" && OfName(Left(items, i)) && OfName(Head(x)) then " "
    else ""
  }

  function Separators(left: char, items: seq<Item>): (seps: seq<string>)
    ensures |seps| == |items|
    decreases |items|
  {
    if items == [] then []
    else
      var it := items[0];
      [Separator(left, it.gap, it.newline, FirstChar(it.lexeme))] + Separators(LastChar(left, it.lexeme), items[1..])
  }

  lemma {:induction false} RenderWeaves(left: char, items: seq<Item>)
    ensures Render(left, items) == Woven(Separators(left, items), items)
    decreases |items|
  {
    if items != [] {
      var last := LastChar(left, items[0].lexeme);
      RenderWeaves(last, items[1..]);
      var seps := Separators(left, items);
      assert seps[1..] == Separators(last, items[1..]);
    }
  }

  lemma SameTests(c: char)
    ensures IsAlphanum(c) == OfName(c) && KeepsNewline(c) == EndsLine(c)
  {
  }

  lemma TextOf(x: Lexeme, left: char)
    requires WellFormed(x)
    ensures x.Text() != "" && Last(x) != '\n' && LastChar(left, x) == Last(x)
  {
  }

  // Whether a lexeme after left, with a newline between them or not, is a regular expression.
  predicate RegexRight(left: char, newline: bool, x: Lexeme) {
    FirstChar(x) == '/' ==> x.Regex? == StartsRegex(left, newline)
  }

  lemma SameStart(left: char, newline: bool, x: Lexeme)
    requires WellFormed(x) && RegexRight(left, newline, x)
    ensures NewlineHeld(left, newline) == (left == '\n' || (newline && EndsLine(left)))
    ensures FirstChar(x) == Head(x)
    ensures NewlineHeld(left, newline) ==>
              (x.Regex? || StartsLine(Head(x)) <==> IsAlphanum(FirstChar(x)) || FirstChar(x) in {'{', '[', '(', '+', '-', '/'})
  {
    SameTests(left);
    SameTests(FirstChar(x));
  }

  // What the lexer's separator is, given what is left of it.
  lemma SeparatorIs(left: char, it: Item)
    requires WellFormed(it.lexeme) && RegexRight(left, it.newline, it.lexeme)
    ensures var x := it.lexeme; var start := left == '\n';
            Separator(left, it.gap, it.newline, FirstChar(x)) ==
            if (start || (it.newline && EndsLine(left))) && (x.Regex? || StartsLine(Head(x))) then "\n"
            else if !start && it.gap != "" && OfName(left) && OfName(Head(x)) then " "
            else ""
  {
    SameStart(left, it.newline, it.lexeme);
    SameTests(left);
    SameTests(Head(it.lexeme));
  }

  lemma ItemRight(left: char, items: seq<Item>, tail: string)
    requires Reads(left, items, tail) && items != []
    ensures WellFormed(items[0].lexeme) && RegexRight(left, items[0].newline, items[0].lexeme)
  {
  }

  lemma {:induction false} ReadsTexts(left: char, items: seq<Item>, tail: string)
    requires Reads(left, items, tail)
    ensures forall i :: 0 <= i < |items| ==> WellFormed(items[i].lexeme)
    decreases |items|
  {
    if items != [] {
      ReadsTexts(LastChar(left, items[0].lexeme), items[1..], tail);
      assert forall i :: 0 < i < |items| ==> items[i] == items[1..][i - 1];
    }
  }

  lemma AllTexts(items: seq<Item>, tail: string)
    requires Reads('\n', items, tail)
    ensures HasTexts(items) && forall i: nat :: i <= |items| ==> (Left(items, i) == '\n' <==> i == 0)
  {
    ReadsTexts('\n', items, tail);
    forall i | 0 <= i < |items|
      ensures items[i].lexeme.Text() != "" && Last(items[i].lexeme) != '\n'
    {
      TextOf(items[i].lexeme, '\n');
    }
  }

  lemma NextLeft(items: seq<Item>, k: nat)
    requires HasTexts(items) && k < |items|
    ensures items[k..][0] == items[k] && items[k..][1..] == items[k + 1..]
    ensures LastChar(Left(items, k), items[k].lexeme) == Left(items, k + 1)
  {
  }

  lemma {:induction false} ReadsFrom(items: seq<Item>, tail: string, k: nat)
    requires Reads('\n', items, tail) && HasTexts(items) && k <= |items|
    ensures Reads(Left(items, k), items[k..], tail)
    decreases k
  {
    if k == 0 {
      assert items[0..] == items;
    } else {
      ReadsFrom(items, tail, k - 1);
      NextLeft(items, k - 1);
    }
  }

  lemma FirstSeparator(items: seq<Item>, tail: string, k: nat)
    requires Reads('\n', items, tail) && HasTexts(items) && k < |items|
    requires Left(items, k) == '\n' <==> k == 0
    ensures Separators(Left(items, k), items[k..])[0] == Between(items, k)
  {
    NextLeft(items, k);
    ReadsFrom(items, tail, k);
    ItemRight(Left(items, k), items[k..], tail);
    SeparatorIs(Left(items, k), items[k]);
  }

  lemma OtherSeparators(left: char, items: seq<Item>)
    requires items != []
    ensures Separators(left, items)[1..] == Separators(LastChar(left, items[0].lexeme), items[1..])
  {
  }

  lemma OneOn(items: seq<Item>, k: nat, i: nat)
    requires HasTexts(items) && k < i < |items|
    ensures Separators(Left(items, k), items[k..])[i - k] == Separators(Left(items, k + 1), items[k + 1..])[i - (k + 1)]
  {
    NextLeft(items, k);
    OtherSeparators(Left(items, k), items[k..]);
    var seps := Separators(Left(items, k), items[k..]);
    assert seps[i - k] == seps[1..][i - (k + 1)];
  }

  lemma {:induction false} SeparatorsOn(items: seq<Item>, k: nat, i: nat)
    requires HasTexts(items) && k <= i < |items|
    ensures Separators(Left(items, k), items[k..])[i - k] == Separators(Left(items, i), items[i..])[0]
    decreases i - k
  {
    if k < i {
      OneOn(items, k, i);
      SeparatorsOn(items, k + 1, i);
    }
  }

  lemma SeparatorAt(items: seq<Item>, tail: string, i: nat)
    requires Reads('\n', items, tail) && i < |items|
    ensures HasTexts(items) && Separators('\n', items)[i] == Between(items, i)
  {
    AllTexts(items, tail);
    assert items[0..] == items;
    SeparatorsOn(items, 0, i);
    FirstSeparator(items, tail, i);
  }

  /** What is written for a text is its lexemes, and between two of them, and before the first, a
      newline exactly if one that can matter stood there and the lexeme is a regular expression or
      starts with a character that a newline can matter before; else a space exactly if there was
      any gap and both sides are of names; else nothing. */
  lemma OutputIs(input: string, items: seq<Item>, tail: string) returns (seps: seq<string>)
    requires Source(items, tail) == TranslateAll(input) && Reads('\n', items, tail)
    ensures |seps| == |items| && Minify(input) == Ok(Woven(seps, items))
    ensures HasTexts(items) && forall i :: 0 <= i < |items| ==> seps[i] == Between(items, i)
  {
    LexIsTheReading(TranslateAll(input), items, tail);
    RenderWeaves('\n', items);
    AllTexts(items, tail);
    seps := Separators('\n', items);
    forall i | 0 <= i < |items|
      ensures seps[i] == Between(items, i)
    {
      SeparatorAt(items, tail, i);
    }
  }

  lemma NewlineGap()
    ensures IsGap("", false) && IsGap("\n", true) && IsTail("")
  {
    var g := "\n";
    assert g[..0] == "" && g[0..] == g && IsGap(g[..0], false) && GapUnit(g[0..], true);
    assert ""[..0] == "" && IsGap(""[..0], false);
  }

  lemma TwoPlain(c: char, d: char, gap: string) returns (items: seq<Item>)
    requires IsGap("", false) && IsGap(gap, true) && IsTail("")
    requires c != '/' && d != '/' && WellFormed(Plain(c)) && WellFormed(Plain(d))
    ensures items == [Item("", false, Plain(c)), Item(gap, true, Plain(d))]
    ensures Reads('\n', items, "") && Source(items, "") == [c] + (gap + [d])
  {
    var x, y := Item("", false, Plain(c)), Item(gap, true, Plain(d));
    items := [x, y];
    assert items[1..] == [y] && [y][1..] == [];
    assert Reads(d, [], "") && Reads(c, [y], "");
    assert Source([y], "") == gap + [d] + "" == gap + [d];
    assert Source(items, "") == "" + [c] + Source([y], "");
  }

  lemma PrintableStays(t: string)
    requires forall i :: 0 <= i < |t| ==> t[i] >= ' ' || t[i] == '\n'
    ensures TranslateAll(t) == t
  {
    assert forall i :: 0 <= i < |t| ==> TranslateAll(t)[i] == t[i];
  }

  // A closing brace, a newline and "b"
  lemma BraceExample()
    ensures Minify(['}'] + ("\n" + ['b'])) == Ok(['}'] + ("\n" + ['b']))
  {
    NewlineGap();
    var items := TwoPlain('}', 'b', "\n");
    var input := ['}'] + ("\n" + ['b']);
    PrintableStays(input);
    var seps := OutputIs(input, items, "");
    WovenTwo(seps, items);
    assert Between(items, 0) == "" && Between(items, 1) == "\n";
  }

  lemma WovenTwo(seps: seq<string>, items: seq<Item>)
    requires |seps| == |items| == 2
    ensures Woven(seps, items) == seps[0] + items[0].lexeme.Text() + (seps[1] + items[1].lexeme.Text())
  {
    var s, x := seps[1..], items[1..];
    assert Woven(s[1..], x[1..]) == "";
    assert Woven(s, x) == seps[1] + items[1].lexeme.Text() + "" == seps[1] + items[1].lexeme.Text();
  }

  // ---------- what a lexeme is ----------

  // How many backslashes stand before position p of u.
  function Backslashes(u: string, p: nat): nat
    requires p <= |u|
  {
    if p == 0 || u[p - 1] != '\\' then 0 else 1 + Backslashes(u, p - 1)
  }

  // u ends with q, after an even number of backslashes, and each q before it has an odd one.
  predicate Closes(q: char, u: string) {
    && u != "" && u[|u| - 1] == q && Backslashes(u, |u| - 1) % 2 == 0
    && forall j :: 0 <= j < |u| - 1 && u[j] == q ==> Backslashes(u, j) % 2 == 1
  }

  lemma {:induction false} BackslashesOn(u: string, p: nat)
    requires u != "" && u[0] != '\\' && p < |u|
    ensures Backslashes(u, p + 1) == Backslashes(u[1..], p)
    decreases p
  {
    if p > 0 && u[p] == '\\' {
      BackslashesOn(u, p - 1);
    }
  }

  lemma {:induction false} BackslashesTwoOn(u: string, p: nat)
    requires |u| >= 2 && u[0] == '\\' && p + 2 <= |u|
    ensures Backslashes(u, p + 2) % 2 == Backslashes(u[2..], p) % 2
    decreases p
  {
    if p > 0 {
      if u[p + 1] == '\\' {
        BackslashesTwoOn(u, p - 1);
      }
    } else {
      assert Backslashes(u, 1) == 1 + Backslashes(u, 0);
    }
  }

  /** A literal runs to the first closing character that no odd number of backslashes protects. */
  lemma {:induction false} LiteralEndIs(q: char, u: string)
    requires q != '\\'
    ensures LiteralEnd(q, u) == Some(|u|) <==> Closes(q, u)
    decreases |u|
  {
    if u == "" {
    } else if u[0] == q {
      assert Backslashes(u, 0) == 0;
    } else if u[0] != '\\' {
      LiteralEndIs(q, u[1..]);
      ClosesOn(q, u);
    } else if |u| >= 2 {
      LiteralEndIs(q, u[2..]);
      ClosesTwoOn(q, u);
    }
  }

  lemma ClosesOn(q: char, u: string)
    requires u != "" && u[0] != q && u[0] != '\\'
    ensures Closes(q, u) <==> Closes(q, u[1..])
  {
    forall p: nat | p < |u|
      ensures Backslashes(u, p + 1) == Backslashes(u[1..], p)
    {
      BackslashesOn(u, p);
    }
    if Closes(q, u[1..]) {
      forall j | 0 <= j < |u| - 1 && u[j] == q
        ensures Backslashes(u, j) % 2 == 1
      {
        assert u[1..][j - 1] == q;
      }
    }
    if Closes(q, u) {
      forall j | 0 <= j < |u| - 2 && u[1..][j] == q
        ensures Backslashes(u[1..], j) % 2 == 1
      {
        assert u[j + 1] == q;
      }
    }
  }

  lemma ClosesTwoOn(q: char, u: string)
    requires |u| >= 2 && u[0] == '\\' && q != '\\'
    ensures Closes(q, u) <==> Closes(q, u[2..])
  {
    forall p: nat | p + 2 <= |u|
      ensures Backslashes(u, p + 2) % 2 == Backslashes(u[2..], p) % 2
    {
      BackslashesTwoOn(u, p);
    }
    assert Backslashes(u, 1) == 1 + Backslashes(u, 0) == 1;
    if Closes(q, u[2..]) {
      forall j | 0 <= j < |u| - 1 && u[j] == q
        ensures Backslashes(u, j) % 2 == 1
      {
        if j >= 2 {
          assert u[2..][j - 2] == q;
        }
      }
    }
    if Closes(q, u) {
      assert |u| > 2;
      forall j | 0 <= j < |u| - 3 && u[2..][j] == q
        ensures Backslashes(u[2..], j) % 2 == 1
      {
        assert u[j + 2] == q;
      }
    }
  }

  /** Lexemes are told by their first character: a quote begins a string, up to the quote that closes
      it; a slash begins a regular expression, up to the slash that closes it, exactly at the start,
      on a new line that can matter, or after one of the characters an operand cannot follow; all
      else is one character, not a blank. */
  lemma LexemesAre(items: seq<Item>, tail: string, i: nat)
    requires Reads('\n', items, tail) && i < |items|
    ensures HasTexts(items)
    ensures var x := items[i].lexeme; var c := Head(x);
            if c == '\'' || c == '"' then x.Str? && Closes(c, x.Text()[1..])
            else if c == '/' && (OnNewLine(items, i) || BeforeRegex(Left(items, i))) then
              x.Regex? && Closes('/', x.Text()[1..]) && x.Text()[1] != '/' && x.Text()[1] != '*'
            else x == Plain(c) && c != ' ' && c != '\n'
  {
    AllTexts(items, tail);
    ReadsFrom(items, tail, i);
    ItemRight(Left(items, i), items[i..], tail);
    assert items[i..][0] == items[i];
    LexemeIs(Left(items, i), items[i].newline, items[i].lexeme);
  }

  lemma LexemeIs(left: char, newline: bool, x: Lexeme)
    requires WellFormed(x) && RegexRight(left, newline, x)
    ensures var c := Head(x);
            if c == '\'' || c == '"' then x.Str? && Closes(c, x.Text()[1..])
            else if c == '/' && (left == '\n' || (newline && EndsLine(left)) || BeforeRegex(left)) then
              x.Regex? && Closes('/', x.Text()[1..]) && x.Text()[1] != '/' && x.Text()[1] != '*'
            else x == Plain(c) && c != ' ' && c != '\n'
  {
    SameStart(left, newline, x);
    if !x.Plain? {
      LiteralEndIs(Head(x), x.Text()[1..]);
    }
  }

  // ---------- control characters ----------

  /** Newlines and carriage returns become newlines, other control characters spaces. */
  lemma TranslatedIs(input: string, i: nat)
    requires i < |input|
    ensures var n := input[i] as int;
            |TranslateAll(input)| == |input|
            && TranslateAll(input)[i] == if n == 10 || n == 13 then '\n' else if n < 32 then ' ' else input[i]
  {
  }
}
