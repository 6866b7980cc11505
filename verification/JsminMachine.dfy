/** The character machine of maketool/jsmin.c: two registers, one character of lookahead
    and an output stream.  Run is proved to write exactly what JsminLexer.Minify says. */
module JsminMachine {
  import opened Wrappers
  import opened JsminLexer

  // ---------- the abstract step ----------

  // Registers, characters still to come (translated), characters written.
  datatype State = State(a: Sym, b: Sym, rest: string, out: string)

  predicate RegexMayFollow(a: Sym) {
    a.Ch? && a.c in {'(', ',', '=', ':', '[', '!', '&', '|', '?', '{', '}', ';', '\n'}
  }

  function FetchB(a: Sym, rest: string, out: string): Result<State, Error> {
    match NextSym(rest)
    case OpenComment => Err(UnterminatedComment)
    case Fetched(b, rest) => Ok(State(a, b, rest, out))
  }

  // A regular expression copied through up to its closing slash, which is kept in a.
  function RegexCopied(a: char, rest: string, out: string): Result<State, Error> {
    match LiteralEnd('/', rest)
    case None => Err(UnterminatedRegex)
    case Some(k) => FetchB(Ch('/'), rest[k..], out + [a] + "/" + rest[..k - 1])
  }

  // Fill b; a regular expression that starts there is copied through.
  function FillB(a: Sym, rest: string, out: string): Result<State, Error> {
    match NextSym(rest)
    case OpenComment => Err(UnterminatedComment)
    case Fetched(b, rest) =>
      if b == Ch('/') && RegexMayFollow(a) then RegexCopied(a.c, rest, out) else Ok(State(a, b, rest, out))
  }

  // Move b to a; a string that starts there is copied through up to its closing quote. What
  // comes to be in a, what is still to come, and what has been written.
  function TakeB(s: State): Result<(Sym, string, string), Error> {
    if s.b.Ch? && IsQuote(s.b.c) then
      match LiteralEnd(s.b.c, s.rest)
      case None => Err(UnterminatedString)
      case Some(k) => Ok((s.b, s.rest[k..], s.out + [s.b.c] + s.rest[..k - 1]))
    else Ok((s.b, s.rest, s.out))
  }

  function CopyB(s: State): Result<State, Error> {
    match TakeB(s)
    case Err(e) => Err(e)
    case Ok((a, rest, out)) => FillB(a, rest, out)
  }

  datatype Act = WriteA | DropA | DropB

  function Apply(d: Act, s: State): Result<State, Error>
    requires d.WriteA? ==> s.a.Ch?
  {
    match d
    case WriteA => CopyB(s.(out := s.out + [s.a.c]))
    case DropA => CopyB(s)
    case DropB => FillB(s.a, s.rest, s.out)
  }

  // The branch table of the main loop.
  function Choose(a: char, b: Sym): Act {
    if a == ' ' then
      if b.Ch? && IsAlphanum(b.c) then WriteA else DropA
    else if a == '\n' then
      if b.Ch? && b.c in {'{', '[', '(', '+', '-'} then WriteA
      else if b == Ch(' ') then DropB
      else if b.Ch? && IsAlphanum(b.c) then WriteA else DropA
    else if b == Ch(' ') then
      if IsAlphanum(a) then WriteA else DropB
    else if b == Ch('\n') then
      if a in {'}', ']', ')', '+', '-', '"', '\''} || IsAlphanum(a) then WriteA else DropB
    else WriteA
  }

  // ---------- the machine state seen as a point of the reference reading ----------

  // The lexeme on the left, and the gap read since, when b was fetched from raw.
  datatype Point = Point(left: char, gap: string, newline: bool, raw: string)

  predicate IsBlank(c: char) { c == ' ' || c == '\n' }

  // What the a register holds while a gap is being read: the last character of the left
  // lexeme until a blank that may matter turns up, then that blank.
  predicate Holds(a: Sym, p: Point) {
    && (p.newline && p.left != '\n' ==> p.gap != "")
    && p.left != ' '
    && if NewlineHeld(p.left, p.newline) then a == Ch('\n')
       else if IsAlphanum(p.left) && p.gap != "" then a == Ch(' ')
       else a == Ch(p.left)
  }

  // The part of the left lexeme not yet written.
  function Pending(a: Sym): string {
    if a.Ch? && !IsBlank(a.c) then [a.c] else ""
  }

  function RenderAfter(out: string, left: char, more: Lexed): Result<string, Error> {
    match more
    case Failed(e) => Err(e)
    case Lexed(items, _) => Ok(out + Render(left, items))
  }

  // The final output this state leads to by the reference reading.
  function Outlook(s: State, p: Point): Result<string, Error> {
    RenderAfter(s.out + Pending(s.a), p.left, LexSym(p.left, p.gap, p.newline, p.raw, s.b, s.rest))
  }

  predicate AtPoint(s: State, p: Point) {
    && Holds(s.a, p)
    && (s.b == Ch('/') ==> !StartsRegex(p.left, p.newline))
    && (s.b.Ch? ==> p.raw != "")
    && (s.b.Eof? ==> s.rest == "")
  }

  lemma RegexTestsAgree(a: Sym, p: Point)
    requires Holds(a, p)
    ensures RegexMayFollow(a) <==> StartsRegex(p.left, p.newline)
  {
  }

  lemma RenderFirst(out: string, left: char, it: Item, more: Lexed)
    ensures RenderAfter(out, left, Cons(it, more))
         == RenderAfter(out + Separator(left, it.gap, it.newline, FirstChar(it.lexeme)) + it.lexeme.Text(),
                        LastChar(left, it.lexeme), more)
  {
    match more
    case Failed(_) =>
    case Lexed(items, _) =>
      var all := [it] + items;
      assert all[1..] == items;
      var sep := Separator(left, it.gap, it.newline, FirstChar(it.lexeme));
      var last := LastChar(left, it.lexeme);
      assert out + (sep + it.lexeme.Text() + Render(last, items)) == out + sep + it.lexeme.Text() + Render(last, items);
  }

  // The outcome of a fill or an action: the same failure, or a state with the same outlook.
  ghost predicate Leads(r: Result<State, Error>, goal: Result<string, Error>) {
    match r
    case Err(e) => goal == Err(e)
    case Ok(s) =>
      || (s.a.Eof? && goal == Ok(s.out))
      || exists p :: AtPoint(s, p) && Outlook(s, p) == goal
  }

  lemma Witness(s: State, p: Point, goal: Result<string, Error>)
    requires AtPoint(s, p) && Outlook(s, p) == goal
    ensures Leads(Ok(s), goal)
  {
  }

  // Fetching b moves the outlook along without changing it.
  lemma FetchKeepsOutlook(a: Sym, rest: string, out: string, p: Point)
    requires Holds(a, p) && NextSym(rest).Fetched?
    requires NextSym(rest).sym == Ch('/') ==> !StartsRegex(p.left, p.newline)
    ensures var f := NextSym(rest);
            Leads(Ok(State(a, f.sym, f.rest, out)),
                  RenderAfter(out + Pending(a), p.left, Lex(p.left, p.gap, p.newline, rest)))
  {
    var f := NextSym(rest);
    var s := State(a, f.sym, f.rest, out);
    Witness(s, p.(raw := rest[..|rest| - |f.rest|]),
            RenderAfter(out + Pending(a), p.left, Lex(p.left, p.gap, p.newline, rest)));
  }

  // A pending character and the separator before a regular expression come to what the
  // a register holds.
  lemma PendingBeforeRegex(a: Sym, p: Point)
    requires Holds(a, p) && StartsRegex(p.left, p.newline)
    ensures a.Ch?
    ensures Pending(a) + Separator(p.left, p.gap, p.newline, '/') == [a.c]
  {
  }

  lemma Reassociate(out: string, pending: string, sep: string, c: char, body: string)
    requires pending + sep == [c]
    ensures out + pending + sep + ("/" + (body + "/")) == out + [c] + "/" + body + "/"
  {
    calc {
      out + pending + sep + ("/" + (body + "/"));
      out + (pending + sep) + ("/" + (body + "/"));
      out + [c] + "/" + body + "/";
    }
  }

  // Copying a literal through is reading it as one lexeme.
  lemma LiteralKeepsOutlook(out: string, left: char, it: Item, body: string, q: char, more: Lexed)
    requires it.lexeme.Text() == [q] + (body + [q])
    ensures RenderAfter(out, left, Cons(it, more))
         == RenderAfter(out + Separator(left, it.gap, it.newline, q) + ([q] + (body + [q])), q, more)
  {
    RenderFirst(out, left, it, more);
    var text := it.lexeme.Text();
    assert text[|text| - 1] == q && text[0] == q;
  }

  lemma RegexKeepsOutlook(out: string, pending: string, p: Point, c: char, rest: string, k: nat, more: Lexed)
    requires pending + Separator(p.left, p.gap, p.newline, '/') == [c]
    requires 1 <= k <= |rest| && rest[k - 1] == '/'
    ensures RenderAfter(out + pending, p.left, Cons(Item(p.gap, p.newline, Regex("/" + rest[..k])), more))
         == RenderAfter(out + [c] + "/" + rest[..k - 1] + "/", '/', more)
  {
    assert rest[..k] == rest[..k - 1] + "/";
    LiteralKeepsOutlook(out + pending, p.left, Item(p.gap, p.newline, Regex("/" + rest[..k])), rest[..k - 1], '/', more);
    Reassociate(out, pending, Separator(p.left, p.gap, p.newline, '/'), c, rest[..k - 1]);
  }

  lemma FetchLeads(a: Sym, rest: string, out: string, p: Point)
    requires Holds(a, p)
    requires NextSym(rest).Fetched? && NextSym(rest).sym == Ch('/') ==> !StartsRegex(p.left, p.newline)
    ensures Leads(FetchB(a, rest, out), RenderAfter(out + Pending(a), p.left, Lex(p.left, p.gap, p.newline, rest)))
  {
    if NextSym(rest).Fetched? {
      FetchKeepsOutlook(a, rest, out, p);
    }
  }

  lemma AfterRegex(rest: string, out: string)
    ensures Leads(FetchB(Ch('/'), rest, out), RenderAfter(out + "/", '/', Lex('/', "", false, rest)))
  {
    FetchLeads(Ch('/'), rest, out, Point('/', "", false, ""));
  }

  lemma LexRegex(p: Point, t: string, rest: string)
    requires StartsRegex(p.left, p.newline) && NextSym(t) == Fetched(Ch('/'), rest)
    ensures Lex(p.left, p.gap, p.newline, t)
         == match LiteralEnd('/', rest)
            case None => Failed(UnterminatedRegex)
            case Some(k) => Cons(Item(p.gap, p.newline, Regex("/" + rest[..k])), Lex('/', "", false, rest[k..]))
  {
  }

  lemma FillRegexKeepsOutlook(a: Sym, t: string, out: string, p: Point, rest: string)
    requires Holds(a, p) && StartsRegex(p.left, p.newline) && NextSym(t) == Fetched(Ch('/'), rest)
    ensures Leads(FillB(a, t, out), RenderAfter(out + Pending(a), p.left, Lex(p.left, p.gap, p.newline, t)))
  {
    RegexTestsAgree(a, p);
    LexRegex(p, t, rest);
    match LiteralEnd('/', rest)
    case None =>
    case Some(k) =>
      PendingBeforeRegex(a, p);
      RegexKeepsOutlook(out, Pending(a), p, a.c, rest, k, Lex('/', "", false, rest[k..]));
      AfterRegex(rest[k..], out + [a.c] + "/" + rest[..k - 1]);
  }

  lemma FillKeepsOutlook(a: Sym, rest: string, out: string, p: Point)
    requires Holds(a, p)
    ensures Leads(FillB(a, rest, out), RenderAfter(out + Pending(a), p.left, Lex(p.left, p.gap, p.newline, rest)))
  {
    RegexTestsAgree(a, p);
    var f := NextSym(rest);
    if f.Fetched? {
      if f.sym == Ch('/') && StartsRegex(p.left, p.newline) {
        FillRegexKeepsOutlook(a, rest, out, p, f.rest);
      } else {
        FetchKeepsOutlook(a, rest, out, p);
      }
    }
  }

  // ---------- every turn of the main loop keeps the outlook ----------

  function After(s: State): string
    requires s.a.Ch?
  {
    if Choose(s.a.c, s.b).WriteA? then s.out + [s.a.c] else s.out
  }

  lemma BlankKeepsOutlook(s: State, p: Point)
    requires s.a.Ch? && s.b.Ch? && IsBlank(s.b.c) && AtPoint(s, p)
    ensures Leads(Apply(Choose(s.a.c, s.b), s), Outlook(s, p))
  {
    var p1 := p.(gap := p.gap + p.raw, newline := p.newline || s.b == Ch('\n'), raw := "");
    var a1 := if Choose(s.a.c, s.b).DropB? then s.a else s.b;
    assert After(s) + Pending(a1) == s.out + Pending(s.a);
    FillKeepsOutlook(a1, s.rest, After(s), p1);
  }

  lemma WritesSeparator(s: State, p: Point)
    requires s.a.Ch? && s.b.Ch? && !IsBlank(s.b.c) && AtPoint(s, p)
    ensures !Choose(s.a.c, s.b).DropB?
    ensures After(s) == s.out + Pending(s.a) + Separator(p.left, p.gap, p.newline, s.b.c)
  {
  }

  lemma PlainKeepsOutlook(out: string, p: Point, c: char, rest: string)
    requires !IsBlank(c)
    ensures Leads(FillB(Ch(c), rest, out + Separator(p.left, p.gap, p.newline, c)),
                  RenderAfter(out, p.left, Cons(Item(p.gap, p.newline, Plain(c)), Lex(c, "", false, rest))))
  {
    RenderFirst(out, p.left, Item(p.gap, p.newline, Plain(c)), Lex(c, "", false, rest));
    FillKeepsOutlook(Ch(c), rest, out + Separator(p.left, p.gap, p.newline, c), Point(c, "", false, ""));
  }

  lemma StringKeepsOutlook(out: string, p: Point, q: char, rest: string, k: nat)
    requires IsQuote(q) && 1 <= k <= |rest| && rest[k - 1] == q
    ensures Leads(FillB(Ch(q), rest[k..], out + Separator(p.left, p.gap, p.newline, q) + [q] + rest[..k - 1]),
                  RenderAfter(out, p.left, Cons(Item(p.gap, p.newline, Str([q] + rest[..k])), Lex(q, "", false, rest[k..]))))
  {
    var sep := Separator(p.left, p.gap, p.newline, q);
    var written := out + sep + [q] + rest[..k - 1];
    assert rest[..k] == rest[..k - 1] + [q];
    LiteralKeepsOutlook(out, p.left, Item(p.gap, p.newline, Str([q] + rest[..k])), rest[..k - 1], q,
                        Lex(q, "", false, rest[k..]));
    assert out + sep + ([q] + (rest[..k - 1] + [q])) == written + [q];
    FillKeepsOutlook(Ch(q), rest[k..], written, Point(q, "", false, ""));
  }

  lemma TurnKeepsOutlook(s: State, p: Point)
    requires s.a.Ch? && AtPoint(s, p)
    ensures Leads(Apply(Choose(s.a.c, s.b), s), Outlook(s, p))
  {
    if s.b.Eof? {
      assert After(s) == s.out + Pending(s.a) == s.out + Pending(s.a) + Render(p.left, []);
    } else if IsBlank(s.b.c) {
      BlankKeepsOutlook(s, p);
    } else {
      WritesSeparator(s, p);
      if IsQuote(s.b.c) {
        var k := LiteralEnd(s.b.c, s.rest);
        if k.Some? {
          StringKeepsOutlook(s.out + Pending(s.a), p, s.b.c, s.rest, k.value);
        }
      } else {
        PlainKeepsOutlook(s.out + Pending(s.a), p, s.b.c, s.rest);
      }
    }
  }

  // ---------- the main loop ends ----------

  function Measure(s: State): nat {
    |s.rest| + (if s.a.Ch? then 1 else 0) + (if s.b.Ch? then 1 else 0)
  }

  lemma FetchShrinks(a: Sym, rest: string, out: string)
    requires a.Ch?
    ensures FetchB(a, rest, out).Ok? ==> Measure(FetchB(a, rest, out).value) <= |rest| + 1
  {
  }

  lemma FillShrinks(a: Sym, rest: string, out: string)
    ensures FillB(a, rest, out).Ok? ==> Measure(FillB(a, rest, out).value) <= |rest| + if a.Ch? then 1 else 0
  {
    var f := NextSym(rest);
    if f.Fetched? && f.sym == Ch('/') && RegexMayFollow(a) && LiteralEnd('/', f.rest).Some? {
      var k := LiteralEnd('/', f.rest).value;
      FetchShrinks(Ch('/'), f.rest[k..], out + [a.c] + "/" + f.rest[..k - 1]);
    }
  }

  lemma CopyShrinks(s: State)
    ensures CopyB(s).Ok? ==> Measure(CopyB(s).value) <= |s.rest| + if s.b.Ch? then 1 else 0
  {
    var t := TakeB(s);
    if t.Ok? {
      FillShrinks(t.value.0, t.value.1, t.value.2);
    }
  }

  lemma TurnShrinks(s: State)
    requires s.a.Ch? && (s.b.Eof? ==> s.rest == "")
    ensures Apply(Choose(s.a.c, s.b), s).Ok? ==> Measure(Apply(Choose(s.a.c, s.b), s).value) < Measure(s)
  {
    match Choose(s.a.c, s.b)
    case WriteA => CopyShrinks(s.(out := s.out + [s.a.c]));
    case DropA => CopyShrinks(s);
    case DropB => FillShrinks(s.a, s.rest, s.out);
  }

  lemma TurnLeads(s: State, goal: Result<string, Error>)
    requires s.a.Ch? && Leads(Ok(s), goal)
    ensures var r := Apply(Choose(s.a.c, s.b), s);
            Leads(r, goal) && (r.Ok? ==> Measure(r.value) < Measure(s))
  {
    var p :| AtPoint(s, p) && Outlook(s, p) == goal;
    TurnKeepsOutlook(s, p);
    TurnShrinks(s);
  }

  lemma StartLeads(input: string, b: Sym)
    ensures Leads(Apply(DropB, State(Ch('\n'), b, TranslateAll(input), "")), Minify(input))
  {
    FillKeepsOutlook(Ch('\n'), TranslateAll(input), "", Point('\n', "", false, ""));
    var lexed := LexAll(TranslateAll(input));
    if lexed.Lexed? {
      assert "" + Pending(Ch('\n')) + Render('\n', lexed.items) == Render('\n', lexed.items);
    }
  }

  lemma EndLeads(s: State, goal: Result<string, Error>)
    requires s.a.Eof? && Leads(Ok(s), goal)
    ensures goal == Ok(s.out)
  {
  }

  // ---------- copying a literal through ----------

  // With a the last character read and rest to come: the output once the literal closed by
  // q has been copied but for its last character, and what then remains.
  function CopiedLiteral(q: char, a: char, rest: string, out: string): Option<(string, string)>
    decreases |rest|
  {
    if rest == "" then None
    else if rest[0] == q then Some((out + [a], rest[1..]))
    else if rest[0] == '\\' then
      if rest[1..] == "" then None else CopiedLiteral(q, rest[1..][0], rest[1..][1..], out + [a] + [rest[0]])
    else CopiedLiteral(q, rest[0], rest[1..], out + [a])
  }

  lemma CopiedToItsEnd(q: char, a: char, rest: string, out: string)
    ensures CopiedLiteral(q, a, rest, out)
         == match LiteralEnd(q, rest)
            case None => None
            case Some(n) => Some((out + [a] + rest[..n - 1], rest[n..]))
    decreases |rest|
  {
    if rest != "" && rest[0] == q {
      assert out + [a] + rest[..0] == out + [a];
    } else if |rest| > 1 || (rest != "" && rest[0] != '\\') {
      var step := if rest[0] == '\\' then 2 else 1;
      var more := rest[step..];
      assert rest[1..][step - 1..] == more;
      CopiedToItsEnd(q, rest[step - 1], more, out + [a] + rest[..step - 1]);
      assert step == 1 ==> out + [a] + rest[..0] == out + [a];
      assert step == 2 ==> rest[..1] == [rest[0]];
      if LiteralEnd(q, more).Some? {
        SplitCopy(out + [a], rest, step, LiteralEnd(q, more).value);
      }
    }
  }

  lemma SplitCopy(out: string, rest: string, step: nat, n: nat)
    requires 1 <= step <= 2 && 1 <= n <= |rest| - step
    ensures out + rest[..n + step - 1] == out + rest[..step - 1] + [rest[step - 1]] + rest[step..][..n - 1]
    ensures rest[n + step..] == rest[step..][n..]
  {
    assert rest[..n + step - 1] == rest[..step - 1] + [rest[step - 1]] + rest[step..][..n - 1];
  }

  // ---------- the machine itself ----------

  class Minifier {
    const input: string
    var pos: nat
    var theA: Sym
    var theB: Sym
    var theLookahead: Sym
    var output: string

    constructor (input: string)
      ensures Valid() && Rest() == TranslateAll(input) && output == ""
    {
      this.input := input;
      pos := 0;
      theA, theB, theLookahead := Eof, Eof, Eof;
      output := "";
    }

    ghost predicate Valid()
      reads this`pos, this`theLookahead
    {
      && pos <= |input|
      && (theLookahead.Ch? ==> Translate(theLookahead.c) == theLookahead.c)
    }

    // The characters still to come, as get() will deliver them.
    ghost function Rest(): string
      requires Valid()
      reads this`pos, this`theLookahead
    {
      (if theLookahead.Ch? then [theLookahead.c] else "") + TranslateAll(input[pos..])
    }

    ghost function Abs(): State
      requires Valid()
      reads this
    {
      State(theA, theB, Rest(), output)
    }

    method Getc() returns (c: Sym)
      requires Valid() && theLookahead.Eof?
      modifies this`pos
      ensures Valid()
      ensures c.Eof? <==> old(Rest()) == ""
      ensures c.Eof? ==> Rest() == ""
      ensures c.Ch? ==> old(Rest()) == [Translate(c.c)] + Rest()
    {
      if pos == |input| {
        return Eof;
      }
      c := Ch(input[pos]);
      pos := pos + 1;
    }

    method Get() returns (c: Sym)
      requires Valid()
      modifies this`pos, this`theLookahead
      ensures Valid() && theLookahead.Eof?
      ensures c.Eof? <==> old(Rest()) == ""
      ensures c.Eof? ==> Rest() == ""
      ensures c.Ch? ==> c.c == old(Rest())[0] && Rest() == old(Rest())[1..] && Translate(c.c) == c.c
    {
      ghost var t := Rest();
      c := theLookahead;
      theLookahead := Eof;
      if c.Eof? {
        c := Getc();
      }
      assert c.Ch? ==> [Translate(c.c)] + Rest() == t;
      if c.Eof? || c.c >= ' ' || c.c == '\n' {
        return c;
      }
      if c.c == '\r' {
        return Ch('\n');
      }
      return Ch(' ');
    }

    method Peek() returns (c: Sym)
      requires Valid()
      modifies this`pos, this`theLookahead
      ensures Valid() && Rest() == old(Rest())
      ensures c == if Rest() == "" then Eof else Ch(Rest()[0])
    {
      var d := Get();
      theLookahead := d;
      return theLookahead;
    }

    // The tail of a line comment: up to and including the newline.
    method SkipLine() returns (c: Sym)
      requires Valid()
      modifies this`pos, this`theLookahead
      ensures Valid()
      ensures var t := DropLine(old(Rest()));
              if t == "" then c == Eof && Rest() == "" else c == Ch('\n') && Rest() == t[1..]
    {
      while true
        invariant Valid() && DropLine(Rest()) == DropLine(old(Rest()))
        decreases |Rest()|
      {
        c := Get();
        if c.Eof? || c.c <= '\n' {
          return;
        }
      }
    }

    // The tail of a block comment: up to and including the closing pair.
    method SkipBlock() returns (closed: bool)
      requires Valid()
      modifies this`pos, this`theLookahead
      ensures Valid()
      ensures match CloseComment(old(Rest()))
              case None => !closed
              case Some(t) => closed && Rest() == t
    {
      while true
        invariant Valid() && CloseComment(Rest()) == CloseComment(old(Rest()))
        decreases |Rest()|
      {
        ghost var t := Rest();
        var c := Get();
        if c == Ch('*') {
          c := Peek();
          if c == Ch('/') {
            c := Get();
            assert Rest() == t[2..];
            return true;
          }
        } else if c.Eof? {
          return false;
        }
      }
    }

    method Next() returns (r: Result<Sym, Error>)
      requires Valid()
      modifies this`pos, this`theLookahead
      ensures Valid()
      ensures match NextSym(old(Rest()))
              case OpenComment => r == Err(UnterminatedComment)
              case Fetched(sym, rest) => r == Ok(sym) && Rest() == rest
    {
      ghost var t := Rest();
      var c := Get();
      if c == Ch('/') {
        var d := Peek();
        assert |t| > 1 ==> t[1..][1..] == t[2..];
        if d == Ch('/') {
          c := SkipLine();
          assert DropLine(t[1..]) == DropLine(t[2..]);
        } else if d == Ch('*') {
          d := Get();
          var closed := SkipBlock();
          return if closed then Ok(Ch(' ')) else Err(UnterminatedComment);
        }
      }
      return Ok(c);
    }

    // Copy a string through, theA holding its opening quote.  The closing quote is left in
    // theA, not yet written.
    method CopyString(ghost q: char) returns (ok: bool)
      requires Valid() && theA == theB == Ch(q)
      modifies this`pos, this`theLookahead, this`theA, this`output
      ensures Valid()
      ensures match CopiedLiteral(q, q, old(Rest()), old(output))
              case None => !ok
              case Some((out, rest)) => ok && theA == Ch(q) && output == out && Rest() == rest
    {
      ghost var goal := CopiedLiteral(q, q, Rest(), output);
      while true
        invariant Valid() && theA.Ch?
        invariant CopiedLiteral(q, theA.c, Rest(), output) == goal
        decreases |Rest()|
      {
        output := output + [theA.c];
        theA := Get();
        if theA == theB {
          return true;
        }
        if theA == Ch('\\') {
          output := output + [theA.c];
          theA := Get();
        }
        if theA.Eof? {
          return false;
        }
      }
    }

    // Copy a regular expression through; the closing slash is left in theA, not yet written.
    method CopyRegex() returns (ok: bool)
      requires Valid() && theA.Ch? && theB == Ch('/')
      modifies this`pos, this`theLookahead, this`theA, this`output
      ensures Valid()
      ensures match CopiedLiteral('/', '/', old(Rest()), old(output) + [old(theA).c])
              case None => !ok
              case Some((out, rest)) => ok && theA == Ch('/') && output == out && Rest() == rest
    {
      ghost var goal := CopiedLiteral('/', '/', Rest(), output + [theA.c]);
      output := output + [theA.c];
      ghost var out, last := output, '/';
      output := output + [theB.c];
      while true
        invariant Valid() && output == out + [last]
        invariant CopiedLiteral('/', last, Rest(), out) == goal
        decreases |Rest()|
      {
        theA := Get();
        if theA == Ch('/') {
          return true;
        }
        if theA == Ch('\\') {
          output := output + [theA.c];
          theA := Get();
        }
        if theA.Eof? {
          return false;
        }
        out, last := output, theA.c;
        output := output + [theA.c];
      }
    }

    method Fetch() returns (failure: Option<Error>)
      requires Valid()
      modifies this`pos, this`theLookahead, this`theB
      ensures Valid()
      ensures match FetchB(theA, old(Rest()), output)
              case Err(e) => failure == Some(e)
              case Ok(s) => failure == None && Abs() == s
    {
      var b := Next();
      if b.Err? {
        return Some(b.error);
      }
      theB := b.value;
      return None;
    }

    // The same, with what was copied.
    method CopyWholeRegex() returns (ok: bool)
      requires Valid() && theA.Ch? && theB == Ch('/')
      modifies this`pos, this`theLookahead, this`theA, this`output
      ensures Valid()
      ensures match LiteralEnd('/', old(Rest()))
              case None => !ok
              case Some(k) =>
                && ok && theA == Ch('/') && Rest() == old(Rest())[k..]
                && output == old(output) + [old(theA).c] + ['/'] + old(Rest())[..k - 1]
    {
      CopiedToItsEnd('/', '/', Rest(), output + [theA.c]);
      ok := CopyRegex();
    }

    // A regular expression begins in theB: copy it through and fetch what follows it.
    method CopyRegexThrough() returns (failure: Option<Error>)
      requires Valid() && theA.Ch? && theB == Ch('/')
      modifies this
      ensures Valid()
      ensures match RegexCopied(old(theA).c, old(Rest()), old(output))
              case Err(e) => failure == Some(e)
              case Ok(s) => failure == None && Abs() == s
    {
      var ok := CopyWholeRegex();
      if !ok {
        return Some(UnterminatedRegex);
      }
      failure := Fetch();
    }

    // The third case of action.
    method Fill() returns (failure: Option<Error>)
      requires Valid()
      modifies this
      ensures Valid()
      ensures match FillB(old(theA), old(Rest()), old(output))
              case Err(e) => failure == Some(e)
              case Ok(s) => failure == None && Abs() == s
    {
      failure := Fetch();
      if failure.None? && theB == Ch('/') && RegexMayFollow(theA) {
        failure := CopyRegexThrough();
      }
    }

    // The first half of the second case of action.
    method MoveB() returns (ok: bool)
      requires Valid()
      modifies this`pos, this`theLookahead, this`theA, this`output
      ensures Valid()
      ensures match TakeB(old(Abs()))
              case Err(e) => !ok && e == UnterminatedString
              case Ok((a, rest, out)) => ok && theA == a && Rest() == rest && output == out
    {
      ok := true;
      theA := theB;
      if theA.Ch? && IsQuote(theA.c) {
        CopiedToItsEnd(theA.c, theA.c, Rest(), output);
        ok := CopyString(theA.c);
      }
    }

    method Action(d: Act) returns (failure: Option<Error>)
      requires Valid() && (d.WriteA? ==> theA.Ch?)
      modifies this
      ensures Valid()
      ensures match Apply(d, old(Abs()))
              case Err(e) => failure == Some(e)
              case Ok(s) => failure == None && Abs() == s
    {
      if d.WriteA? {
        output := output + [theA.c];
      }
      if !d.DropB? {
        var ok := MoveB();
        if !ok {
          return Some(UnterminatedString);
        }
      }
      failure := Fill();
    }

    // One turn of the main loop.
    method Turn(ghost goal: Result<string, Error>) returns (failure: Option<Error>)
      requires Valid() && theA.Ch? && Leads(Ok(Abs()), goal)
      modifies this
      ensures Valid()
      ensures failure.None? ==> Leads(Ok(Abs()), goal) && Measure(Abs()) < old(Measure(Abs()))
      ensures failure.Some? ==> goal == Err(failure.value)
    {
      TurnLeads(Abs(), goal);
      failure := Action(Choose(theA.c, theB));
    }

    method Run() returns (failure: Option<Error>)
      requires Valid() && Rest() == TranslateAll(input) && output == ""
      modifies this
      ensures match Minify(input)
              case Err(e) => failure == Some(e)
              case Ok(text) => failure == None && output == text
    {
      ghost var goal := Minify(input);
      theA := Ch('\n');
      StartLeads(input, theB);
      failure := Action(DropB);
      while failure.None? && theA.Ch?
        invariant Valid()
        invariant failure.None? ==> Leads(Ok(Abs()), goal)
        invariant failure.Some? ==> goal == Err(failure.value)
        decreases failure.None?, Measure(Abs())
      {
        failure := Turn(goal);
      }
      if failure.None? {
        EndLeads(Abs(), goal);
      }
    }
  }
}
