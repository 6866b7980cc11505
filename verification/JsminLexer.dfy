/** The reference reading of jsmin: cut the text into lexemes separated by gaps of
    blanks and comments, then write the lexemes joined by separators.  The character
    machine of maketool/jsmin.c is proved against this in JsminMachine.dfy. */
module JsminLexer {
  import opened Wrappers

  // What getc can deliver.
  datatype Sym = Eof | Ch(c: char)

  datatype Error = UnterminatedComment | UnterminatedString | UnterminatedRegex

  predicate IsAlphanum(c: char) {
    'a' <= c <= 'z' || '0' <= c <= '9' || 'A' <= c <= 'Z' || c in {'_', '$', '\\'} || c > '~'
  }

  function Translate(c: char): char {
    if c >= ' ' || c == '\n' then c else if c == '\r' then '\n' else ' '
  }

  function TranslateAll(s: string): (t: string)
    ensures |t| == |s|
  {
    seq(|s|, i requires 0 <= i < |s| => Translate(s[i]))
  }

  // ---------- one symbol, comments replaced ----------

  // next() yields a symbol and leaves the rest, or runs off the end of a block comment.
  datatype Fetch = Fetched(sym: Sym, rest: string) | OpenComment

  // The text from the first newline on.
  function DropLine(t: string): (r: string)
    ensures |r| <= |t|
    ensures r != "" ==> r[0] == '\n'
  {
    if t == "" || t[0] == '\n' then t else DropLine(t[1..])
  }

  // The text after the first "*/".
  function CloseComment(t: string): (r: Option<string>)
    ensures r.Some? ==> |r.value| + 2 <= |t|
  {
    if |t| < 2 then None
    else if t[0] == '*' && t[1] == '/' then Some(t[2..])
    else CloseComment(t[1..])
  }

  predicate OpensComment(t: string) {
    |t| >= 2 && t[0] == '/' && t[1] in {'/', '*'}
  }

  function NextSym(t: string): (f: Fetch)
    ensures f.Fetched? && f.sym.Eof? ==> f.rest == ""
    ensures f.Fetched? && f.sym.Ch? ==> |f.rest| < |t|
  {
    if t == "" then Fetched(Eof, "")
    else if !OpensComment(t) then Fetched(Ch(t[0]), t[1..])
    else if t[1] == '/' then
      var r := DropLine(t[2..]);
      if r == "" then Fetched(Eof, "") else Fetched(Ch('\n'), r[1..])
    else
      match CloseComment(t[2..])
      case None => OpenComment
      case Some(r) => Fetched(Ch(' '), r)
  }

  // ---------- lexemes and gaps ----------

  datatype Lexeme = Plain(c: char) | Str(text: string) | Regex(text: string) {
    function Text(): string {
      if Plain? then [c] else text
    }
  }

  // How far a literal closed by q runs, closing character included; a backslash
  // protects the character after it.
  function LiteralEnd(q: char, t: string): (k: Option<nat>)
    ensures k.Some? ==> 1 <= k.value <= |t| && t[k.value - 1] == q
  {
    if t == "" then None
    else if t[0] == q then Some(1)
    else
      var step := if t[0] == '\\' then 2 else 1;
      if |t| < step then None
      else
        match LiteralEnd(q, t[step..])
        case None => None
        case Some(k) => Some(k + step)
  }

  // A lexeme with the text of the gap before it; newline says whether the gap held a
  // newline once its comments are replaced.
  datatype Item = Item(gap: string, newline: bool, lexeme: Lexeme)

  datatype Lexed = Lexed(items: seq<Item>, tail: string) | Failed(error: Error)

  predicate IsQuote(c: char) { c in {'\'', '"'} }

  // The last character of the lexeme on the left decides whether a newline after it can
  // matter.  A newline stands for the start of the text, where one is always assumed.
  predicate KeepsNewline(left: char) {
    IsAlphanum(left) || left in {'}', ']', ')', '+', '-', '"', '\''}
  }

  predicate NewlineHeld(left: char, newline: bool) {
    left == '\n' || (newline && KeepsNewline(left))
  }

  predicate StartsRegex(left: char, newline: bool) {
    NewlineHeld(left, newline) || left in {'(', ',', '=', ':', '[', '!', '&', '|', '?', '{', '}', ';'}
  }

  function Cons(item: Item, more: Lexed): Lexed {
    match more
    case Failed(e) => more
    case Lexed(items, tail) => Lexed([item] + items, tail)
  }

  // Read t, having just read the lexeme ending in left and then the gap so far.
  function Lex(left: char, gap: string, newline: bool, t: string): Lexed
    decreases |t|, 1
  {
    match NextSym(t)
    case OpenComment => Failed(UnterminatedComment)
    case Fetched(sym, rest) => LexSym(left, gap, newline, t[..|t| - |rest|], sym, rest)
  }

  // The same with the next symbol already fetched from the characters raw.
  function LexSym(left: char, gap: string, newline: bool, raw: string, sym: Sym, rest: string): Lexed
    decreases |rest| + (if sym.Ch? then 1 else 0), 0
  {
    match sym
    case Eof => Lexed([], gap + raw)
    case Ch(c) =>
      if c == ' ' then Lex(left, gap + raw, newline, rest)
      else if c == '\n' then Lex(left, gap + raw, true, rest)
      else if IsQuote(c) then
        match LiteralEnd(c, rest)
        case None => Failed(UnterminatedString)
        case Some(k) => Cons(Item(gap, newline, Str([c] + rest[..k])), Lex(c, "", false, rest[k..]))
      else if c == '/' && StartsRegex(left, newline) then
        match LiteralEnd('/', rest)
        case None => Failed(UnterminatedRegex)
        case Some(k) => Cons(Item(gap, newline, Regex("/" + rest[..k])), Lex('/', "", false, rest[k..]))
      else
        Cons(Item(gap, newline, Plain(c)), Lex(c, "", false, rest))
  }

  function LexAll(t: string): Lexed {
    Lex('\n', "", false, t)
  }

  // ---------- writing the lexemes back ----------

  function Separator(left: char, gap: string, newline: bool, right: char): string {
    if NewlineHeld(left, newline) then
      if IsAlphanum(right) || right in {'{', '[', '(', '+', '-', '/'} then "\n" else ""
    else if gap != "" && IsAlphanum(left) && IsAlphanum(right) then " "
    else ""
  }

  function LastChar(left: char, x: Lexeme): char {
    var s := x.Text();
    if s == "" then left else s[|s| - 1]
  }

  function FirstChar(x: Lexeme): char {
    var s := x.Text();
    if s == "" then ' ' else s[0]
  }

  function Render(left: char, items: seq<Item>): string
    decreases |items|
  {
    if items == [] then ""
    else
      var it := items[0];
      Separator(left, it.gap, it.newline, FirstChar(it.lexeme)) + it.lexeme.Text()
      + Render(LastChar(left, it.lexeme), items[1..])
  }

  // What jsmin writes for an input, or why it gives up.
  function Minify(input: string): Result<string, Error> {
    match LexAll(TranslateAll(input))
    case Failed(e) => Err(e)
    case Lexed(items, tail) => Ok(Render('\n', items))
  }
}
