/** Token recognition of the POSIX shell (IEEE Std 1003.1-2017, XCU sections 2.2.1 to 2.2.3 and 2.3) as a
    character automaton: quotes are removed, operators are cut off as long as possible, and an expansion
    is kept as text while its own quotes and brackets are matched. Comments and backquotes are refused. */
module ShellLexer {
  import opened Text

  datatype Token = Word(text: string) | IoNumber(text: string) | Op(text: string)

  /** What an expansion still has to see, the innermost first. */
  datatype Frame = Paren | Brace | Dquote | Squote | Backslash | Dollar

  datatype Mode =
    | Plain
    | Escaped
    | Single
    | Double
    | DoubleEscaped
    | Expanding(stack: seq<Frame>, inDouble: bool)
    | Operator(op: string)
    | Refused

  /** `word` is the word being read, `numeric` says that it is unquoted digits so far. */
  datatype Lexer = Lexer(mode: Mode, word: Option<string>, numeric: bool)

  const START: Lexer := Lexer(Plain, None, false)

  predicate IsBlank(c: char) { c == ' ' || c == '\t' }

  predicate IsOperatorChar(c: char) { c == '&' || c == '|' || c == ';' || c == '<' || c == '>' }

  predicate IsOperator(s: string) {
    s == "&&" || s == "||" || s == ";;" || s == "<<" || s == ">>" || s == "<&" || s == ">&" || s == "<>" || s == ">|"
      || s == "<<-"
  }

  function Spelled(l: Lexer): string {
    match l.word case Some(w) => w case None => ""
  }

  function Take(l: Lexer, mode: Mode, s: string, numeric: bool): Lexer {
    Lexer(mode, Some(Spelled(l) + s), numeric)
  }

  /** The word read so far, delimited by c. */
  function Flush(l: Lexer, c: char): seq<Token> {
    match l.word
    case None => []
    case Some(w) => if l.numeric && (c == '<' || c == '>') then [IoNumber(w)] else [Word(w)]
  }

  function PlainStep(l: Lexer, c: char): (Lexer, seq<Token>) {
    if IsBlank(c) then (START, Flush(l, c))
    else if c == '\n' || c == '(' || c == ')' then (START, Flush(l, c) + [Op([c])])
    else if IsOperatorChar(c) then (START.(mode := Operator([c])), Flush(l, c))
    else if c == '\'' then (Take(l, Single, "", false), [])
    else if c == '"' then (Take(l, Double, "", false), [])
    else if c == '\\' then (Take(l, Escaped, "", false), [])
    else if c == '$' then (Take(l, Expanding([Dollar], false), "$", false), [])
    else if c == '`' || (c == '#' && l.word.None?) then (l.(mode := Refused), [])
    else (Take(l, Plain, [c], IsDigit(c) && (l.word.None? || l.numeric)), [])
  }

  /** What an expansion looks like after c; an empty stack means that it is complete. */
  function Unwind(stack: seq<Frame>, c: char): Option<seq<Frame>> {
    if stack == [] then Some([])
    else
      var rest := stack[1..];
      match stack[0]
      case Paren =>
        if c == ')' then Some(rest)
        else if c == '(' then Some([Paren] + stack)
        else Some(Quoting(stack, c, true))
      case Brace =>
        if c == '}' then Some(rest) else if c == '\'' then None else Some(Quoting(stack, c, false))
      case Dquote => if c == '"' then Some(rest) else Some(Quoting(stack, c, false))
      case Squote => if c == '\'' then Some(rest) else Some(stack)
      case Backslash => Some(rest)
      case Dollar =>
        if c == '(' then Some([Paren] + rest)
        else if c == '{' then Some([Brace] + rest)
        else Unwind(rest, c)
  }

  function Quoting(stack: seq<Frame>, c: char, single: bool): seq<Frame> {
    if c == '\\' then [Backslash] + stack
    else if c == '$' then [Dollar] + stack
    else if c == '"' then [Dquote] + stack
    else if c == '\'' && single then [Squote] + stack
    else stack
  }

  predicate IsNameChar(c: char) { IsDigit(c) || 'a' <= c <= 'z' || 'A' <= c <= 'Z' || c == '_' }

  function Step(l: Lexer, c: char): (Lexer, seq<Token>) {
    match l.mode
    case Plain => PlainStep(l, c)
    case Escaped => (if c == '\n' then l.(mode := Plain) else Take(l, Plain, [c], false), [])
    case Single => (if c == '\'' then l.(mode := Plain) else Take(l, Single, [c], false), [])
    case Double =>
      (if c == '"' then l.(mode := Plain)
       else if c == '\\' then l.(mode := DoubleEscaped)
       else if c == '$' then Take(l, Expanding([Dollar], true), "$", false)
       else if c == '`' then l.(mode := Refused)
       else Take(l, Double, [c], false), [])
    case DoubleEscaped =>
      (if c == '\n' then l.(mode := Double)
       else Take(l, Double, if c in "$`\"\\" then [c] else ['\\', c], false), [])
    case Expanding(stack, inDouble) =>
      (match if stack == [Dollar] && c != '(' && c != '{' && !IsNameChar(c) then None else Unwind(stack, c)
       case Some(rest) =>
         var mode := if rest != [] then Expanding(rest, inDouble) else if inDouble then Double else Plain;
         (Take(l, mode, [c], false), [])
       case None => (l.(mode := Refused), []))
    case Operator(op) =>
      if IsOperator(op + [c]) then (l.(mode := Operator(op + [c])), [])
      else var (l', ts) := PlainStep(START, c); (l', [Op(op)] + ts)
    case Refused => (l, [])
  }

  function Scan(l: Lexer, s: string): (Lexer, seq<Token>)
    decreases |s|
  {
    if s == "" then (l, [])
    else
      var (l1, t1) := Step(l, s[0]);
      var (l2, t2) := Scan(l1, s[1..]);
      (l2, t1 + t2)
  }

  function Prefixed(ts: seq<Token>, r: Option<seq<Token>>): Option<seq<Token>> {
    match r case Some(us) => Some(ts + us) case None => None
  }

  /** What the end of the command still delivers; None when a quote or an expansion is left open. */
  function Finish(l: Lexer): Option<seq<Token>> {
    match l.mode
    case Plain => Some(Flush(l, ' '))
    case Operator(op) => Some([Op(op)])
    case _ => None
  }

  /** The tokens of the text s read from l on, s being the rest of the command. */
  function Complete(l: Lexer, s: string): Option<seq<Token>> {
    var (l', ts) := Scan(l, s);
    Prefixed(ts, Finish(l'))
  }

  function Tokens(s: string): Option<seq<Token>> {
    Complete(START, s)
  }

  lemma {:induction false} ScanAppend(l: Lexer, a: string, b: string)
    ensures var (l1, t1) := Scan(l, a); var (l2, t2) := Scan(l1, b); Scan(l, a + b) == (l2, t1 + t2)
    decreases |a|
  {
    hide Step;
    if a == "" {
      assert a + b == b;
      assert [] + Scan(l, b).1 == Scan(l, b).1;
    } else {
      assert (a + b)[1..] == a[1..] + b;
      var (l1, t1) := Step(l, a[0]);
      ScanAppend(l1, a[1..], b);
      var (l2, t2) := Scan(l1, a[1..]);
      assert t1 + (t2 + Scan(l2, b).1) == t1 + t2 + Scan(l2, b).1;
    }
  }

  lemma PrefixedTwice(a: seq<Token>, b: seq<Token>, r: Option<seq<Token>>)
    ensures Prefixed(a, Prefixed(b, r)) == Prefixed(a + b, r)
  {
    if r.Some? {
      assert a + (b + r.value) == a + b + r.value;
    }
  }

  lemma PrefixNothing(r: Option<seq<Token>>)
    ensures Prefixed([], r) == r
  {
    if r.Some? {
      assert [] + r.value == r.value;
    }
  }

  lemma CompleteAppend(l: Lexer, a: string, b: string)
    ensures Complete(l, a + b) == Prefixed(Scan(l, a).1, Complete(Scan(l, a).0, b))
  {
    ScanAppend(l, a, b);
    var (l1, t1) := Scan(l, a);
    var (l2, t2) := Scan(l1, b);
    PrefixedTwice(t1, t2, Finish(l2));
    hide Step, Scan, Finish, Prefixed;
  }

  // ---------------------------------------------------------------- quoting

  /** strings.ReplaceAll(s, "'", `'\''`). */
  function EscapeQuotes(s: string): string {
    if s == "" then "" else (if s[0] == '\'' then "'\\''" else [s[0]]) + EscapeQuotes(s[1..])
  }

  /** shellQuote of internal/deploy/ssh.go. */
  function ShellQuote(s: string): string {
    "'" + EscapeQuotes(s) + "'"
  }

  lemma ScanOne(l: Lexer, c: char, rest: string)
    ensures var (l1, t1) := Step(l, c); var (l2, t2) := Scan(l1, rest); Scan(l, [c] + rest) == (l2, t1 + t2)
  {
    hide Step;
    assert ([c] + rest)[1..] == rest;
  }

  /** A step that emits nothing. */
  lemma ScanSilent(l: Lexer, c: char, rest: string, l1: Lexer)
    requires Step(l, c) == (l1, [])
    ensures Scan(l, [c] + rest) == Scan(l1, rest)
  {
    hide Step;
    ScanOne(l, c, rest);
    var us := Scan(l1, rest).1;
    assert [] + us == us;
  }

  lemma QuoteEscape(w: string, rest: string)
    ensures Scan(Lexer(Single, Some(w), false), "'\\''" + rest) == Scan(Lexer(Single, Some(w + "'"), false), rest)
  {
    var r2 := ['\''] + rest;
    var r3 := ['\''] + r2;
    var r4 := ['\\'] + r3;
    assert "'\\''" + rest == ['\''] + r4;
    assert w + "" == w && w + "'" + "" == w + "'" && w + ['\''] == w + "'";
    ScanSilent(Lexer(Single, Some(w), false), '\'', r4, Lexer(Plain, Some(w), false));
    ScanSilent(Lexer(Plain, Some(w), false), '\\', r3, Lexer(Escaped, Some(w), false));
    ScanSilent(Lexer(Escaped, Some(w), false), '\'', r2, Lexer(Plain, Some(w + "'"), false));
    ScanSilent(Lexer(Plain, Some(w + "'"), false), '\'', rest, Lexer(Single, Some(w + "'"), false));
  }

  lemma ScanNothing(l: Lexer)
    ensures Scan(l, "") == (l, [])
  {
  }

  lemma {:induction false} InsideQuotes(w: string, s: string)
    ensures Scan(Lexer(Single, Some(w), false), EscapeQuotes(s) + "'") == (Lexer(Plain, Some(w + s), false), [])
    decreases |s|
  {
    hide Scan;
    if s == "" {
      assert w + s == w;
      assert EscapeQuotes(s) + "'" == ['\''] + "";
      ScanNothing(Lexer(Plain, Some(w), false));
      ScanSilent(Lexer(Single, Some(w), false), '\'', "", Lexer(Plain, Some(w), false));
    } else {
      var rest := EscapeQuotes(s[1..]) + "'";
      InsideQuotes(w + [s[0]], s[1..]);
      assert w + [s[0]] + s[1..] == w + s;
      if s[0] == '\'' {
        assert EscapeQuotes(s) + "'" == "'\\''" + rest;
        assert w + [s[0]] == w + "'";
        QuoteEscape(w, rest);
      } else {
        assert EscapeQuotes(s) + "'" == [s[0]] + rest;
        ScanSilent(Lexer(Single, Some(w), false), s[0], rest, Lexer(Single, Some(w + [s[0]]), false));
      }
    }
  }

  /** Whatever s holds, its quoted form adds exactly s to the current word. */
  lemma QuotedIsLiteral(l: Lexer, s: string)
    requires l.mode == Plain
    ensures Scan(l, ShellQuote(s)) == (Lexer(Plain, Some(Spelled(l) + s), false), [])
  {
    var rest := EscapeQuotes(s) + "'";
    assert ShellQuote(s) == ['\''] + rest;
    assert Spelled(l) + "" == Spelled(l);
    ScanSilent(l, '\'', rest, Lexer(Single, Some(Spelled(l)), false));
    InsideQuotes(Spelled(l), s);
  }
}
