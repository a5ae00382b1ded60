/** Printing shell text from its intended tokens, and the proof that the lexer reads the tokens back.

    A word is a list of parts, each plain, quoted, or an expansion with its own nested text; tokens are separated by
    blanks or stand directly behind each other where nothing runs together. */
module ShellText {
  import opened Text
  import opened ShellLexer

  // ---------------------------------------------------------------- text inside an expansion

  /** What stands between the brackets of an expansion: plain text, quoted text, further expansions. */
  datatype Nest =
    | Calm(s: string)
    | Apostrophed(s: string)
    | Quoted(inner: seq<Nest>)
    | Command(inner: seq<Nest>)
    | Parameter(inner: seq<Nest>)

  function NestText(n: Nest): string {
    match n
    case Calm(s) => s
    case Apostrophed(s) => "'" + s + "'"
    case Quoted(inner) => "\"" + NestsText(inner) + "\""
    case Command(inner) => "$(" + NestsText(inner) + ")"
    case Parameter(inner) => "${" + NestsText(inner) + "}"
  }

  function NestsText(ns: seq<Nest>): string {
    if ns == [] then "" else NestText(ns[0]) + NestsText(ns[1..])
  }

  predicate IsCalm(c: char) {
    c != '\'' && c != '"' && c != '\\' && c != '$' && c != '`' && c != '(' && c != ')' && c != '{' && c != '}'
  }

  predicate AllCalm(s: string) { forall i :: 0 <= i < |s| ==> IsCalm(s[i]) }

  /** The text may stand directly below `top`: apostrophes quote only inside a command substitution. */
  predicate NestFits(n: Nest, top: Frame) {
    match n
    case Calm(s) => AllCalm(s)
    case Apostrophed(s) => top == Paren && '\'' !in s
    case Quoted(inner) => NestsFit(inner, Dquote) && top != Dquote
    case Command(inner) => NestsFit(inner, Paren)
    case Parameter(inner) => NestsFit(inner, Brace)
  }

  predicate NestsFit(ns: seq<Nest>, top: Frame) {
    ns == [] || (NestFits(ns[0], top) && NestsFit(ns[1..], top))
  }

  predicate Holds(f: Frame) { f == Paren || f == Brace || f == Dquote }

  function In(stack: seq<Frame>, d: bool, w: string): Lexer {
    Lexer(Expanding(stack, d), Some(w), false)
  }

  lemma SilentAppend(l: Lexer, a: string, b: string, l1: Lexer)
    requires Scan(l, a) == (l1, [])
    ensures Scan(l, a + b) == Scan(l1, b)
  {
    hide Step;
    ScanAppend(l, a, b);
    var us := Scan(l1, b).1;
    assert [] + us == us;
  }

  lemma StackStep(stack: seq<Frame>, d: bool, w: string, c: char, next: seq<Frame>, rest: string)
    requires stack != [] && stack != [Dollar] && next != [] && Unwind(stack, c) == Some(next)
    ensures Scan(In(stack, d, w), [c] + rest) == Scan(In(next, d, w + [c]), rest)
  {
    ScanSilent(In(stack, d, w), c, rest, In(next, d, w + [c]));
  }

  lemma {:induction false} RunKept(s: string, stack: seq<Frame>, d: bool, w: string)
    requires stack != [] && stack != [Dollar]
    requires forall i :: 0 <= i < |s| ==> Unwind(stack, s[i]) == Some(stack)
    ensures Scan(In(stack, d, w), s) == (In(stack, d, w + s), [])
    decreases |s|
  {
    hide Step;
    if s == "" {
      assert w + s == w;
    } else {
      assert s == [s[0]] + s[1..];
      StackStep(stack, d, w, s[0], stack, s[1..]);
      RunKept(s[1..], stack, d, w + [s[0]]);
      assert w + [s[0]] + s[1..] == w + s;
    }
  }

  /** A bracketed piece: `open` pushes a frame, the inside keeps it, `close` pops it. */
  lemma RunBracketed(open: string, body: string, close: char, stack: seq<Frame>, top: Frame, d: bool, w: string)
    requires stack != [] && Holds(stack[0])
    requires Scan(In(stack, d, w), open) == (In([top] + stack, d, w + open), [])
    requires Scan(In([top] + stack, d, w + open), body) == (In([top] + stack, d, w + open + body), [])
    requires Unwind([top] + stack, close) == Some(stack)
    ensures Scan(In(stack, d, w), open + body + [close]) == (In(stack, d, w + (open + body + [close])), [])
  {
    hide Step, Unwind, Scan, In, Holds;
    var l := In(stack, d, w);
    assert open + body + [close] == open + (body + [close]);
    SilentAppend(l, open, body + [close], In([top] + stack, d, w + open));
    SilentAppend(In([top] + stack, d, w + open), body, [close] + "", In([top] + stack, d, w + open + body));
    assert body + ([close] + "") == body + [close];
    StackStep([top] + stack, d, w + open + body, close, stack, "");
    ScanNothing(In(stack, d, w + open + body + [close]));
    assert w + open + body + [close] == w + (open + body + [close]);
  }

  lemma OpenDollar(c: char, top: Frame, stack: seq<Frame>, d: bool, w: string)
    requires stack != [] && Holds(stack[0]) && ((c == '(' && top == Paren) || (c == '{' && top == Brace))
    ensures Scan(In(stack, d, w), ['$', c]) == (In([top] + stack, d, w + ['$', c]), [])
  {
    assert ['$', c] == ['$'] + ([c] + "");
    StackStep(stack, d, w, '$', [Dollar] + stack, [c] + "");
    assert ([Dollar] + stack)[1..] == stack;
    StackStep([Dollar] + stack, d, w + ['$'], c, [top] + stack, "");
    assert w + ['$'] + [c] == w + ['$', c];
  }

  lemma {:induction false} RunNest(n: Nest, stack: seq<Frame>, d: bool, w: string)
    requires stack != [] && Holds(stack[0]) && NestFits(n, stack[0])
    ensures Scan(In(stack, d, w), NestText(n)) == (In(stack, d, w + NestText(n)), [])
    decreases n, 0
  {
    hide Step;
    match n
    case Calm(s) =>
      RunKept(s, stack, d, w);
    case Apostrophed(s) =>
      assert ([Squote] + stack)[1..] == stack;
      StackStep(stack, d, w, '\'', [Squote] + stack, "");
      assert ['\''] + "" == "'";
      RunKept(s, [Squote] + stack, d, w + "'");
      RunBracketed("'", s, '\'', stack, Squote, d, w);
    case Quoted(inner) =>
      assert ([Dquote] + stack)[1..] == stack;
      StackStep(stack, d, w, '"', [Dquote] + stack, "");
      assert ['"'] + "" == "\"";
      RunNests(inner, [Dquote] + stack, d, w + "\"");
      RunBracketed("\"", NestsText(inner), '"', stack, Dquote, d, w);
    case Command(inner) =>
      assert ([Paren] + stack)[1..] == stack;
      OpenDollar('(', Paren, stack, d, w);
      RunNests(inner, [Paren] + stack, d, w + "$(");
      RunBracketed("$(", NestsText(inner), ')', stack, Paren, d, w);
    case Parameter(inner) =>
      assert ([Brace] + stack)[1..] == stack;
      OpenDollar('{', Brace, stack, d, w);
      RunNests(inner, [Brace] + stack, d, w + "${");
      RunBracketed("${", NestsText(inner), '}', stack, Brace, d, w);
  }

  /** Balanced text leaves the brackets around it as they were. */
  lemma {:induction false} RunNests(ns: seq<Nest>, stack: seq<Frame>, d: bool, w: string)
    requires stack != [] && Holds(stack[0]) && NestsFit(ns, stack[0])
    ensures Scan(In(stack, d, w), NestsText(ns)) == (In(stack, d, w + NestsText(ns)), [])
    decreases ns, 1
  {
    hide Step;
    if ns == [] {
      assert w + "" == w;
    } else {
      var a, b := NestText(ns[0]), NestsText(ns[1..]);
      RunNest(ns[0], stack, d, w);
      SilentAppend(In(stack, d, w), a, b, In(stack, d, w + a));
      RunNests(ns[1..], stack, d, w + a);
      assert w + a + b == w + (a + b);
    }
  }

  // ---------------------------------------------------------------- words

  /** A word is made of unquoted text, single-quoted values and double-quoted text with expansions. */
  datatype Part = Lit(s: string) | Quo(s: string) | Dq(inner: seq<Nest>)

  predicate IsOrdinary(c: char) {
    !IsBlank(c) && c != '\n' && c != '(' && c != ')' && !IsOperatorChar(c) &&
    c != '\'' && c != '"' && c != '\\' && c != '$' && c != '`' && c != '#'
  }

  predicate AllOrdinary(s: string) { forall i :: 0 <= i < |s| ==> IsOrdinary(s[i]) }

  predicate TopFits(n: Nest) {
    match n
    case Calm(s) => AllCalm(s)
    case Command(inner) => NestsFit(inner, Paren)
    case Parameter(inner) => NestsFit(inner, Brace)
    case _ => false
  }

  predicate PartFits(p: Part) {
    match p
    case Lit(s) => s != "" && AllOrdinary(s)
    case Quo(_) => true
    case Dq(inner) => forall i :: 0 <= i < |inner| ==> TopFits(inner[i])
  }

  function PartText(p: Part): string {
    match p
    case Lit(s) => s
    case Quo(s) => ShellQuote(s)
    case Dq(inner) => "\"" + NestsText(inner) + "\""
  }

  /** What the part contributes after quote removal. */
  function PartValue(p: Part): string {
    match p
    case Lit(s) => s
    case Quo(s) => s
    case Dq(inner) => NestsText(inner)
  }

  function PartsText(ps: seq<Part>): string {
    if ps == [] then "" else PartText(ps[0]) + PartsText(ps[1..])
  }

  function PartsValue(ps: seq<Part>): string {
    if ps == [] then "" else PartValue(ps[0]) + PartsValue(ps[1..])
  }

  function Dbl(w: string): Lexer { Lexer(Double, Some(w), false) }

  lemma {:induction false} RunLit(l: Lexer, s: string)
    requires l.mode == Plain && AllOrdinary(s) && s != ""
    ensures var num := AllDigits(s) && (l.word.None? || l.numeric);
      Scan(l, s) == (Lexer(Plain, Some(Spelled(l) + s), num), [])
    decreases |s|
  {
    var l1 := Take(l, Plain, [s[0]], IsDigit(s[0]) && (l.word.None? || l.numeric));
    assert IsOrdinary(s[0]);
    assert Step(l, s[0]) == (l1, []);
    hide Step;
    assert s == [s[0]] + s[1..];
    ScanSilent(l, s[0], s[1..], l1);
    if s[1..] == "" {
      assert Spelled(l) + [s[0]] == Spelled(l) + s;
    } else {
      RunLit(l1, s[1..]);
      assert Spelled(l) + [s[0]] + s[1..] == Spelled(l) + s;
      assert AllDigits(s) <==> IsDigit(s[0]) && AllDigits(s[1..]);
    }
  }

  lemma {:induction false} RunDoubleCalm(s: string, w: string)
    requires AllCalm(s)
    ensures Scan(Dbl(w), s) == (Dbl(w + s), [])
    decreases |s|
  {
    if s == "" {
      assert w + s == w;
    } else {
      assert IsCalm(s[0]);
      assert s == [s[0]] + s[1..];
      ScanSilent(Dbl(w), s[0], s[1..], Dbl(w + [s[0]]));
      hide Step;
      RunDoubleCalm(s[1..], w + [s[0]]);
      assert w + [s[0]] + s[1..] == w + s;
    }
  }

  lemma OpenInDouble(c: char, top: Frame, w: string, rest: string)
    requires (c == '(' && top == Paren) || (c == '{' && top == Brace)
    ensures Scan(Dbl(w), ['$'] + ([c] + rest)) == Scan(In([top], true, w + ['$', c]), rest)
  {
    assert [Dollar][1..] == [] && [top] + [] == [top];
    assert Unwind([Dollar], c) == Some([top]);
    assert w + "$" + [c] == w + ['$', c];
    ScanSilent(Dbl(w), '$', [c] + rest, In([Dollar], true, w + "$"));
    ScanSilent(In([Dollar], true, w + "$"), c, rest, In([top], true, w + ['$', c]));
  }

  lemma CloseInDouble(top: Frame, close: char, w: string)
    requires (close == ')' && top == Paren) || (close == '}' && top == Brace)
    ensures Scan(In([top], true, w), [close]) == (Dbl(w + [close]), [])
  {
    assert [top][1..] == [] && Unwind([top], close) == Some([]);
    assert [close] == [close] + "";
    ScanSilent(In([top], true, w), close, "", Dbl(w + [close]));
  }

  lemma RunDoubleExpansion(c: char, top: Frame, body: seq<Nest>, close: char, w: string)
    requires (c == '(' && top == Paren && close == ')') || (c == '{' && top == Brace && close == '}')
    requires NestsFit(body, top)
    ensures var s := ['$', c] + NestsText(body) + [close]; Scan(Dbl(w), s) == (Dbl(w + s), [])
  {
    hide Step, Scan, NestsText, NestsFit;
    var b := NestsText(body);
    var s := ['$', c] + b + [close];
    var w1 := w + ['$', c];
    assert s == ['$'] + ([c] + (b + [close]));
    OpenInDouble(c, top, w, b + [close]);
    RunNests(body, [top], true, w1);
    SilentAppend(In([top], true, w1), b, [close], In([top], true, w1 + b));
    CloseInDouble(top, close, w1 + b);
    assert w1 + b + [close] == w + s;
  }

  lemma {:induction false} RunDouble(inner: seq<Nest>, w: string)
    requires forall i :: 0 <= i < |inner| ==> TopFits(inner[i])
    ensures Scan(Dbl(w), NestsText(inner)) == (Dbl(w + NestsText(inner)), [])
    decreases |inner|
  {
    hide Step;
    if inner == [] {
      assert w + "" == w;
    } else {
      var a, b := NestText(inner[0]), NestsText(inner[1..]);
      match inner[0] {
        case Calm(s) => RunDoubleCalm(s, w);
        case Command(body) => RunDoubleExpansion('(', Paren, body, ')', w);
        case Parameter(body) => RunDoubleExpansion('{', Brace, body, '}', w);
        case _ =>
      }
      SilentAppend(Dbl(w), a, b, Dbl(w + a));
      RunDouble(inner[1..], w + a);
      assert w + a + b == w + (a + b);
    }
  }

  lemma RunPart(l: Lexer, p: Part)
    requires l.mode == Plain && PartFits(p)
    ensures var num := p.Lit? && AllDigits(p.s) && (l.word.None? || l.numeric);
      Scan(l, PartText(p)) == (Lexer(Plain, Some(Spelled(l) + PartValue(p)), num), [])
  {
    match p
    case Lit(s) => RunLit(l, s);
    case Quo(s) => QuotedIsLiteral(l, s);
    case Dq(inner) =>
      var b := NestsText(inner);
      assert PartText(p) == ['"'] + (b + (['"'] + ""));
      assert Spelled(l) + "" == Spelled(l);
      ScanSilent(l, '"', b + (['"'] + ""), Dbl(Spelled(l)));
      RunDouble(inner, Spelled(l));
      SilentAppend(Dbl(Spelled(l)), b, ['"'] + "", Dbl(Spelled(l) + b));
      ScanSilent(Dbl(Spelled(l) + b), '"', "", Lexer(Plain, Some(Spelled(l) + b), false));
  }

  predicate AllNumeric(ps: seq<Part>) {
    forall i :: 0 <= i < |ps| ==> ps[i].Lit? && AllDigits(ps[i].s)
  }

  lemma {:induction false} RunParts(l: Lexer, ps: seq<Part>)
    requires l.mode == Plain && ps != [] && forall i :: 0 <= i < |ps| ==> PartFits(ps[i])
    ensures var num := AllNumeric(ps) && (l.word.None? || l.numeric);
      Scan(l, PartsText(ps)) == (Lexer(Plain, Some(Spelled(l) + PartsValue(ps)), num), [])
    decreases |ps|
  {
    hide Step, PartFits, PartText, PartValue, AllDigits;
    RunPart(l, ps[0]);
    var l1 := Scan(l, PartText(ps[0])).0;
    SilentAppend(l, PartText(ps[0]), PartsText(ps[1..]), l1);
    if ps[1..] == [] {
      assert Spelled(l) + PartValue(ps[0]) == Spelled(l) + (PartValue(ps[0]) + "");
    } else {
      RunParts(l1, ps[1..]);
      assert Spelled(l) + PartValue(ps[0]) + PartsValue(ps[1..]) ==
        Spelled(l) + (PartValue(ps[0]) + PartsValue(ps[1..]));
      assert AllNumeric(ps) <==> ps[0].Lit? && AllDigits(ps[0].s) && AllNumeric(ps[1..]);
    }
  }

  // ---------------------------------------------------------------- token lists

  /** A token to be printed, with or without a blank behind it. */
  datatype Item = Wrd(parts: seq<Part>, gap: bool) | Num(digits: string, gap: bool) | Opr(op: string, gap: bool)

  function ItemToken(i: Item): Token {
    match i
    case Wrd(parts, _) => Word(PartsValue(parts))
    case Num(digits, _) => IoNumber(digits)
    case Opr(op, _) => Op(op)
  }

  function ItemText(i: Item): string {
    (match i
     case Wrd(parts, _) => PartsText(parts)
     case Num(digits, _) => digits
     case Opr(op, _) => op) + (if i.gap then " " else "")
  }

  function ItemsText(items: seq<Item>): string {
    if items == [] then "" else ItemText(items[0]) + ItemsText(items[1..])
  }

  function ItemTokens(items: seq<Item>): seq<Token> {
    if items == [] then [] else [ItemToken(items[0])] + ItemTokens(items[1..])
  }

  predicate IsBracket(op: string) { op == "(" || op == ")" || op == "\n" }

  predicate IsKnownOperator(op: string) {
    (|op| == 1 && IsOperatorChar(op[0])) || op == "&&" || op == "||" || op == ">&" || op == "<>" || op == ">>"
  }

  predicate ItemFits(i: Item) {
    match i
    case Wrd(parts, _) => parts != [] && forall k :: 0 <= k < |parts| ==> PartFits(parts[k])
    case Num(digits, gap) => digits != "" && AllDigits(digits) && !gap
    case Opr(op, _) => IsBracket(op) || IsKnownOperator(op)
  }

  predicate Redirects(i: Item) { i.Opr? && IsKnownOperator(i.op) && (i.op[0] == '<' || i.op[0] == '>') }

  /** Nothing runs together: b may be printed directly behind a. */
  predicate Separated(a: Item, b: Item) {
    match a
    case Wrd(parts, gap) => gap || (b.Opr? && !(Redirects(b) && AllNumeric(parts)))
    case Num(_, _) => Redirects(b)
    case Opr(op, gap) => gap || IsBracket(op) || !b.Opr? || IsBracket(b.op)
  }

  predicate Printable(items: seq<Item>) {
    && (forall i :: 0 <= i < |items| ==> ItemFits(items[i]))
    && (forall i :: 0 <= i < |items| - 1 ==> Separated(items[i], items[i + 1]))
    && (items != [] ==> !items[|items| - 1].Num?)
  }

  predicate StopsWord(c: char) { IsBlank(c) || c == '\n' || c == '(' || c == ')' || IsOperatorChar(c) }

  lemma StopStep(l: Lexer, c: char)
    requires l.mode == Plain && l.word.Some? && StopsWord(c)
    ensures Step(l, c) == (Step(START, c).0, Flush(l, c) + Step(START, c).1)
  {
    assert [] + [Op([c])] == [Op([c])] && Flush(l, c) + [] == Flush(l, c);
  }

  /** A character that ends a word is read as at the start of a token, after the word has been delivered. */
  lemma StopDelivers(l: Lexer, c: char, rest: string)
    requires l.mode == Plain && l.word.Some? && StopsWord(c)
    ensures Complete(l, [c] + rest) == Prefixed(Flush(l, c), Complete(START, [c] + rest))
  {
    StopStep(l, c);
    hide Step, Flush;
    var (l1, t1) := Step(START, c);
    ScanOne(l, c, rest);
    ScanOne(START, c, rest);
    var (l2, t2) := Scan(l1, rest);
    var f := Flush(l, c);
    assert f + t1 + t2 == f + (t1 + t2);
    PrefixedTwice(f, t1 + t2, Finish(l2));
    hide Scan, Finish, Prefixed;
  }

  /** A character that does not extend an operator is read as at the start of a token. */
  lemma OperatorDelivers(op: string, c: char, rest: string)
    requires IsKnownOperator(op) && !IsOperatorChar(c)
    ensures Complete(START.(mode := Operator(op)), [c] + rest) == Prefixed([Op(op)], Complete(START, [c] + rest))
  {
    var l := START.(mode := Operator(op));
    assert !IsOperator(op + [c]) by {
      assert (op + [c])[|op|] == c && (op + [c])[..|op|] == op;
      assert "<<-"[..2] == "<<";
    }
    var (l1, t1) := Step(START, c);
    assert Step(l, c) == (l1, [Op(op)] + t1);
    hide Step;
    ScanOne(l, c, rest);
    ScanOne(START, c, rest);
    var (l2, t2) := Scan(l1, rest);
    var f := [Op(op)];
    assert f + t1 + t2 == f + (t1 + t2);
    PrefixedTwice(f, t1 + t2, Finish(l2));
    hide Scan, Finish, Prefixed;
  }

  lemma BlankAfterWord(l: Lexer, rest: string)
    requires l.mode == Plain && l.word.Some?
    ensures Complete(l, " " + rest) == Prefixed([Word(l.word.value)], Complete(START, rest))
  {
    assert " " + rest == [' '] + rest;
    assert Step(l, ' ') == (START, [Word(l.word.value)]);
    hide Step;
    ScanOne(l, ' ', rest);
    var (l2, t2) := Scan(START, rest);
    PrefixedTwice([Word(l.word.value)], t2, Finish(l2));
    hide Scan, Finish, Prefixed;
  }

  lemma BlankAtStart(rest: string)
    ensures Complete(START, " " + rest) == Complete(START, rest)
  {
    assert " " + rest == [' '] + rest;
    assert Step(START, ' ') == (START, []);
    hide Step;
    ScanSilent(START, ' ', rest, START);
  }

  lemma ScanOperator(op: string)
    requires IsBracket(op) || IsKnownOperator(op)
    ensures IsBracket(op) ==> Scan(START, op) == (START, [Op(op)])
    ensures !IsBracket(op) ==> Scan(START, op) == (START.(mode := Operator(op)), [])
  {
    if |op| == 1 {
      ScanOneOperator(op[0]);
      assert op == [op[0]];
    } else {
      assert op == [op[0]] + ([op[1]] + "");
      var l1 := START.(mode := Operator([op[0]]));
      assert [op[0]] + [op[1]] == op && IsOperator(op) && IsOperatorChar(op[0]);
      assert Step(START, op[0]) == (l1, []);
      assert Step(l1, op[1]) == (START.(mode := Operator(op)), []);
      hide Step;
      ScanSilent(START, op[0], [op[1]] + "", l1);
      ScanSilent(l1, op[1], "", START.(mode := Operator(op)));
    }
  }

  lemma ScanOneOperator(c: char)
    requires IsBracket([c]) || IsOperatorChar(c)
    ensures IsBracket([c]) ==> Scan(START, [c]) == (START, [Op([c])])
    ensures !IsBracket([c]) ==> Scan(START, [c]) == (START.(mode := Operator([c])), [])
  {
    assert [c] == [c] + "";
    assert [] + [Op([c])] == [Op([c])] && [Op([c])] + [] == [Op([c])];
    assert [c][0] == c;
    assert Step(START, c) == if IsBracket([c]) then (START, [Op([c])]) else (START.(mode := Operator([c])), []);
    hide Step;
    ScanOne(START, c, "");
    var (l, ts) := Step(START, c);
    assert Scan(l, "") == (l, []) && ts + [] == ts;
  }

  /** The first character of a printed token: an operator's own, or one that is no operator character. */
  lemma FirstChar(i: Item)
    requires ItemFits(i)
    ensures ItemText(i) != ""
    ensures i.Opr? ==> ItemText(i)[0] == i.op[0] && StopsWord(i.op[0])
    ensures i.Opr? && IsBracket(i.op) ==> !IsOperatorChar(i.op[0])
    ensures !i.Opr? ==> !IsOperatorChar(ItemText(i)[0])
  {
    if i.Wrd? {
      var p := i.parts[0];
      assert PartFits(p);
      assert PartText(p) != "" && !IsOperatorChar(PartText(p)[0]);
      assert PartsText(i.parts)[0] == PartText(p)[0];
    } else if i.Num? {
      assert IsDigit(i.digits[0]);
    }
  }

  /** What is read of the first item and the text behind it. */
  lemma FirstItem(i: Item, rest: string, more: bool, b: Item)
    requires ItemFits(i)
    requires
      if more then ItemFits(b) && Separated(i, b) && rest != "" && rest[0] == ItemText(b)[0]
      else rest == "" && !i.Num?
    ensures Complete(START, ItemText(i) + rest) == Prefixed([ItemToken(i)], Complete(START, rest))
  {
    hide Step, Scan, PartFits, PartsText, PartsValue, AllDigits, Prefixed, Finish;
    if more {
      FirstChar(b);
      assert rest == [rest[0]] + rest[1..];
    }
    match i
    case Wrd(parts, gap) =>
      RunParts(START, parts);
      var l := Scan(START, PartsText(parts)).0;
      assert "" + PartsValue(parts) == PartsValue(parts);
      if gap {
        assert ItemText(i) + rest == PartsText(parts) + (" " + rest);
        CompleteAppend(START, PartsText(parts), " " + rest);
        PrefixNothing(Complete(l, " " + rest));
        BlankAfterWord(l, rest);
      } else {
        assert ItemText(i) + rest == PartsText(parts) + rest;
        CompleteAppend(START, PartsText(parts), rest);
        PrefixNothing(Complete(l, rest));
        if more {
          StopDelivers(l, rest[0], rest[1..]);
        } else {
          EndOfText(l);
        }
      }
    case Num(digits, _) =>
      RunDigits(digits);
      var l := Lexer(Plain, Some(digits), true);
      assert ItemText(i) + rest == digits + rest;
      CompleteAppend(START, digits, rest);
      PrefixNothing(Complete(l, rest));
      StopDelivers(l, rest[0], rest[1..]);
    case Opr(op, gap) =>
      ScanOperator(op);
      var l := Scan(START, op).0;
      if gap {
        assert ItemText(i) + rest == op + (" " + rest);
        CompleteAppend(START, op, " " + rest);
        BlankAtStart(rest);
        if !IsBracket(op) {
          PrefixNothing(Complete(l, " " + rest));
          assert " " + rest == [' '] + rest;
          OperatorDelivers(op, ' ', rest);
        }
      } else {
        assert ItemText(i) + rest == op + rest;
        CompleteAppend(START, op, rest);
        if !IsBracket(op) {
          PrefixNothing(Complete(l, rest));
          if more {
            OperatorDelivers(op, rest[0], rest[1..]);
          } else {
            EndOfText(l);
          }
        }
      }
  }

  lemma RunDigits(digits: string)
    requires digits != "" && AllDigits(digits)
    ensures Scan(START, digits) == (Lexer(Plain, Some(digits), true), [])
  {
    assert AllOrdinary(digits) by {
      forall k | 0 <= k < |digits| ensures IsOrdinary(digits[k]) {
        assert IsDigit(digits[k]);
      }
    }
    assert "" + digits == digits;
    RunLit(START, digits);
  }

  lemma EndOfText(l: Lexer)
    requires l.mode.Plain? || l.mode.Operator?
    ensures l.mode.Plain? && l.word.Some? ==> Complete(l, "") == Prefixed([Word(l.word.value)], Complete(START, ""))
    ensures l.mode.Operator? ==> Complete(l, "") == Prefixed([Op(l.mode.op)], Complete(START, ""))
  {
    assert Scan(l, "") == (l, []) && Scan(START, "") == (START, []);
    PrefixNothing(Finish(l));
    PrefixNothing(Finish(START));
    assert Finish(START) == Some([]);
    assert l.mode.Plain? && l.word.Some? ==> [Word(l.word.value)] + [] == [Word(l.word.value)];
    assert l.mode.Operator? ==> [Op(l.mode.op)] + [] == [Op(l.mode.op)];
  }

  /** Main result: every printable list of tokens is read back exactly as it was meant. */
  lemma {:induction false} PrintedTokensAreReadBack(items: seq<Item>)
    requires Printable(items)
    ensures Tokens(ItemsText(items)) == Some(ItemTokens(items))
    decreases |items|
  {
    hide Step, Scan, ItemText, ItemToken, ItemFits, Separated;
    if items == [] {
      EmptyText();
    } else {
      var rest := items[1..];
      assert Printable(rest);
      PrintedTokensAreReadBack(rest);
      if rest == [] {
        FirstItem(items[0], "", false, items[0]);
      } else {
        FirstChar(rest[0]);
        assert ItemsText(rest)[0] == ItemText(rest[0])[0];
        FirstItem(items[0], ItemsText(rest), true, rest[0]);
      }
    }
  }

  lemma EmptyText()
    ensures Tokens("") == Some([])
  {
    assert Scan(START, "") == (START, []);
    var none: seq<Token> := [];
    assert Flush(START, ' ') == none && none + none == none;
  }
}
