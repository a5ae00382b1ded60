/** The readiness script of buildProbeCommand (internal/deploy/ssh.go, lines 184-204).

    Its pieces are written as the code writes them. From the pieces come both the text of the script and the tokens
    it is meant to have; the inner shell is shown to read the one as the other, and the outer shell to pass the
    whole of it on. */
module ProbeScript {
  import opened Text
  import opened ShellLexer
  import opened ShellText
  import opened Commands

  // ---------------------------------------------------------------- pieces

  /** What follows a word: a blank, "; ", ") ", a new line, or the end. */
  datatype After = Blank | Semi | Close | NewLine | Nothing

  /** A word; a redirection such as 2>&1, with its descriptor, operator and target; an operator and a blank; an
      opening bracket. */
  datatype Piece =
    | Wd(parts: seq<Part>, after: After)
    | Redirect(fd: string, op: string, parts: seq<Part>, after: After)
    | Oper(op: string)
    | Open

  function AfterText(a: After): string {
    match a
    case Blank => " "
    case Semi => "; "
    case Close => ") "
    case NewLine => "\n"
    case Nothing => ""
  }

  function PieceText(p: Piece): string {
    match p
    case Wd(parts, after) => PartsText(parts) + AfterText(after)
    case Redirect(fd, op, parts, after) => fd + op + PartsText(parts) + AfterText(after)
    case Oper(op) => op + " "
    case Open => "("
  }

  function PiecesText(ps: seq<Piece>): string {
    if ps == [] then "" else PieceText(ps[0]) + PiecesText(ps[1..])
  }

  function AfterItems(a: After): seq<Item> {
    match a
    case Semi => [Opr(";", true)]
    case Close => [Opr(")", true)]
    case NewLine => [Opr("\n", false)]
    case _ => []
  }

  function PieceItems(p: Piece): seq<Item> {
    match p
    case Wd(parts, after) => [Wrd(parts, after.Blank?)] + AfterItems(after)
    case Redirect(fd, op, parts, after) =>
      (if fd == "" then [] else [Num(fd, false)])
        + ([Opr(op, false)] + ([Wrd(parts, after.Blank?)] + AfterItems(after)))
    case Oper(op) => [Opr(op, true)]
    case Open => [Opr("(", false)]
  }

  function PiecesItems(ps: seq<Piece>): seq<Item> {
    if ps == [] then [] else PieceItems(ps[0]) + PiecesItems(ps[1..])
  }

  predicate PartsFit(parts: seq<Part>) {
    parts != [] && forall k :: 0 <= k < |parts| ==> PartFits(parts[k])
  }

  predicate PieceFits(p: Piece) {
    match p
    case Wd(parts, _) => PartsFit(parts)
    case Redirect(fd, op, parts, _) => AllDigits(fd) && (op == ">" || op == ">&" || op == "<>") && PartsFit(parts)
    case Oper(op) => op == "&&" || op == "||"
    case Open => true
  }

  predicate AllFit(ps: seq<Piece>) {
    forall i :: 0 <= i < |ps| ==> PieceFits(ps[i])
  }

  /** Something may follow. */
  predicate Continues(p: Piece) {
    (p.Wd? || p.Redirect?) ==> !p.after.Nothing?
  }

  predicate Joined(ps: seq<Piece>) {
    forall i :: 0 <= i < |ps| - 1 ==> Continues(ps[i])
  }

  // ---------------------------------------------------------------- pieces are read back

  lemma {:induction false} TextAppend(a: seq<Item>, b: seq<Item>)
    ensures ItemsText(a + b) == ItemsText(a) + ItemsText(b)
  {
    hide ItemText;
    if a == [] {
      assert a + b == b;
    } else {
      assert (a + b)[1..] == a[1..] + b;
      TextAppend(a[1..], b);
      assert ItemText(a[0]) + (ItemsText(a[1..]) + ItemsText(b)) == ItemText(a[0]) + ItemsText(a[1..]) + ItemsText(b);
    }
  }

  lemma OneText(i: Item)
    ensures ItemsText([i]) == ItemText(i)
  {
    hide ItemText;
    assert [i][1..] == [] && ItemText(i) + "" == ItemText(i);
  }

  lemma WordText(parts: seq<Part>, after: After)
    ensures ItemsText([Wrd(parts, after.Blank?)] + AfterItems(after)) == PartsText(parts) + AfterText(after)
  {
    hide PartsText;
    var w := Wrd(parts, after.Blank?);
    TextAppend([w], AfterItems(after));
    OneText(w);
    if after.Semi? || after.Close? || after.NewLine? {
      OneText(AfterItems(after)[0]);
      assert PartsText(parts) + "" == PartsText(parts);
    }
  }

  lemma PieceIsPrinted(p: Piece)
    ensures ItemsText(PieceItems(p)) == PieceText(p)
  {
    hide PartsText, AfterItems, AfterText;
    match p {
      case Wd(parts, after) => WordText(parts, after);
      case Redirect(fd, op, parts, after) =>
        WordText(parts, after);
        var word := [Wrd(parts, after.Blank?)] + AfterItems(after);
        TextAppend([Opr(op, false)], word);
        OneText(Opr(op, false));
        TextAppend(if fd == "" then [] else [Num(fd, false)], [Opr(op, false)] + word);
        OneText(Num(fd, false));
        assert fd + "" == fd && op + "" == op;
        var t := PartsText(parts) + AfterText(after);
        assert fd + (op + t) == fd + op + PartsText(parts) + AfterText(after);
      case Oper(op) => OneText(Opr(op, true));
      case Open => OneText(Opr("(", false));
    }
  }

  lemma {:induction false} PiecesArePrinted(ps: seq<Piece>)
    ensures ItemsText(PiecesItems(ps)) == PiecesText(ps)
  {
    hide PieceItems, PieceText;
    if ps != [] {
      PiecesArePrinted(ps[1..]);
      TextAppend(PieceItems(ps[0]), PiecesItems(ps[1..]));
      PieceIsPrinted(ps[0]);
    }
  }

  /** Only the last item of a printable list stands next to what follows. */
  lemma PrintableAppend(a: seq<Item>, b: seq<Item>)
    requires Printable(a) && Printable(b) && a != []
    requires b != [] ==> Separated(a[|a| - 1], b[0])
    ensures Printable(a + b)
  {
    hide ItemFits, Separated;
    var c := a + b;
    forall i | 0 <= i < |c| - 1 ensures Separated(c[i], c[i + 1]) {
      if i + 1 < |a| {
        assert c[i] == a[i] && c[i + 1] == a[i + 1];
      } else if i >= |a| {
        assert c[i] == b[i - |a|] && c[i + 1] == b[i - |a| + 1];
      }
    }
  }

  lemma WordIsPrintable(parts: seq<Part>, after: After)
    requires PartsFit(parts)
    ensures Printable([Wrd(parts, after.Blank?)] + AfterItems(after))
  {
    hide PartFits, AllNumeric;
  }

  lemma PieceIsPrintable(p: Piece)
    requires PieceFits(p)
    ensures PieceItems(p) != [] && Printable(PieceItems(p))
  {
    hide PartFits, AllNumeric, AfterItems;
    if p.Redirect? {
      WordIsPrintable(p.parts, p.after);
      var word := [Wrd(p.parts, p.after.Blank?)] + AfterItems(p.after);
      assert Printable([Opr(p.op, false)]);
      PrintableAppend([Opr(p.op, false)], word);
      if p.fd != "" {
        DescriptorFirst(p.fd, [Opr(p.op, false)] + word);
      }
    } else if p.Wd? {
      WordIsPrintable(p.parts, p.after);
    }
  }

  lemma DescriptorFirst(fd: string, rest: seq<Item>)
    requires fd != "" && AllDigits(fd) && Printable(rest) && rest != [] && Redirects(rest[0])
    ensures Printable([Num(fd, false)] + rest)
  {
    hide PartFits, Redirects, AllNumeric;
    var c := [Num(fd, false)] + rest;
    assert ItemFits(c[0]) && Separated(c[0], c[1]);
    hide ItemFits, Separated;
    assert forall i :: 0 < i < |c| ==> c[i] == rest[i - 1];
  }

  lemma AnythingFollows(p: Piece, i: Item)
    requires PieceFits(p) && Continues(p)
    ensures Separated(PieceItems(p)[|PieceItems(p)| - 1], i)
  {
    hide PartFits, AllNumeric;
  }

  lemma {:induction false} PiecesArePrintable(ps: seq<Piece>)
    requires AllFit(ps) && Joined(ps)
    ensures Printable(PiecesItems(ps))
  {
    hide PieceItems, PieceFits, Separated, ItemFits, Continues;
    if ps != [] {
      assert AllFit(ps[1..]) && Joined(ps[1..]);
      PiecesArePrintable(ps[1..]);
      PieceIsPrintable(ps[0]);
      var a, b := PieceItems(ps[0]), PiecesItems(ps[1..]);
      if b != [] {
        AnythingFollows(ps[0], b[0]);
      }
      PrintableAppend(a, b);
    }
  }

  /** A shell reads fitting pieces as their tokens. */
  lemma PiecesAreReadBack(ps: seq<Piece>)
    requires AllFit(ps) && Joined(ps)
    ensures Tokens(PiecesText(ps)) == Some(ItemTokens(PiecesItems(ps)))
  {
    PiecesArePrintable(ps);
    PiecesArePrinted(ps);
    PrintedTokensAreReadBack(PiecesItems(ps));
  }

  // ---------------------------------------------------------------- the script

  function Arg(s: string): Piece { Wd([Lit(s)], Blank) }
  function Stop(s: string): Piece { Wd([Lit(s)], Semi) }
  function Said(s: string): Piece { Wd([Dq([Calm(s)])], Semi) }
  function To(fd: string, op: string, target: string, after: After): Piece { Redirect(fd, op, [Lit(target)], after) }

  /** command -v NAME >/dev/null 2>&1; then */
  function Installed(name: string): seq<Piece> {
    [Arg("command"), Arg("-v"), Arg(name), To("", ">", "/dev/null", Blank), To("2", ">&", "1", Semi), Arg("then")]
  }

  /** echo "KEY$(COMMAND)" */
  function EchoCommand(key: string, command: seq<Nest>): seq<Piece> {
    [Arg("echo"), Wd([Dq([Calm(key), Command(command)])], NewLine)]
  }

  const PRETTY_NAME: Nest := Parameter([Calm("PRETTY_NAME:-"), Command([Calm("uname -s")])])

  const OS: seq<Nest> := [Calm(". /etc/os-release 2>/dev/null; echo "), Quoted([PRETTY_NAME])]

  const DISK: seq<Nest> := [Calm("df -Pm / 2>/dev/null | awk "), Apostrophed("NR==2{print $4}")]

  const SYSTEM_LINES: seq<Piece> :=
    EchoCommand("OS=", OS) + EchoCommand("KERNEL=", [Calm("uname -r 2>/dev/null")])
      + EchoCommand("ARCH=", [Calm("uname -m 2>/dev/null")])

  const SUDO_LINE: seq<Piece> :=
    [Arg("if")] + Installed("sudo")
    + [Arg("if"), Arg("sudo"), Arg("-n"), Arg("true"), To("2", ">", "/dev/null", Semi), Arg("then"),
       Arg("echo"), Said("SUDO=nopasswd"), Arg("else"), Arg("echo"), Said("SUDO=password-required"), Stop("fi"),
       Arg("else"), Arg("echo"), Said("SUDO=absent"), Wd([Lit("fi")], NewLine)]

  const AGENT_LINE: seq<Piece> :=
    [Arg("if"), Arg("["), Arg("-d"), Arg("/opt/opsramp/agent"), Arg("]"), Oper("||")] + Installed("opsramp-agent")
    + [Arg("echo"), Said("AGENT=present"), Arg("else"), Arg("echo"), Said("AGENT=absent"), Wd([Lit("fi")], NewLine)]

  const DISK_LINE: seq<Piece> := EchoCommand("DISK_ROOT_MB=", DISK)

  /** && echo API=ok || echo API=fail; */
  const VERDICT: seq<Piece> := [Oper("&&"), Arg("echo"), Arg("API=ok"), Oper("||"), Arg("echo"), Stop("API=fail")]

  /** && { echo API=ok; exec 3>&-; } || echo API=fail; */
  const TCP_VERDICT: seq<Piece> :=
    [Oper("&&"), Arg("{"), Arg("echo"), Stop("API=ok"), Arg("exec"), To("3", ">&", "-", Semi), Arg("}"),
     Oper("||"), Arg("echo"), Stop("API=fail")]

  function ByCurl(h: string): seq<Piece> {
    [Arg("if")] + Installed("curl")
    + [Arg("curl"), Arg("-sS"), Arg("-o"), Arg("/dev/null"), Arg("-m"), Arg("6"), Wd([Lit("https://"), Quo(h)], Blank)]
      + VERDICT
  }

  function ByNc(h: string): seq<Piece> {
    [Arg("elif")] + Installed("nc") + [Arg("nc"), Arg("-z"), Arg("-w5"), Wd([Quo(h)], Blank), Arg("443")] + VERDICT
  }

  function ByTcp(h: string): seq<Piece> {
    [Arg("else"), Open, Arg("exec"), Redirect("3", "<>", [Lit("/dev/tcp/"), Quo(h), Lit("/443")], Close),
      To("2", ">", "/dev/null", Blank)]
    + TCP_VERDICT + [Wd([Lit("fi")], Nothing)]
  }

  /** The reachability line: the host stands in three words of it. */
  function Reach(h: string): seq<Piece> {
    if h == "" then [Arg("echo"), Wd([Lit("API=skip")], Nothing)] else ByCurl(h) + ByNc(h) + ByTcp(h)
  }

  function ScriptPieces(h: string): seq<Piece> {
    SYSTEM_LINES + SUDO_LINE + AGENT_LINE + DISK_LINE + Reach(h)
  }

  function Script(h: string): string { PiecesText(ScriptPieces(h)) }

  /** `sh -c` and the quoted script. */
  function BuildProbeCommand(h: string): string { ShC(Script(h)) }

  // ---------------------------------------------------------------- the pieces fit

  /** Fitting pieces behind all of which something may follow. */
  predicate Fluent(ps: seq<Piece>) {
    AllFit(ps) && forall i :: 0 <= i < |ps| ==> Continues(ps[i])
  }

  lemma FluentAppend(a: seq<Piece>, b: seq<Piece>)
    requires Fluent(a) && AllFit(b) && Joined(b)
    ensures AllFit(a + b) && Joined(a + b) && (Fluent(b) ==> Fluent(a + b))
  {
    hide PieceFits, Continues;
  }

  lemma CommonWords()
    ensures IsLiteral("if") && IsLiteral("command") && IsLiteral("-v") && IsLiteral("then") && IsLiteral("echo")
    ensures IsLiteral("else") && IsLiteral("elif") && IsLiteral("fi") && IsLiteral("/dev/null") && IsLiteral("1")
  {
  }

  lemma LocalWords()
    ensures IsLiteral("sudo") && IsLiteral("-n") && IsLiteral("true") && IsLiteral("[") && IsLiteral("]")
      && IsLiteral("-d")
    ensures IsLiteral("/opt/opsramp/agent") && IsLiteral("opsramp-agent")
  {
  }

  lemma ReachWords()
    ensures IsLiteral("curl") && IsLiteral("-sS") && IsLiteral("-o") && IsLiteral("-m") && IsLiteral("6")
      && IsLiteral("https://")
    ensures IsLiteral("nc") && IsLiteral("-z") && IsLiteral("-w5") && IsLiteral("443") && IsLiteral("exec")
      && IsLiteral("-")
    ensures IsLiteral("{") && IsLiteral("}")
  {
  }

  lemma MoreReachWords()
    ensures IsLiteral("/dev/tcp/") && IsLiteral("/443") && IsLiteral("API=ok") && IsLiteral("API=fail")
      && IsLiteral("API=skip")
  {
  }

  lemma SaidFits(s: string)
    requires AllCalm(s)
    ensures PieceFits(Said(s))
  {
    assert TopFits(Calm(s));
  }

  lemma InstalledFits(name: string)
    requires IsLiteral(name)
    ensures Fluent(Installed(name))
  {
    CommonWords();
    hide AllOrdinary;
  }

  lemma SudoFits()
    ensures Fluent(SUDO_LINE)
  {
    CommonWords();
    LocalWords();
    InstalledFits("sudo");
    SaidFits("SUDO=nopasswd");
    SaidFits("SUDO=password-required");
    SaidFits("SUDO=absent");
    hide AllOrdinary, Said, Installed;
  }

  lemma AgentFits()
    ensures Fluent(AGENT_LINE)
  {
    CommonWords();
    LocalWords();
    InstalledFits("opsramp-agent");
    SaidFits("AGENT=present");
    SaidFits("AGENT=absent");
    hide AllOrdinary, Said, Installed;
  }

  lemma CurlFits(h: string)
    ensures Fluent(ByCurl(h)) && Fluent(ByNc(h))
  {
    CommonWords();
    ReachWords();
    MoreReachWords();
    hide AllOrdinary;
    InstalledFits("curl");
    InstalledFits("nc");
    assert Fluent(VERDICT);
    hide Installed, VERDICT;
  }

  lemma TcpFits(h: string)
    ensures AllFit(ByTcp(h)) && Joined(ByTcp(h))
  {
    CommonWords();
    ReachWords();
    MoreReachWords();
    hide AllOrdinary;
  }

  lemma ReachFits(h: string)
    ensures AllFit(Reach(h)) && Joined(Reach(h))
  {
    if h == "" {
      CommonWords();
      MoreReachWords();
    } else {
      CurlFits(h);
      TcpFits(h);
      hide ByCurl, ByNc, ByTcp, PieceFits, Continues;
      FluentAppend(ByCurl(h), ByNc(h));
      FluentAppend(ByCurl(h) + ByNc(h), ByTcp(h));
    }
  }

  lemma NestCons(n: Nest, ns: seq<Nest>, top: Frame)
    requires NestFits(n, top) && NestsFit(ns, top)
    ensures NestsFit([n] + ns, top)
  {
    assert ([n] + ns)[1..] == ns;
  }

  lemma Nests1(n: Nest, top: Frame)
    requires NestFits(n, top)
    ensures NestsFit([n], top)
  {
    NestCons(n, [], top);
    assert [n] + [] == [n];
  }

  lemma Nests2(m: Nest, n: Nest, top: Frame)
    requires NestFits(m, top) && NestFits(n, top)
    ensures NestsFit([m, n], top)
  {
    Nests1(n, top);
    NestCons(m, [n], top);
    assert [m] + [n] == [m, n];
  }

  lemma EchoCommandFits(key: string, command: seq<Nest>)
    requires AllCalm(key) && NestsFit(command, Paren)
    ensures Fluent(EchoCommand(key, command))
  {
    CommonWords();
    hide AllOrdinary, AllCalm, NestsFit;
    assert TopFits(Calm(key)) && TopFits(Command(command));
  }

  lemma CalmTexts()
    ensures AllCalm(". /etc/os-release 2>/dev/null; echo ") && AllCalm("PRETTY_NAME:-") && AllCalm("uname -s")
    ensures AllCalm("uname -r 2>/dev/null") && AllCalm("uname -m 2>/dev/null")
  {
  }

  lemma MoreCalmTexts()
    ensures AllCalm("df -Pm / 2>/dev/null | awk ") && '\'' !in "NR==2{print $4}"
    ensures AllCalm("OS=") && AllCalm("KERNEL=") && AllCalm("ARCH=") && AllCalm("DISK_ROOT_MB=")
  {
  }

  lemma SystemFits()
    ensures Fluent(SYSTEM_LINES) && Fluent(DISK_LINE)
  {
    CalmTexts();
    MoreCalmTexts();
    hide AllCalm;
    Nests1(Calm("uname -s"), Paren);
    Nests2(Calm("PRETTY_NAME:-"), Command([Calm("uname -s")]), Brace);
    Nests1(PRETTY_NAME, Dquote);
    Nests2(Calm(". /etc/os-release 2>/dev/null; echo "), Quoted([PRETTY_NAME]), Paren);
    Nests1(Calm("uname -r 2>/dev/null"), Paren);
    Nests1(Calm("uname -m 2>/dev/null"), Paren);
    Nests2(Calm("df -Pm / 2>/dev/null | awk "), Apostrophed("NR==2{print $4}"), Paren);
    EchoCommandFits("OS=", OS);
    EchoCommandFits("KERNEL=", [Calm("uname -r 2>/dev/null")]);
    EchoCommandFits("ARCH=", [Calm("uname -m 2>/dev/null")]);
    EchoCommandFits("DISK_ROOT_MB=", DISK);
  }

  lemma ScriptFits(h: string)
    ensures AllFit(ScriptPieces(h)) && Joined(ScriptPieces(h))
  {
    SystemFits();
    SudoFits();
    AgentFits();
    ReachFits(h);
    hide PieceFits, Continues, SYSTEM_LINES, SUDO_LINE, AGENT_LINE, DISK_LINE, Reach;
    FluentAppend(SYSTEM_LINES, SUDO_LINE);
    FluentAppend(SYSTEM_LINES + SUDO_LINE, AGENT_LINE);
    FluentAppend(SYSTEM_LINES + SUDO_LINE + AGENT_LINE, DISK_LINE);
    FluentAppend(SYSTEM_LINES + SUDO_LINE + AGENT_LINE + DISK_LINE, Reach(h));
  }

  /** Main result: the outer shell passes the whole script on as one argument, and the inner shell reads in it
      exactly the intended tokens, with the host as it was given, whatever characters the host holds. */
  lemma ProbeCommandIsReadTwice(h: string)
    ensures Tokens(BuildProbeCommand(h)) == Some([Word("sh"), Word("-c"), Word(Script(h))])
    ensures Tokens(Script(h)) == Some(ItemTokens(PiecesItems(ScriptPieces(h))))
  {
    hide PiecesText, ScriptPieces, Tokens;
    ScriptIsOneArgument(Script(h));
    ScriptFits(h);
    PiecesAreReadBack(ScriptPieces(h));
  }

  lemma {:induction false} WordAmongItems(ps: seq<Piece>, p: Piece)
    requires p in ps && (p.Wd? || p.Redirect?)
    ensures Wrd(p.parts, p.after.Blank?) in PiecesItems(ps)
  {
    hide AfterItems;
    var i := Wrd(p.parts, p.after.Blank?);
    if p == ps[0] {
      assert i in PieceItems(p) by {
        assert [i][0] == i && i in [i] + AfterItems(p.after);
      }
    } else {
      assert p in ps[1..];
      WordAmongItems(ps[1..], p);
    }
  }

  lemma {:induction false} ItemIsDelivered(items: seq<Item>, i: Item)
    requires i in items
    ensures ItemToken(i) in ItemTokens(items)
  {
    hide ItemToken;
    if i != items[0] {
      ItemIsDelivered(items[1..], i);
    }
  }

  lemma WordIsDelivered(ps: seq<Piece>, p: Piece)
    requires p in ps && (p.Wd? || p.Redirect?)
    ensures Word(PartsValue(p.parts)) in ItemTokens(PiecesItems(ps))
  {
    WordAmongItems(ps, p);
    hide PiecesItems, ItemTokens, PartsValue;
    ItemIsDelivered(PiecesItems(ps), Wrd(p.parts, p.after.Blank?));
  }

  lemma {:induction false} TokensAppend(a: seq<Item>, b: seq<Item>)
    ensures ItemTokens(a + b) == ItemTokens(a) + ItemTokens(b)
  {
    hide ItemToken;
    if a == [] {
      assert a + b == b;
    } else {
      assert (a + b)[1..] == a[1..] + b;
      TokensAppend(a[1..], b);
    }
  }

  lemma {:induction false} PiecesAppend(a: seq<Piece>, b: seq<Piece>)
    ensures PiecesItems(a + b) == PiecesItems(a) + PiecesItems(b)
  {
    hide PieceItems;
    if a == [] {
      assert a + b == b;
    } else {
      assert (a + b)[1..] == a[1..] + b;
      PiecesAppend(a[1..], b);
    }
  }

  function TokensOf(ps: seq<Piece>): seq<Token> {
    ItemTokens(PiecesItems(ps))
  }

  lemma TokensOfAppend(a: seq<Piece>, b: seq<Piece>)
    ensures TokensOf(a + b) == TokensOf(a) + TokensOf(b)
  {
    PiecesAppend(a, b);
    TokensAppend(PiecesItems(a), PiecesItems(b));
  }

  lemma OneItem(i: Item)
    ensures ItemTokens([i]) == [ItemToken(i)]
  {
    hide ItemToken;
    assert [i][1..] == [];
  }

  lemma OnePiece(p: Piece)
    ensures PiecesItems([p]) == PieceItems(p)
  {
    hide PieceItems;
    assert [p][1..] == [] && PieceItems(p) + [] == PieceItems(p);
  }

  lemma OneToken(op: string, word: string)
    ensures TokensOf([Oper(op)]) == [Op(op)] && TokensOf([Arg(word)]) == [Word(word)]
    ensures TokensOf([Stop(word)]) == [Word(word), Op(";")]
  {
    OnePart(Lit(word));
    OnePiece(Oper(op));
    OnePiece(Arg(word));
    OnePiece(Stop(word));
    OneItem(Opr(op, true));
    OneItem(Opr(";", true));
    OneItem(Wrd([Lit(word)], true));
    OneItem(Wrd([Lit(word)], false));
    TokensAppend([Wrd([Lit(word)], false)], [Opr(";", true)]);
    hide PartsValue, ItemTokens, PiecesItems;
    assert PieceItems(Arg(word)) == [Wrd([Lit(word)], true)];
  }

  lemma SaysWord(before: string, word: string, last: Piece)
    requires last == Arg(word) || last == Stop(word)
    ensures TokensOf([Oper(before), Arg("echo"), last]) == [Op(before), Word("echo")] + TokensOf([last])
  {
    OneToken(before, "echo");
    hide TokensOf;
    TokensOfAppend([Oper(before)], [Arg("echo")]);
    TokensOfAppend([Oper(before)] + [Arg("echo")], [last]);
    assert [Oper(before)] + [Arg("echo")] + [last] == [Oper(before), Arg("echo"), last];
  }

  /** Behind a test that succeeds the script says ok, behind one that fails it says fail. */
  lemma VerdictIs()
    ensures TokensOf(VERDICT) ==
      [Op("&&"), Word("echo"), Word("API=ok"), Op("||"), Word("echo"), Word("API=fail"), Op(";")]
  {
    SaysWord("&&", "API=ok", Arg("API=ok"));
    SaysWord("||", "API=fail", Stop("API=fail"));
    OneToken("&&", "API=ok");
    OneToken("||", "API=fail");
    hide TokensOf;
    var a, b := [Oper("&&"), Arg("echo"), Arg("API=ok")], [Oper("||"), Arg("echo"), Stop("API=fail")];
    TokensOfAppend(a, b);
    assert VERDICT == a + b;
  }

  lemma HostValues(h: string)
    ensures PartsValue([Lit("https://"), Quo(h)]) == "https://" + h && PartsValue([Quo(h)]) == h
    ensures PartsValue([Lit("/dev/tcp/"), Quo(h), Lit("/443")]) == "/dev/tcp/" + h + "/443"
  {
    OnePart(Quo(h));
    OnePart(Lit("/443"));
    var q, p := [Lit("https://"), Quo(h)], [Lit("/dev/tcp/"), Quo(h), Lit("/443")];
    assert q[1..] == [Quo(h)] && p[1..] == [Quo(h), Lit("/443")] && p[1..][1..] == [Lit("/443")];
    assert PartsValue(p[1..]) == h + "/443";
    assert "/dev/tcp/" + (h + "/443") == "/dev/tcp/" + h + "/443";
  }

  lemma HostPieces(h: string)
    requires h != ""
    ensures Wd([Lit("https://"), Quo(h)], Blank) in ScriptPieces(h) && Wd([Quo(h)], Blank) in ScriptPieces(h)
    ensures Redirect("3", "<>", [Lit("/dev/tcp/"), Quo(h), Lit("/443")], Close) in ScriptPieces(h)
  {
    assert ByCurl(h)[13] == Wd([Lit("https://"), Quo(h)], Blank) && ByNc(h)[10] == Wd([Quo(h)], Blank);
    assert ByTcp(h)[3] == Redirect("3", "<>", [Lit("/dev/tcp/"), Quo(h), Lit("/443")], Close);
    hide ByCurl, ByNc, ByTcp, SYSTEM_LINES, SUDO_LINE, AGENT_LINE, DISK_LINE;
    assert forall x :: x in ByCurl(h) || x in ByNc(h) || x in ByTcp(h) ==> x in Reach(h);
  }

  /** In each of the three tests the inner shell reads the host back as it was given. */
  lemma HostTokens(h: string)
    requires h != ""
    ensures Tokens(Script(h)).Some?
    ensures Word("https://" + h) in Tokens(Script(h)).value && Word(h) in Tokens(Script(h)).value
    ensures Word("/dev/tcp/" + h + "/443") in Tokens(Script(h)).value
  {
    ProbeCommandIsReadTwice(h);
    HostPieces(h);
    HostValues(h);
    hide Tokens, Script, ScriptPieces, PiecesItems, ItemTokens, PartsValue;
    WordIsDelivered(ScriptPieces(h), Wd([Lit("https://"), Quo(h)], Blank));
    WordIsDelivered(ScriptPieces(h), Wd([Quo(h)], Blank));
    WordIsDelivered(ScriptPieces(h), Redirect("3", "<>", [Lit("/dev/tcp/"), Quo(h), Lit("/443")], Close));
  }
}
