/** The remote commands of internal/deploy/ssh.go and what a POSIX shell reads them as. */
module Commands {
  import opened Text
  import opened ShellLexer
  import opened ShellText

  // ---------------------------------------------------------------- blank-separated words

  /** Words printed with one blank between them. */
  function WordsText(ws: seq<seq<Part>>): string {
    if |ws| == 0 then ""
    else if |ws| == 1 then PartsText(ws[0])
    else PartsText(ws[0]) + " " + WordsText(ws[1..])
  }

  function WordItems(ws: seq<seq<Part>>): seq<Item> {
    if |ws| == 0 then [] else [Wrd(ws[0], |ws| > 1)] + WordItems(ws[1..])
  }

  function WordTokens(ws: seq<seq<Part>>): seq<Token> {
    if |ws| == 0 then [] else [Word(PartsValue(ws[0]))] + WordTokens(ws[1..])
  }

  predicate WordFits(w: seq<Part>) {
    w != [] && forall k :: 0 <= k < |w| ==> PartFits(w[k])
  }

  lemma {:induction false} WordItemsAre(ws: seq<seq<Part>>)
    requires forall i :: 0 <= i < |ws| ==> WordFits(ws[i])
    ensures |WordItems(ws)| == |ws|
    ensures forall i :: 0 <= i < |ws| ==> WordItems(ws)[i] == Wrd(ws[i], i < |ws| - 1)
    ensures ItemsText(WordItems(ws)) == WordsText(ws)
    ensures ItemTokens(WordItems(ws)) == WordTokens(ws)
  {
    hide PartsText, PartsValue, WordFits;
    if |ws| > 0 {
      WordItemsAre(ws[1..]);
      assert WordItems(ws)[1..] == WordItems(ws[1..]);
      if |ws| == 1 {
        assert PartsText(ws[0]) + "" + "" == PartsText(ws[0]);
      }
    }
  }

  lemma WordIsPrintable(w: seq<Part>, gap: bool, next: Item)
    requires WordFits(w)
    ensures ItemFits(Wrd(w, gap)) && Separated(Wrd(w, true), next)
  {
  }

  lemma WordsPrintable(ws: seq<seq<Part>>)
    requires forall i :: 0 <= i < |ws| ==> WordFits(ws[i])
    ensures Printable(WordItems(ws))
  {
    WordItemsAre(ws);
    hide WordItems, ItemsText, ItemTokens, WordsText, WordTokens, WordFits, ItemFits, Separated;
    var items := WordItems(ws);
    forall i | 0 <= i < |items| ensures ItemFits(items[i]) {
      WordIsPrintable(ws[i], i < |ws| - 1, items[i]);
    }
    forall i | 0 <= i < |items| - 1 ensures Separated(items[i], items[i + 1]) {
      WordIsPrintable(ws[i], true, items[i + 1]);
    }
  }

  lemma WordsAreReadBack(ws: seq<seq<Part>>)
    requires forall i :: 0 <= i < |ws| ==> WordFits(ws[i])
    ensures Tokens(WordsText(ws)) == Some(WordTokens(ws))
  {
    WordItemsAre(ws);
    WordsPrintable(ws);
    hide Printable, WordItems, ItemsText, ItemTokens, WordsText, WordTokens, Tokens;
    PrintedTokensAreReadBack(WordItems(ws));
  }

  lemma {:induction false} WordsSnoc(ws: seq<seq<Part>>, w: seq<Part>)
    requires ws != []
    ensures WordsText(ws + [w]) == WordsText(ws) + " " + PartsText(w)
    ensures WordTokens(ws + [w]) == WordTokens(ws) + [Word(PartsValue(w))]
  {
    hide PartsText, PartsValue;
    assert (ws + [w])[1..] == ws[1..] + [w];
    if |ws| > 1 {
      WordsSnoc(ws[1..], w);
      var a, b, c := PartsText(ws[0]), WordsText(ws[1..]), PartsText(w);
      assert a + " " + (b + " " + c) == a + " " + b + " " + c;
    } else {
      assert ws[1..] + [w] == [w];
      assert ws[1..] == [];
    }
  }

  lemma OnePart(p: Part)
    ensures PartsText([p]) == PartText(p) && PartsValue([p]) == PartValue(p)
  {
    assert PartText(p) + "" == PartText(p) && PartValue(p) + "" == PartValue(p);
  }

  // ---------------------------------------------------------------- the installer

  const SCRIPT_PATH: string := "/tmp/opsramp-deployAgent.sh"

  datatype InstallParams = InstallParams(apiHost: string, key: string, secret: string, integrationId: string,
      enableLogMgmt: bool)

  function OptionArgs(present: bool, flag: string, value: string): seq<string> {
    if present then [flag, value] else []
  }

  /** The argument vector the command is meant to have. */
  function InstallArgv(useSudo: bool, p: InstallParams): seq<string> {
    (if useSudo then ["sudo"] else [])
    + ["sh", "/tmp/opsramp-deployAgent.sh", "-i", "silent", "-K", p.key, "-S", p.secret]
    + OptionArgs(p.apiHost != "", "-s", p.apiHost)
    + OptionArgs(p.integrationId != "", "-F", p.integrationId)
    + OptionArgs(p.enableLogMgmt, "-L", "true")
  }

  function Words(argv: seq<string>): seq<Token> {
    seq(|argv|, i requires 0 <= i < |argv| => Word(argv[i]))
  }

  predicate IsLiteral(s: string) { s != "" && AllOrdinary(s) }

  lemma InstallLiterals()
    ensures IsLiteral("sudo") && IsLiteral("sh") && IsLiteral("-i") && IsLiteral("silent") && IsLiteral("-K")
      && IsLiteral("-S")
    ensures IsLiteral("-s") && IsLiteral("-F") && IsLiteral("-L") && IsLiteral("true") && IsLiteral("-c")
  {
  }

  lemma PathIsLiteral()
    ensures IsLiteral(SCRIPT_PATH)
  {
  }

  /** A command text under construction, the words it stands for, and the values they will have. */
  ghost predicate Built(b: string, ws: seq<seq<Part>>, argv: seq<string>) {
    && ws != [] && b == WordsText(ws) && WordTokens(ws) == Words(argv)
    && forall i :: 0 <= i < |ws| ==> WordFits(ws[i])
  }

  lemma AddWord(b: string, ws: seq<seq<Part>>, argv: seq<string>, p: Part)
    requires Built(b, ws, argv) && PartFits(p)
    ensures Built(b + " " + PartText(p), ws + [[p]], argv + [PartValue(p)])
  {
    hide PartFits, PartText, PartValue, PartsText, PartsValue, WordsText, WordTokens;
    WordsSnoc(ws, [p]);
    OnePart(p);
    assert Words(argv + [PartValue(p)]) == Words(argv) + [Word(PartValue(p))];
  }

  lemma FirstWord(p: Part)
    requires PartFits(p)
    ensures Built(PartText(p), [[p]], [PartValue(p)])
  {
    hide PartFits, PartText, PartValue;
    OnePart(p);
    assert [[p]][1..] == [];
    assert WordTokens([[p]]) == Words([PartValue(p)]);
  }

  lemma LiteralPart(s: string)
    requires IsLiteral(s)
    ensures PartFits(Lit(s)) && PartText(Lit(s)) == s && PartValue(Lit(s)) == s
  {
  }

  lemma AddOption(b: string, ws: seq<seq<Part>>, argv: seq<string>, flag: string, p: Part)
    requires Built(b, ws, argv) && IsLiteral(flag) && PartFits(p)
    ensures Built(b + (" " + flag + " ") + PartText(p), ws + [[Lit(flag)], [p]], argv + [flag, PartValue(p)])
  {
    hide PartFits, PartText, PartValue, Built, WordsText, IsLiteral;
    LiteralPart(flag);
    AddWord(b, ws, argv, Lit(flag));
    AddWord(b + " " + flag, ws + [[Lit(flag)]], argv + [flag], p);
    assert b + " " + flag + " " + PartText(p) == b + (" " + flag + " ") + PartText(p);
    assert ws + [[Lit(flag)]] + [[p]] == ws + [[Lit(flag)], [p]];
    assert argv + [flag] + [PartValue(p)] == argv + [flag, PartValue(p)];
  }

  lemma Opening(useSudo: bool) returns (ws: seq<seq<Part>>)
    ensures Built((if useSudo then "sudo " else "") + "sh " + SCRIPT_PATH + " -i silent", ws,
                  (if useSudo then ["sudo"] else []) + ["sh", SCRIPT_PATH, "-i", "silent"])
  {
    InstallLiterals();
    PathIsLiteral();
    hide AllOrdinary;
    var b, argv;
    if useSudo {
      FirstWord(Lit("sudo"));
      AddWord("sudo", [[Lit("sudo")]], ["sudo"], Lit("sh"));
      b, ws, argv := "sudo" + " " + "sh", [[Lit("sudo")]] + [[Lit("sh")]], ["sudo"] + ["sh"];
    } else {
      FirstWord(Lit("sh"));
      b, ws, argv := "sh", [[Lit("sh")]], ["sh"];
    }
    hide Built, WordsText, PartsText;
    AddWord(b, ws, argv, Lit(SCRIPT_PATH));
    b, ws, argv := b + " " + SCRIPT_PATH, ws + [[Lit(SCRIPT_PATH)]], argv + [SCRIPT_PATH];
    AddOption(b, ws, argv, "-i", Lit("silent"));
    assert b + (" " + "-i" + " ") + "silent" == (if useSudo then "sudo " else "") + "sh " + SCRIPT_PATH + " -i silent";
    assert argv + ["-i", "silent"] == (if useSudo then ["sudo"] else []) + ["sh", SCRIPT_PATH, "-i", "silent"];
    ws := ws + [[Lit("-i")], [Lit("silent")]];
  }

  /** Two builder writes: a flag between blanks, and its value. */
  lemma WriteOption(b: string, b': string, ws: seq<seq<Part>>, argv: seq<string>, sp: string, flag: string, p: Part)
    returns (ws': seq<seq<Part>>)
    requires Built(b, ws, argv) && IsLiteral(flag) && PartFits(p)
    requires sp == " " + flag + " " && b' == b + sp + PartText(p)
    ensures Built(b', ws', argv + [flag, PartValue(p)])
  {
    AddOption(b, ws, argv, flag, p);
    ws' := ws + [[Lit(flag)], [p]];
  }

  lemma SpacedFlags()
    ensures " -K " == " " + "-K" + " " && " -S " == " " + "-S" + " " && " -s " == " " + "-s" + " "
    ensures " -F " == " " + "-F" + " " && " -L " == " " + "-L" + " " && " -L true" == " -L " + "true"
  {
  }

  method WriteStart(useSudo: bool) returns (b: string, ghost ws: seq<seq<Part>>)
    ensures Built(b, ws, (if useSudo then ["sudo"] else []) + ["sh", SCRIPT_PATH, "-i", "silent"])
  {
    hide Built, IsLiteral;
    b := "";
    if useSudo {
      b := b + "sudo ";
    }
    b := b + "sh ";
    b := b + SCRIPT_PATH;
    b := b + " -i silent";
    ws := Opening(useSudo);
    assert b == (if useSudo then "sudo " else "") + "sh " + SCRIPT_PATH + " -i silent";
  }

  /** Main result: whatever the key, the secret, the host and the integration id hold, a shell reads the
      command as exactly the intended arguments. */
  method BuildInstallCommand(useSudo: bool, p: InstallParams) returns (b: string)
    ensures Tokens(b) == Some(Words(InstallArgv(useSudo, p)))
  {
    hide Built, ShellQuote, IsLiteral, WordsText, Tokens, Words, OptionArgs;
    ghost var ws;
    b, ws := WriteStart(useSudo);
    ghost var argv := (if useSudo then ["sudo"] else []) + ["sh", SCRIPT_PATH, "-i", "silent"];
    InstallLiterals();
    SpacedFlags();
    ghost var b0 := b;
    b := b + " -K ";
    b := b + ShellQuote(p.key);
    ws := WriteOption(b0, b, ws, argv, " -K ", "-K", Quo(p.key));
    argv := argv + ["-K", p.key];
    b0 := b;
    b := b + " -S ";
    b := b + ShellQuote(p.secret);
    ws := WriteOption(b0, b, ws, argv, " -S ", "-S", Quo(p.secret));
    argv := argv + ["-S", p.secret];
    assert argv == (if useSudo then ["sudo"] else [])
      + ["sh", SCRIPT_PATH, "-i", "silent", "-K", p.key, "-S", p.secret];
    b, ws, argv := WriteTail(b, ws, argv, p);
    BuiltIsRead(b, ws, argv);
  }

  /** The optional writes at the end of the builder. */
  method WriteTail(b: string, ghost ws: seq<seq<Part>>, ghost argv: seq<string>, p: InstallParams)
    returns (b': string, ghost ws': seq<seq<Part>>, ghost argv': seq<string>)
    requires Built(b, ws, argv)
    ensures Built(b', ws', argv')
    ensures argv' == argv + OptionArgs(p.apiHost != "", "-s", p.apiHost)
                          + OptionArgs(p.integrationId != "", "-F", p.integrationId)
                          + OptionArgs(p.enableLogMgmt, "-L", "true")
  {
    hide Built, ShellQuote, AllOrdinary, WordsText;
    InstallLiterals();
    SpacedFlags();
    b', ws', argv' := b, ws, argv;
    if p.apiHost != "" {
      b' := b' + " -s ";
      b' := b' + ShellQuote(p.apiHost);
      ws' := WriteOption(b, b', ws', argv', " -s ", "-s", Quo(p.apiHost));
    }
    argv' := argv' + OptionArgs(p.apiHost != "", "-s", p.apiHost);
    assert p.apiHost == "" ==> argv' == argv;
    ghost var b0, a0 := b', argv';
    if p.integrationId != "" {
      b' := b' + " -F ";
      b' := b' + ShellQuote(p.integrationId);
      ws' := WriteOption(b0, b', ws', argv', " -F ", "-F", Quo(p.integrationId));
    }
    argv' := argv' + OptionArgs(p.integrationId != "", "-F", p.integrationId);
    assert p.integrationId == "" ==> argv' == a0;
    b0, a0 := b', argv';
    if p.enableLogMgmt {
      b' := b' + " -L true";
      assert b0 + " -L " + "true" == b';
      ws' := WriteOption(b0, b', ws', argv', " -L ", "-L", Lit("true"));
    }
    argv' := argv' + OptionArgs(p.enableLogMgmt, "-L", "true");
    assert !p.enableLogMgmt ==> argv' == a0;
  }

  lemma BuiltIsRead(b: string, ws: seq<seq<Part>>, argv: seq<string>)
    requires Built(b, ws, argv)
    ensures Tokens(b) == Some(Words(argv))
  {
    WordsAreReadBack(ws);
  }

  // ---------------------------------------------------------------- scripts behind sh -c

  /** `sh -c` with a quoted script. */
  function ShC(script: string): string {
    "sh -c " + ShellQuote(script)
  }

  /** Any script reaches the inner shell unchanged, as one argument. */
  lemma ScriptIsOneArgument(script: string)
    ensures Tokens(ShC(script)) == Some([Word("sh"), Word("-c"), Word(script)])
  {
    InstallLiterals();
    hide Built, ShellQuote, AllOrdinary, WordsText;
    FirstWord(Lit("sh"));
    AddOption("sh", [[Lit("sh")]], ["sh"], "-c", Quo(script));
    var argv := ["sh"] + ["-c", script];
    var ws := [[Lit("sh")]] + [[Lit("-c")], [Quo(script)]];
    assert "sh" + (" " + "-c" + " ") + ShellQuote(script) == ShC(script);
    BuiltIsRead(ShC(script), ws, argv);
    assert Words(argv) == [Word("sh"), Word("-c"), Word(script)];
  }

  // ---------------------------------------------------------------- the uninstaller

  function RemoveTree(sudo: string): string {
    sudo + "rm -rf /opt/opsramp/agent; " + sudo + "rmdir /opt/opsramp 2>/dev/null;"
  }

  function RemoveDeb(sudo: string): string {
    "if command -v dpkg >/dev/null 2>&1 && " + "dpkg -l opsramp-agent >/dev/null 2>&1; then " +
    sudo + "dpkg -P opsramp-agent 2>&1; " + RemoveTree(sudo)
  }

  function RemoveRpm(sudo: string): string {
    "elif command -v rpm >/dev/null 2>&1 && " + "rpm -qa 2>/dev/null | " + "grep -q opsramp-agent; then " +
    sudo + "rpm -e opsramp-agent 2>&1; " + RemoveTree(sudo)
  }

  function RemovePkg(sudo: string): string {
    "elif command -v pkg >/dev/null 2>&1 && " + "pkg info opsramp-agent >/dev/null 2>&1; then " +
    sudo + "pkg remove -y opsramp-agent 2>&1; " + sudo + "rm -rf /opt/opsramp/agent 2>/dev/null;"
  }

  function RemoveBare(sudo: string): string {
    "elif [ -d /opt/opsramp/agent ]; then " + "[ -x /opt/opsramp/agent/opsramp-agent ] && " +
    sudo + "/opt/opsramp/agent/opsramp-agent uninstall" + " 2>&1; " + RemoveTree(sudo)
  }

  const NOTHING_TO_REMOVE: string := "else echo \"opsramp agent not found on host\"; " + "exit 0; fi"

  function UninstallScript(sudo: string): string {
    RemoveDeb(sudo) + "\n" + RemoveRpm(sudo) + "\n" + RemovePkg(sudo) + "\n" + RemoveBare(sudo) + "\n"
      + NOTHING_TO_REMOVE
  }

  /** buildUninstallCommand: the operator's command as it is, or the built-in script behind sh -c. */
  function UninstallCommand(useSudo: bool, customCmd: string): string {
    var sudo := if useSudo then "sudo " else "";
    if TrimSpace(customCmd) != "" then sudo + customCmd else ShC(UninstallScript(sudo))
  }

  /** A shell reads the built-in script as one argument, and the operator's own command as it would without sudo,
      with that word before it. */
  lemma UninstallIsRead(useSudo: bool, customCmd: string)
    ensures Tokens(UninstallCommand(useSudo, customCmd)) ==
      if TrimSpace(customCmd) == ""
      then Some([Word("sh"), Word("-c"), Word(UninstallScript(if useSudo then "sudo " else ""))])
      else Prefixed(if useSudo then [Word("sudo")] else [], Tokens(customCmd))
  {
    hide Scan, UninstallScript;
    if TrimSpace(customCmd) == "" {
      ScriptIsOneArgument(UninstallScript(if useSudo then "sudo " else ""));
    } else if useSudo {
      InstallLiterals();
      assert !IsDigit("sudo"[0]);
      RunLit(START, "sudo");
      var l := Lexer(Plain, Some("sudo"), false);
      assert "" + "sudo" == "sudo";
      assert "sudo " + customCmd == "sudo" + (" " + customCmd);
      CompleteAppend(START, "sudo", " " + customCmd);
      PrefixNothing(Complete(l, " " + customCmd));
      BlankAfterWord(l, customCmd);
    } else {
      assert "" + customCmd == customCmd;
      PrefixNothing(Tokens(customCmd));
    }
  }
}
