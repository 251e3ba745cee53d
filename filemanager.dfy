/** The read loop of the file manager's `main`: one 256-character buffer is
    reused for every line; `fgets` fills it, a NUL is written over the first
    newline, and `strtok_r` walks a cursor (`rest`) through the buffer, cutting
    tokens off by writing NULs over the spaces that end them. The first token
    is compared against the command names, and commands with arguments ask
    `strtok_r` for one or two more tokens. Only `exit` leaves the loop.

    Each method is proved against the pure functions of `Tokenizer` and
    `Commands`: the result of handling one line is `Parse(line)`. */
module FileManager {
  import opened CStrings
  import opened Tokenizer
  import opened Commands
  import opened Strtok

  /** `char command[256]`: `fgets` stores at most 255 characters and a NUL. */
  const BufferSize: nat := 256
  const NL: char := '\n'

  // ---------------------------------------------------------------------
  // The line, as the pure specification sees it.

  /** `strcspn(command, "\n")`: the index of the first newline, or of the end of
      the C string (a NUL) when there is no newline before it. */
  function LineEnd(s: string, i: nat): (k: nat)
    requires i <= |s|
    ensures i <= k <= |s|
    ensures forall j :: i <= j < k ==> s[j] != NL && s[j] != NUL
    ensures k == |s| || s[k] == NL || s[k] == NUL
    decreases |s| - i
  {
    if i < |s| && s[i] != NL && s[i] != NUL then LineEnd(s, i + 1) else i
  }

  /** The line once `command[strcspn(command, "\n")] = 0` has run. */
  function StripNewline(s: string): (r: string)
  {
    s[..LineEnd(s, 0)]
  }

  /** What the loop does with one line that `fgets` read. */
  function Parse(line: string): Command
  {
    Dispatch(Tokens(StripNewline(line)))
  }

  /** The outcome of one `fgets` call. */
  datatype Read = Failed | Got(line: string)

  /** What `fgets` can deliver into a buffer of `BufferSize` characters. A `char` here
      stands for one byte of `command`. */
  predicate Fits(r: Read)
  {
    r.Got? ==> |r.line| < BufferSize
  }

  /** One iteration of the loop: a failed read prints an error, anything else is parsed. */
  datatype Step = ReadError | Ran(command: Command)

  function StepOf(r: Read): Step
  {
    match r
    case Failed => ReadError
    case Got(line) => Ran(Parse(line))
  }

  /** What the loop would do with each of `inputs`, were it never to stop. */
  function Outcomes(inputs: seq<Read>): (ss: seq<Step>)
    ensures |ss| == |inputs| && forall k :: 0 <= k < |inputs| ==> ss[k] == StepOf(inputs[k])
  {
    seq(|inputs|, k requires 0 <= k < |inputs| => StepOf(inputs[k]))
  }

  /** The steps up to and including the first `exit`. */
  function UntilExit(ss: seq<Step>): seq<Step>
  {
    if ss == [] then []
    else if ss[0] == Ran(Exit) then [Ran(Exit)]
    else [ss[0]] + UntilExit(ss[1..])
  }

  /** The steps of the loop over the outcomes `inputs` of successive `fgets` calls. */
  function Transcript(inputs: seq<Read>): seq<Step>
  {
    UntilExit(Outcomes(inputs))
  }

  // ---------------------------------------------------------------------
  // Facts about the pure specification.

  /** After stripping, the line is its longest prefix free of newlines (and of NULs,
      which end a C string); a line that has neither is left as it is. */
  lemma StripNewlineSpec(s: string)
    ensures var r := StripNewline(s);
      && r == s[..|r|] && Lacks(r, NL) && Lacks(r, NUL)
      && (|r| == |s| || s[|r|] == NL || s[|r|] == NUL)
    ensures Lacks(s, NL) && Lacks(s, NUL) ==> StripNewline(s) == s
  {
    var k := LineEnd(s, 0);
    assert forall j :: 0 <= j < k ==> s[..k][j] == s[j];
  }

  lemma LineEndAt(s: string, k: nat)
    requires k <= |s| && (forall j :: 0 <= j < k ==> s[j] != NL && s[j] != NUL)
    requires k == |s| || s[k] == NL || s[k] == NUL
    ensures LineEnd(s, 0) == k
  {
  }

  /** A line free of newlines and NULs, followed by anything: stripping keeps the line. */
  lemma StripNewlineAppend(a: string, b: string)
    requires Lacks(a, NL) && Lacks(a, NUL)
    ensures StripNewline(a + b) == a + StripNewline(b)
  {
    var k := LineEnd(b, 0);
    var s := a + b;
    assert forall j :: 0 <= j < |a| ==> s[j] == a[j];
    assert forall j :: |a| <= j < |s| ==> s[j] == b[j - |a|];
    LineEndAt(s, |a| + k);
    assert s[..|a| + k] == a + b[..k];
  }

  /** The buffer after `fgets`: the line, a NUL, then whatever an earlier line left. */
  lemma StripNewlineBuffer(line: string, stale: string)
    ensures LineEnd(line + [NUL] + stale, 0) == LineEnd(line, 0)
    ensures StripNewline(line + [NUL] + stale) == StripNewline(line)
  {
    var s := line + [NUL] + stale;
    var k := LineEnd(line, 0);
    assert forall j :: 0 <= j < |line| ==> s[j] == line[j];
    assert s[|line|] == NUL;
    LineEndAt(s, k);
    assert s[..k] == line[..k];
  }

  /** A blank line (empty or spaces only, up to the newline) is skipped, and only a blank line is. */
  lemma ParseSkip(line: string)
    ensures Parse(line) == Skip <==> forall i :: 0 <= i < |StripNewline(line)| ==> StripNewline(line)[i] == SP
  {
  }

  /** Tokens after the ones a command uses are ignored: `ls foo` is `ls`, `cd a b` is `cd a`. */
  lemma ParseIgnoresExtra(line: string, extra: string)
    requires Lacks(line, NL) && Lacks(line, NUL)
    requires Tokens(line) != [] && |Tokens(line)| > Arity(Tokens(line)[0])
    ensures Parse(line + [SP] + extra) == Parse(line)
  {
    StripNewlineSpec(line);
    StripNewlineAppend(line + [SP], extra);
    assert Lacks(line + [SP], NL) && Lacks(line + [SP], NUL) by {
      assert forall j :: 0 <= j < |line| ==> (line + [SP])[j] == line[j];
    }
    assert StripNewline(line + [SP] + extra) == line + [SP] + StripNewline(extra);
    TokensConcat(line, StripNewline(extra));
    DispatchIgnoresExtra(Tokens(line), Tokens(StripNewline(extra)));
  }

  /** A command whose arguments are tokens that survive stripping. */
  predicate Issuable(c: Command)
  {
    Recognized(c) && forall a :: a in Args(c) ==> Word(a) && Lacks(a, NL) && Lacks(a, NUL)
  }

  /** The command typed in its plainest form: name and arguments, one space apart. */
  function Render(c: Command): string
    requires Recognized(c)
  {
    Unwords(CommandLine(c))
  }

  /** A line typed without newlines or NULs, then return: stripping gives back the line. */
  lemma StripTyped(s: string)
    requires Lacks(s, NL) && Lacks(s, NUL)
    ensures StripNewline(s + [NL]) == s
  {
    StripNewlineAppend(s, [NL]);
    assert StripNewline([NL]) == [];
    assert s + [] == s;
  }

  /** Command names hold no spaces, newlines or NULs. */
  lemma NamePlain(c: Command)
    requires Recognized(c)
    ensures Word(Name(c)) && Lacks(Name(c), NL) && Lacks(Name(c), NUL)
  {
  }

  /** The plainest form of a command splits back into its name and arguments. */
  lemma RenderTokens(c: Command)
    requires Issuable(c)
    ensures Lacks(Render(c), NL) && Lacks(Render(c), NUL)
    ensures Tokens(Render(c)) == CommandLine(c)
  {
    var ws := CommandLine(c);
    NamePlain(c);
    assert ws == [Name(c)] + Args(c);
    assert forall w :: w in ws ==> Word(w) && Lacks(w, NL) && Lacks(w, NUL);
    UnwordsLacks(ws, NL);
    UnwordsLacks(ws, NUL);
    TokensOfUnwords(ws);
  }

  /** Typing a command's plainest form, and pressing return, selects that command. */
  lemma ParseRender(c: Command)
    requires Issuable(c)
    ensures Parse(Render(c) + [NL]) == c
  {
    RenderTokens(c);
    StripTyped(Render(c));
    DispatchCommandLine(c);
  }

  /** The arguments of a command some line selected are tokens of that line, so they
      hold no spaces, newlines or NULs. */
  lemma ParseIssuable(line: string)
    requires Recognized(Parse(line))
    ensures Issuable(Parse(line))
  {
    var s := StripNewline(line);
    StripNewlineSpec(line);
    TokensLack(s, NL);
    TokensLack(s, NUL);
    var toks := Tokens(s);
    DispatchSelects(toks);
    var c := Parse(line);
    assert forall a :: a in Args(c) ==> a in toks by {
      assert Args(c) == toks[1..1 + Arity(toks[0])];
    }
  }

  /** Whatever line selected a command, typing that command's plainest form selects it again. */
  lemma ParseCanonical(line: string)
    requires Recognized(Parse(line))
    ensures Issuable(Parse(line)) && Parse(Render(Parse(line)) + [NL]) == Parse(line)
  {
    ParseIssuable(line);
    ParseRender(Parse(line));
  }

  /** Cutting after the first `exit` leaves a prefix that holds `exit` only as its
      last step, and leaves everything when there is no `exit`. */
  lemma {:induction false} UntilExitSpec(ss: seq<Step>)
    ensures var t := UntilExit(ss);
      && |t| <= |ss| && t == ss[..|t|]
      && (forall k :: 0 <= k < |t| - 1 ==> t[k] != Ran(Exit))
      && (Ran(Exit) in t ==> t[|t| - 1] == Ran(Exit))
      && (Ran(Exit) !in t ==> t == ss)
  {
    if ss != [] && ss[0] != Ran(Exit) {
      var tail := ss[1..];
      UntilExitSpec(tail);
      var t, u := UntilExit(ss), UntilExit(tail);
      assert t == [ss[0]] + u;
      assert forall k :: 1 <= k < |t| ==> t[k] == u[k - 1];
      assert ss == [ss[0]] + tail;
    }
  }

  /** The loop handles the lines in order, one step per line, and stops with the first
      `exit`; without an `exit` every line is handled. */
  lemma TranscriptSpec(inputs: seq<Read>)
    ensures var t := Transcript(inputs);
      && |t| <= |inputs|
      && (forall k :: 0 <= k < |t| ==> t[k] == StepOf(inputs[k]))
      && (forall k :: 0 <= k < |t| - 1 ==> t[k] != Ran(Exit))
      && (Ran(Exit) in t ==> t[|t| - 1] == Ran(Exit))
      && (Ran(Exit) !in t ==> |t| == |inputs|)
  {
    UntilExitSpec(Outcomes(inputs));
  }

  // Concrete lines.

  lemma TabStripped()
    ensures StripNewline("ls\t\n") == "ls\t"
  {
    StripTyped("ls\t");
  }

  lemma TabTokens()
    ensures Tokens("ls\t") == ["ls\t"]
  {
    SingleWord("ls\t");
  }

  /** A tab is not a delimiter: `ls` followed by a tab is not `ls`. */
  lemma TabIsNotADelimiter()
    ensures Parse("ls\t\n") == Unknown
  {
    TabStripped();
    TabTokens();
  }

  lemma CarriageReturnStripped()
    ensures StripNewline("ls\r\n") == "ls\r"
  {
    StripTyped("ls\r");
  }

  lemma CarriageReturnTokens()
    ensures Tokens("ls\r") == ["ls\r"]
  {
    SingleWord("ls\r");
  }

  /** Only the newline is stripped: a line ended by a carriage return and a newline
      keeps the carriage return in its last token. */
  lemma CarriageReturnStays()
    ensures Parse("ls\r\n") == Unknown
  {
    CarriageReturnStripped();
    CarriageReturnTokens();
  }

  lemma UpperCaseStripped()
    ensures StripNewline("LS\n") == "LS"
  {
    StripTyped("LS");
  }

  lemma UpperCaseTokens()
    ensures Tokens("LS") == ["LS"]
  {
    SingleWord("LS");
  }

  /** Names are compared case-sensitively. */
  lemma NamesAreCaseSensitive()
    ensures Parse("LS\n") == Unknown
  {
    UpperCaseStripped();
    UpperCaseTokens();
  }

  lemma SpacedStripped()
    ensures StripNewline("  cd   a b\n") == "  cd   a b"
  {
    StripTyped("  cd   a b");
  }

  lemma SpacedTokens()
    ensures Tokens("  cd   a b") == ["cd", "a", "b"]
  {
    assert Join([2, 3, 1, 0], ["cd", "a", "b"]) == "  cd   a b";
    TokensOfJoin([2, 3, 1, 0], ["cd", "a", "b"]);
  }

  /** Leading and repeated spaces produce no empty tokens; a third token is ignored. */
  lemma SpacesAroundArguments()
    ensures Parse("  cd   a b\n") == Cd("a")
  {
    SpacedStripped();
    SpacedTokens();
  }

  lemma RenameStripped()
    ensures StripNewline("rename a\n") == "rename a"
  {
    StripTyped("rename a");
  }

  lemma RenameTokens()
    ensures Tokens("rename a") == ["rename", "a"]
  {
    assert Join([0, 1, 0], ["rename", "a"]) == "rename a";
    TokensOfJoin([0, 1, 0], ["rename", "a"]);
  }

  lemma RenameDispatch()
    ensures Dispatch(["rename", "a"]) == MissingArg("rename command requires two filenames")
  {
    assert ["rename", "a"][1..] == ["a"];
  }

  /** `rename` with one filename reports the missing one and renames nothing. */
  lemma RenameNeedsTwo()
    ensures Parse("rename a\n") == MissingArg("rename command requires two filenames")
  {
    RenameStripped();
    RenameTokens();
    RenameDispatch();
  }

  // ---------------------------------------------------------------------
  // The buffer, as `main` manipulates it.

  /** `fgets(command, sizeof(command), stdin)` after reading `line`. */
  method Fgets(buf: array<char>, line: string)
    requires buf.Length == BufferSize && |line| < BufferSize
    modifies buf
    ensures buf[..] == line + [NUL] + old(buf[..])[|line| + 1..]
  {
    var i := 0;
    while i < |line|
      invariant 0 <= i <= |line|
      invariant forall j :: 0 <= j < i ==> buf[j] == line[j]
      invariant forall j :: i <= j < buf.Length ==> buf[j] == old(buf[j])
    {
      buf[i] := line[i];
      i := i + 1;
    }
    buf[|line|] := NUL;
    assert buf[..] == line + [NUL] + old(buf[..])[|line| + 1..];
  }

  /** `command[strcspn(command, "\n")] = 0`. */
  method StripNewlineInPlace(buf: array<char>)
    requires Terminated(buf[..], 0)
    modifies buf
    ensures LineEnd(old(buf[..]), 0) < buf.Length
    ensures buf[..] == old(buf[..])[LineEnd(old(buf[..]), 0) := NUL]
    ensures Terminated(buf[..], 0) && CStr(buf[..], 0) == StripNewline(old(buf[..]))
  {
    ghost var a := buf[..];
    ghost var n := Strlen(a, 0);
    var i := 0;
    while buf[i] != NL && buf[i] != NUL
      invariant 0 <= i <= n
      invariant forall j :: 0 <= j < i ==> a[j] != NL && a[j] != NUL
      decreases n - i
    {
      i := i + 1;
    }
    LineEndAt(a, i);
    buf[i] := NUL;
    StrlenAt(buf[..], 0, i);
  }

  /** `token = strtok_r(NULL, " ", &rest)` for a command with one argument. */
  method OneArg(buf: array<char>, rest: nat) returns (found: bool, arg: string)
    requires Terminated(buf[..], rest)
    modifies buf
    ensures var ts := Tokens(old(CStr(buf[..], rest)));
      (found <==> ts != []) && (found ==> arg == ts[0])
    ensures Blanked(old(buf[..]), buf[..], rest, rest + old(Strlen(buf[..], rest)))
  {
    StrtokTokens(buf[..], rest);
    StrtokWrites(buf[..], rest);
    var token, next;
    found, token, next := StrtokR(buf, rest);
    if found {
      arg := ReadToken(buf, token);
    } else {
      arg := [];
    }
  }

  /** The two `strtok_r` calls of `rename`; the second is made even when the first found nothing. */
  method TwoArgs(buf: array<char>, rest: nat) returns (found: bool, source: string, target: string)
    requires Terminated(buf[..], rest)
    modifies buf
    ensures var ts := Tokens(old(CStr(buf[..], rest)));
      (found <==> |ts| >= 2) && (found ==> source == ts[0] && target == ts[1])
    ensures Blanked(old(buf[..]), buf[..], rest, rest + old(Strlen(buf[..], rest)))
  {
    ghost var a0 := buf[..];
    StrtokTwice(a0, rest);
    StrtokWrites(a0, rest);
    var f1, t1, n1 := StrtokR(buf, rest);
    ghost var a1 := buf[..];
    StrtokWrites(a1, n1);
    var f2, t2, n2 := StrtokR(buf, n1);
    BlankedTrans(a0, a1, buf[..], rest, rest + Strlen(a0, rest), n1, n1 + Strlen(a1, n1));
    found := f1 && f2;
    if found {
      source := ReadToken(buf, t1);
      target := ReadToken(buf, t2);
    } else {
      source, target := [], [];
    }
  }

  /** The `strcmp` chain that follows the first token, in the order `main` tests the names. */
  method Execute(buf: array<char>, token: nat, rest: nat) returns (c: Command)
    requires Terminated(buf[..], token) && Terminated(buf[..], rest)
    modifies buf
    ensures c == Select(old(CStr(buf[..], token)), Tokens(old(CStr(buf[..], rest))))
    ensures Blanked(old(buf[..]), buf[..], rest, rest + old(Strlen(buf[..], rest)))
  {
    var yes := StrEquals(buf, token, "ls");
    if yes { return Ls; }
    yes := StrEquals(buf, token, "exit");
    if yes { return Exit; }
    yes := StrEquals(buf, token, "pwd");
    if yes { return Pwd; }
    yes := StrEquals(buf, token, "cd");
    if yes {
      var found, dir := OneArg(buf, rest);
      return if found then Cd(dir) else MissingArg(Usage("cd"));
    }
    yes := StrEquals(buf, token, "back");
    if yes { return Back; }
    yes := StrEquals(buf, token, "create");
    if yes {
      var found, file := OneArg(buf, rest);
      return if found then Create(file) else MissingArg(Usage("create"));
    }
    yes := StrEquals(buf, token, "delete");
    if yes {
      var found, file := OneArg(buf, rest);
      return if found then Delete(file) else MissingArg(Usage("delete"));
    }
    yes := StrEquals(buf, token, "rename");
    if yes {
      var found, source, target := TwoArgs(buf, rest);
      return if found then Rename(source, target) else MissingArg(Usage("rename"));
    }
    yes := StrEquals(buf, token, "mkdir");
    if yes {
      var found, dir := OneArg(buf, rest);
      return if found then Mkdir(dir) else MissingArg(Usage("mkdir"));
    }
    yes := StrEquals(buf, token, "rmdir");
    if yes {
      var found, dir := OneArg(buf, rest);
      return if found then Rmdir(dir) else MissingArg(Usage("rmdir"));
    }
    yes := StrEquals(buf, token, "help");
    if yes { return Help; }
    return Unknown;
  }

  /** The buffer `after` a line was handled in a buffer that held `before`: the line as
      `fgets` stored it, with a NUL over its newline and then the stale characters of
      `before`, on which `strtok_r` has overwritten some spaces of the stripped line by NULs. */
  ghost predicate AfterLine(line: string, before: seq<char>, after: seq<char>)
  {
    && |line| < |before|
    && var filled := line + [NUL] + before[|line| + 1..];
       Blanked(filled[LineEnd(line, 0) := NUL], after, 0, LineEnd(line, 0))
  }

  /** One pass of the loop body after a successful `fgets` of `line`. */
  method ProcessLine(buf: array<char>, line: string) returns (c: Command)
    requires buf.Length == BufferSize && |line| < BufferSize
    modifies buf
    ensures c == Parse(line)
    ensures AfterLine(line, old(buf[..]), buf[..])
    ensures Terminated(buf[..], 0) && CStr(buf[..], 0) <= StripNewline(line)
  {
    Fgets(buf, line);
    ghost var stale := old(buf[..])[|line| + 1..];
    TerminatedBy(buf[..], 0, |line|);
    StripNewlineBuffer(line, stale);
    StripNewlineInPlace(buf);
    ghost var s := StripNewline(line);
    ghost var a1 := buf[..];
    assert CStr(a1, 0) == s;
    ghost var n := Strlen(a1, 0);
    assert n == LineEnd(line, 0);
    StrtokTokens(a1, 0);
    StrtokWrites(a1, 0);
    var found, token, rest := StrtokR(buf, 0);
    if !found {
      BlankedPrefix(a1, buf[..], 0, n, 0);
      return Skip;
    }
    ghost var a2 := buf[..];
    c := Execute(buf, token, rest);
    BlankedTrans(a1, a2, buf[..], 0, n, rest, rest + Strlen(a2, rest));
    BlankedPrefix(a1, buf[..], 0, n, 0);
  }

  /** One iteration of the loop body on the outcome of one `fgets` call. */
  method Iteration(buf: array<char>, r: Read) returns (step: Step)
    requires buf.Length == BufferSize && Fits(r)
    modifies buf
    ensures step == StepOf(r)
    ensures r.Failed? ==> buf[..] == old(buf[..])
    ensures r.Got? ==> AfterLine(r.line, old(buf[..]), buf[..])
  {
    if r.Failed? {
      step := ReadError;
    } else {
      var c := ProcessLine(buf, r.line);
      step := Ran(c);
    }
  }

  /** The `while (1)` loop of `main` over the lines that `fgets` delivers, until `exit`. */
  method Run(inputs: seq<Read>) returns (steps: seq<Step>, exited: bool)
    requires forall k :: 0 <= k < |inputs| ==> Fits(inputs[k])
    ensures steps == Transcript(inputs)
    ensures exited <==> Ran(Exit) in steps
  {
    var buf := new char[BufferSize];
    ghost var ss := Outcomes(inputs);
    steps, exited := [], false;
    var i := 0;
    assert ss[i..] == ss;
    while i < |inputs| && !exited
      invariant 0 <= i <= |inputs| && buf.Length == BufferSize
      invariant UntilExit(ss) == steps + (if exited then [] else UntilExit(ss[i..]))
      invariant exited <==> Ran(Exit) in steps
    {
      var step := Iteration(buf, inputs[i]);
      assert ss[i..][1..] == ss[i + 1..];
      steps := steps + [step];
      exited := step == Ran(Exit);
      i := i + 1;
    }
  }
}
