/** The dispatch chain of the file manager: the first token of a line picks one
    of eleven commands by exact, case-sensitive comparison; the commands that
    need arguments take them from the following tokens and report a fixed
    message when they are missing. The filesystem work each command triggers
    is named, not performed. */
module Commands {
  import opened Tokenizer

  datatype Command =
    | Skip                              // empty or all-space line: nothing printed, nothing done
    | Ls                                // listFiles()
    | Exit                              // leaves the loop
    | Pwd                               // printWorkingDirectory()
    | Back                              // moveToParentDirectory()
    | Help                              // displayHelp()
    | Cd(dir: string)                   // changeDirectory(dir)
    | Create(file: string)              // createFile(file)
    | Delete(file: string)              // deleteFile(file)
    | Rename(source: string, target: string) // renameFile(source, target)
    | Mkdir(dir: string)                // createDirectory(dir)
    | Rmdir(dir: string)                // removeDirectory(dir)
    | MissingArg(message: string)       // a "requires ..." message, no filesystem call
    | Unknown                           // "Unknown command", no filesystem call

  /** The command names the chain compares the first token against. */
  const Names: set<string> :=
    {"ls", "exit", "pwd", "cd", "back", "create", "delete", "rename", "mkdir", "rmdir", "help"}

  /** How many tokens after the name a command takes. */
  function Arity(name: string): nat
  {
    if name == "cd" || name == "create" || name == "delete" || name == "mkdir" || name == "rmdir" then 1
    else if name == "rename" then 2
    else 0
  }

  /** The message printed when a command's arguments are missing. */
  function Usage(name: string): string
  {
    if name == "cd" then "cd command requires a directory name"
    else if name == "create" then "create command requires a filename"
    else if name == "delete" then "delete command requires a filename"
    else if name == "rename" then "rename command requires two filenames"
    else if name == "mkdir" then "mkdir command requires a directory name"
    else if name == "rmdir" then "rmdir command requires a directory name"
    else ""
  }

  /** A command the chain selected by name (rather than a skip or an error). */
  predicate Recognized(c: Command)
  {
    !(c.Skip? || c.MissingArg? || c.Unknown?)
  }

  /** The command calls one of the filesystem wrappers. */
  predicate Acts(c: Command)
  {
    Recognized(c) && !c.Exit? && !c.Help?
  }

  function Name(c: Command): string
    requires Recognized(c)
  {
    match c
    case Ls => "ls"
    case Exit => "exit"
    case Pwd => "pwd"
    case Back => "back"
    case Help => "help"
    case Cd(_) => "cd"
    case Create(_) => "create"
    case Delete(_) => "delete"
    case Rename(_, _) => "rename"
    case Mkdir(_) => "mkdir"
    case Rmdir(_) => "rmdir"
  }

  /** The arguments a command passes to its wrapper, in order. */
  function Args(c: Command): seq<string>
  {
    match c
    case Cd(d) => [d]
    case Create(f) => [f]
    case Delete(f) => [f]
    case Rename(a, b) => [a, b]
    case Mkdir(d) => [d]
    case Rmdir(d) => [d]
    case _ => []
  }

  /** The tokens that select `c`: its name followed by its arguments. */
  function CommandLine(c: Command): seq<string>
    requires Recognized(c)
  {
    [Name(c)] + Args(c)
  }

  /** The `strcmp` chain of the read loop: the command `name` selects, given the
      tokens that follow it on the line. */
  function Select(name: string, args: seq<string>): Command
  {
    if name == "ls" then Ls
    else if name == "exit" then Exit
    else if name == "pwd" then Pwd
    else if name == "cd" then
      (if |args| > 0 then Cd(args[0]) else MissingArg(Usage(name)))
    else if name == "back" then Back
    else if name == "create" then
      (if |args| > 0 then Create(args[0]) else MissingArg(Usage(name)))
    else if name == "delete" then
      (if |args| > 0 then Delete(args[0]) else MissingArg(Usage(name)))
    else if name == "rename" then
      (if |args| > 1 then Rename(args[0], args[1]) else MissingArg(Usage(name)))
    else if name == "mkdir" then
      (if |args| > 0 then Mkdir(args[0]) else MissingArg(Usage(name)))
    else if name == "rmdir" then
      (if |args| > 0 then Rmdir(args[0]) else MissingArg(Usage(name)))
    else if name == "help" then Help
    else Unknown
  }

  /** The whole line's tokens: nothing happens when there are none. */
  function Dispatch(toks: seq<string>): Command
  {
    if toks == [] then Skip else Select(toks[0], toks[1..])
  }

  /** Nothing happens exactly for an empty line, and "Unknown command" is printed
      exactly when the first token is none of the names. */
  lemma DispatchSkips(toks: seq<string>)
    ensures Dispatch(toks) == Skip <==> toks == []
    ensures Dispatch(toks) == Unknown <==> toks != [] && toks[0] !in Names
  {
  }

  /** A known command without enough tokens after it prints its usage message, and
      only then is such a message the outcome. */
  lemma DispatchMissing(toks: seq<string>)
    ensures Dispatch(toks).MissingArg? <==> toks != [] && toks[0] in Names && |toks| <= Arity(toks[0])
    ensures Dispatch(toks).MissingArg? ==> Arity(toks[0]) > 0 && Dispatch(toks).message == Usage(toks[0])
  {
  }

  /** Otherwise the first token names the command, and the tokens after it are its
      arguments, as many as it takes. */
  lemma DispatchSelects(toks: seq<string>)
    requires Recognized(Dispatch(toks))
    ensures toks != [] && Name(Dispatch(toks)) == toks[0] && |toks| > Arity(toks[0])
    ensures Args(Dispatch(toks)) == toks[1..1 + Arity(toks[0])]
  {
    var args := toks[1..];
    if Arity(toks[0]) == 1 {
      assert toks[1..2] == [args[0]];
    } else if Arity(toks[0]) == 2 {
      assert toks[1..3] == [args[0], args[1]];
    }
  }

  /** A filesystem wrapper is called exactly when the first token names a command other
      than `exit` and `help` and all its arguments are there: never for an empty line,
      an unknown name or a missing argument. */
  lemma DispatchActs(toks: seq<string>)
    ensures Acts(Dispatch(toks)) <==>
      && toks != [] && toks[0] in Names && toks[0] != "exit" && toks[0] != "help"
      && |toks| > Arity(toks[0])
  {
    DispatchSkips(toks);
    DispatchMissing(toks);
    if Recognized(Dispatch(toks)) {
      DispatchSelects(toks);
    }
  }

  /** Tokens beyond those a command uses do not change the outcome. */
  lemma DispatchIgnoresExtra(toks: seq<string>, extra: seq<string>)
    requires toks != [] && |toks| > Arity(toks[0])
    ensures Dispatch(toks + extra) == Dispatch(toks)
  {
    var all := toks + extra;
    assert all[0] == toks[0];
    assert all[1..1 + Arity(toks[0])] == toks[1..1 + Arity(toks[0])];
  }

  /** A command's own name and arguments select it again. */
  lemma DispatchCommandLine(c: Command)
    requires Recognized(c)
    ensures Dispatch(CommandLine(c)) == c
  {
  }
}
