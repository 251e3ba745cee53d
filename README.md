# File manager command loop, in Dafny

The file manager is an interactive shell. Its `main` holds one 256-character
buffer and loops forever:

1. It reads a line into the buffer with `fgets`.
2. It writes a NUL over the first newline.
3. It splits the line on spaces with `strtok_r`.
4. It compares the first token against eleven command names: `ls`, `exit`, `pwd`,
   `cd`, `back`, `create`, `delete`, `rename`, `mkdir`, `rmdir` and `help`.

`cd`, `create`, `delete`, `mkdir` and `rmdir` need one more token, and
`rename` needs two. When a token is missing, the command prints a fixed
"requires ..." message. Any other first token prints "Unknown command". An
empty line does nothing. A failed read prints an error and goes on. Only
`exit` leaves the loop.

The model has five modules:

- `CStrings`: a character buffer as C's string functions see it. The C
  string at index `i` runs to the first NUL. It also holds the in-buffer
  `strcmp` against a literal (`StrEquals`) and the copy of a token out of the
  buffer (`ReadToken`).
- `Tokenizer`: the token list that repeated `strtok_r(…, " ", …)` calls
  return, as pure functions (`NextToken`, `Tokens`). It is proved equal to an
  independent description: the words of a layout of words and runs of
  spaces (`Join`, `Layout`).
- `Strtok`: `strtok_r` itself, as a method over the buffer array with
  the `rest` cursor. It skips spaces, finds the end of the token, writes a
  NUL over the space that ended it and moves the cursor past it. It is
  proved equal to a function of the buffer (`StrtokOn`). That function is
  proved to return the tokens `Tokenizer` describes.
- `Commands`: the dispatch chain over the token list (`Select`, `Dispatch`).
  The result names the filesystem action a command would call, without
  performing it.
- `FileManager`: the loop body and the loop.
  - The loop body is `Fgets`, `StripNewlineInPlace`, the first `StrtokR`, then
    `Execute` with its `OneArg`/`TwoArgs` calls. `Execute` tests the names in
    source order.
  - The loop is `Iteration` and `Run`.
  - Each line's outcome is proved to be `Parse(line)`, the pure
    `Dispatch(Tokens(StripNewline(line)))`.
  - A run is proved to be `Transcript(inputs)`: one step per read, ending
    with the first `exit`.

The buffer is reused from line to line, as in the source. After `fgets`, the
characters behind the NUL are whatever earlier lines left there, and the
proofs hold for any such leftovers.

`strcspn(command, "\n")` stops at a NUL as well as at a newline. So a line
that `fgets` delivered with an embedded NUL ends at that NUL, and
`StripNewline` cuts at whichever comes first.

## Model

| member | source | states |
|---|---|---|
| FileManager.LineEnd | fileManager.c:126 | `strcspn(command, "\n")`: the first index holding a newline or NUL; nothing before it is either |
| FileManager.StripNewlineSpec | fileManager.c:126 | the stripped line is a prefix of the input, holds no newline (and no NUL) and stops at a newline, a NUL or the end; an input without newlines or NULs is unchanged |
| FileManager.StripNewlineBuffer | fileManager.c:122-126 | stripping the buffer after `fgets` (line, NUL, stale characters) gives the same line as stripping the line alone |
| FileManager.StripTyped | fileManager.c:126 | a line without newlines or NULs followed by return strips back to the line |
| FileManager.Fgets | fileManager.c:122 | the buffer holds the line, a NUL, and its old contents after that |
| FileManager.StripNewlineInPlace | fileManager.c:126 | the only write is a NUL at the strip position, and the C string at the start of the buffer is then the stripped line |
| Strtok.SpanSpaces | fileManager.c:130 | the first non-space at or after the cursor, inside the same C string |
| Strtok.SpanWord | fileManager.c:130 | the first space or NUL at or after the token start, with neither before it |
| Strtok.SkipDelimiters | fileManager.c:130 | the loop that skips leading spaces stops where `SpanSpaces` says |
| Strtok.FindDelimiter | fileManager.c:130 | the loop that scans the token stops where `SpanWord` says |
| Strtok.StrtokR | fileManager.c:130 | the method's result, new cursor and new buffer are exactly `StrtokOn` of the old buffer and cursor |
| Strtok.StrtokScans | fileManager.c:130 | a call returns NULL exactly when only spaces remain. Otherwise it returns a NUL-terminated copy in place of the next token and leaves the cursor on the rest, overwriting only the delimiter |
| Strtok.StrtokTokens | fileManager.c:143 | in token-list terms, a call finds a token exactly when one remains, returns the first and leaves the others at the cursor |
| Strtok.StrtokWrites | fileManager.c:130 | a call writes nothing but NULs over spaces of the string at the cursor, and the string at the new cursor ends no later than the old one |
| Strtok.BlankedPrefix | fileManager.c:130 | after such writes the string at an index keeps its terminator and is a prefix of what it was |
| Strtok.StrtokTwice | fileManager.c:169-170 | two calls in a row both find tokens exactly when two remain; they are the first two, and the first is still intact after the second call |
| CStrings.StrEquals | fileManager.c:135 | `strcmp(token, name) == 0` exactly when the C string equals the name |
| CStrings.ReadToken | fileManager.c:145 | the token the wrapper receives is the C string at the token pointer |
| Tokenizer.NextTokenSplit | fileManager.c:130 | one call consumes its input exactly: skipped spaces, token, cut delimiter and rest make up the string |
| Tokenizer.TokensOfJoin | fileManager.c:130 | tokenizing words laid out between runs of spaces gives back exactly those words |
| Tokenizer.JoinOfTokens | fileManager.c:130 | every string is such a layout of its own tokens |
| Tokenizer.TokensCharacterization | fileManager.c:130 | the tokens are `words` if and only if the string is a layout of `words`, i.e. the maximal runs of non-spaces in order |
| Tokenizer.SingleWord | fileManager.c:130 | a non-empty string without spaces is one token, whatever other characters (tab, carriage return) it holds |
| Tokenizer.TokensConcat | fileManager.c:130 | a space between two strings separates their tokens |
| Tokenizer.TokensCons | fileManager.c:130 | a word followed by a space is the first token |
| Tokenizer.TokensOfUnwords | fileManager.c:130 | words joined by single spaces tokenize back to the words |
| Tokenizer.UnwordsLacks | fileManager.c:130 | joining words by spaces adds no character other than the space |
| Tokenizer.TokensLack | fileManager.c:130 | a character the line lacks appears in no token |
| Commands.DispatchSkips | fileManager.c:133-196 | nothing happens exactly for a line without tokens, and "Unknown command" exactly when the first token is none of the eleven names |
| Commands.DispatchMissing | fileManager.c:141-191 | the usage message is the outcome exactly when a command that takes arguments lacks them, and it is that command's own message |
| Commands.DispatchSelects | fileManager.c:135-193 | a selected command is named by the first token, and its arguments are the tokens after it, as many as it takes and in order |
| Commands.DispatchActs | fileManager.c:133-196 | a filesystem wrapper is called exactly when the first token names a command other than `exit` and `help` and its arguments are all there; never for an empty line, an unknown name or a missing argument |
| Commands.DispatchIgnoresExtra | fileManager.c:143-145 | tokens beyond those a command uses do not change the outcome |
| Commands.DispatchCommandLine | fileManager.c:135-193 | a command's name followed by its arguments selects that command |
| FileManager.OneArg | fileManager.c:143-148 | the call finds an argument exactly when the rest of the line has a token, and the argument is that token; the buffer changes only by NULs over spaces of the string at the cursor |
| FileManager.TwoArgs | fileManager.c:169-171 | both names are found exactly when two tokens remain, and they are the first two in order; the buffer changes only by NULs over spaces of the string at the cursor |
| FileManager.Execute | fileManager.c:135-196 | the chain, run on the buffer, selects `Select` of the first token and the tokens after the cursor; the buffer changes only by NULs over spaces of the string at the cursor |
| FileManager.ProcessLine | fileManager.c:126-134 | handling a line in the buffer gives `Parse(line)`, whatever the buffer held before. Afterwards the buffer holds the line, a NUL over its newline and the stale characters, with some spaces of the stripped line turned into NULs (`AfterLine`), and the C string at its start is a prefix of the stripped line |
| FileManager.Iteration | fileManager.c:122-125 | a failed read is reported and leaves the buffer alone; a line read is handled as `Parse` says and leaves the buffer as `AfterLine` describes |
| FileManager.Run | fileManager.c:120-197 | the steps of the loop are `Transcript(inputs)`, and the loop was left exactly when an `exit` is among them |
| FileManager.UntilExitSpec | fileManager.c:137-138 | stopping at the first `exit` leaves a prefix in which `exit` is only the last step, and everything when there is no `exit` |
| FileManager.TranscriptSpec | fileManager.c:120-197 | lines are handled in order, one step each; `exit` is the last step and the only `exit` step; without an `exit` every line is handled |
| FileManager.ParseSkip | fileManager.c:133-134 | a line is skipped if and only if it is empty or all spaces up to the newline |
| FileManager.ParseIgnoresExtra | fileManager.c:143-145 | extra words after the ones a command uses are ignored (`ls foo` is `ls`) |
| FileManager.RenderTokens | fileManager.c:130 | a command's plainest form, its name and arguments a space apart, tokenizes back into its name and arguments |
| FileManager.ParseRender | fileManager.c:129-193 | typing a command's plainest form and return selects that command |
| FileManager.ParseIssuable | fileManager.c:143-145 | the arguments of any selected command hold no spaces, newlines or NULs |
| FileManager.ParseCanonical | fileManager.c:129-193 | whatever line selected a command, typing that command's plainest form selects it again |
| FileManager.TabIsNotADelimiter | fileManager.c:130 | `ls` followed by a tab is an unknown command |
| FileManager.CarriageReturnStays | fileManager.c:126 | `ls` followed by a carriage return and a newline is an unknown command |
| FileManager.NamesAreCaseSensitive | fileManager.c:135 | `LS` is an unknown command |
| FileManager.SpacesAroundArguments | fileManager.c:141-145 | `  cd   a b` changes to directory `a`: no empty tokens, and the third token is ignored |
| FileManager.RenameNeedsTwo | fileManager.c:167-175 | `rename a` prints "rename command requires two filenames" and renames nothing |

## Left out

- The filesystem wrappers (fileManager.c:9-96): each is one operating-system call. A `Command` value names the wrapper and its arguments, and the call itself is not modelled.
- The help text (fileManager.c:98-111), the prompt (fileManager.c:121) and every `printf`/`perror` message: output is not modelled. The usage messages are kept as the `MissingArg` payload, and "Unknown command" and "Error reading input" are kept as the `Unknown` and `ReadError` outcomes.
- Standard input: the outcomes of successive `fgets` calls are a finite list of `Read` values given to `Run`. Each is a failure or a line of at most 255 characters, where a Dafny `char` stands for one byte of `command`; tokenizing and dispatch do not depend on the width of a character. Splitting a longer line over several reads, and the endless loop at end of file (where every read fails), are not modelled.
- `strtok_r`, `strcspn` and `strcmp` come from the C library, which is not part of this model. `StrtokR` follows the usual algorithm: NULL when only delimiters remain, otherwise a NUL written over the ending delimiter and the cursor moved past it.
- `return 0` (fileManager.c:199) and the process exit status: `Run` reports only whether `exit` ended the loop.
- FileManager.OneArg: states that the buffer changes only by NULs over spaces after the cursor, not which spaces. The NUL the next `fgets` writes hides whatever is left (`StripNewlineBuffer`).
- FileManager.TwoArgs: states the bound on its writes, not which spaces it cut, for the same reason.
- FileManager.Execute: states the bound on its writes, not which spaces it cut, for the same reason.
- FileManager.ProcessLine: states the buffer up to which spaces of the stripped line `strtok_r` cut, not which ones, for the same reason.
- FileManager.Iteration: on a failed read the buffer is left as it was, whereas C leaves it indeterminate after a read error; nothing reads it before the next successful `fgets`.
