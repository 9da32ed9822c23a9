# ESH line handling, modelled in Dafny

ESH is a small interactive shell. It reads a line, splits it on spaces,
strips the newline from each token, and then does one of four things. It
ignores an empty command. It runs one of the built-ins `clear`, `cd` or `exit`.
Otherwise it runs `/usr/bin/<name>` in a child process with the tokens as
the child's argument vector. This project models the text handling and the
command classification that sit between reading the line and calling the
operating system. The calls into the operating system stay abstract.

Modules, one per part of `main.c`:

- `CString` (`cstring.dfy`): C strings as character buffers with a
  terminator, `strlen`, and `Checked`, which makes C's undefined
  accesses explicit (out of bounds, null dereference).
- `Tokenizer` (`tokenizer.dfy`): `splitString`. `Fields` is the reference
  meaning: the maximal runs of non-space characters, left to right.
  `Layout`/`FieldsOfLayout`/`LayoutOfFields` prove that this is exactly what
  the fields are. `Strtok` models one `strtok` call, with its saved position
  as an explicit cursor. `SplitString` is the token loop over a 256-slot
  array, with the sentinel and the final `realloc`.
- `Newline` (`newline.dfy`): `removeTrailingNewline`. It works in place on
  a terminated character buffer.
- `Builtins` (`builtins.dfy`): `cd`. The result of `chdir` is a parameter,
  and `cd` maps it to a return code and a message.
- `Launcher` (`launcher.dfy`): the `program` path buffer of `spawnChild`.
- `Dispatcher` (`dispatch.dfy`): `runChild` up to its operating-system calls.
  It builds `childArgv`, classifies the command and returns an `Action`
  (`NoOp`, `Clear`, `ChangeDir`, `Exit`, `Spawn`).
- `Shell` (`shell.dfy`): the prompt loop as "lines in, actions out". It stops
  with status 0 at `exit` or at the end of the input.

The model uses corrected code wherever the source has one of the four
defects listed under "## Findings". Beside each correction there is a member
that models the code as written, together with the input that shows the
defect.

Where the code does something other than what a reader of `main.c`'s
comments would expect, the model follows the code:

- Only the space character separates tokens. A line's `'\n'` stays on its
  last token until `runChild` strips it. So a lone newline gives one token,
  `"\n"`, which becomes `""` and is then ignored. Tabs do not separate
  tokens: the line `"\t\n"` runs the program `"/usr/bin/\t"`.
- A space before the newline leaves the newline as a token of its own, and
  stripping turns it into `""`. So `"ls \n"` gives the child the argument
  vector `["ls", ""]`, with an empty argument. Not every token the child
  receives is non-empty.
- The no-command test looks only at the first character of the command
  name. A first token that starts with `'\n'` is ignored, even with more
  characters after the newline.
- The token array has 256 slots, so at most 255 tokens fit beside the
  sentinel.
- The path buffer is 64 bytes long.
- `cd` with no argument passes a null pointer to `chdir`. That is not
  reported as a missing argument. Whatever error `chdir` gives comes back
  as -1, and a message is printed only for the five error kinds that `cd`
  checks.

## Model

| member | source | states |
|---|---|---|
| `CString.StrLen` | main.c:120 | `strlen` gives the index of the first terminator; no earlier character is a terminator |
| `Tokenizer.Fields` | main.c:85-96 | every token is non-empty and contains no space |
| `Tokenizer.FieldsOfSpaces` | main.c:85-95 | spaces in front of a line produce no token |
| `Tokenizer.FieldsOfWord` | main.c:85-95 | a space-free word followed by a space or the end is the first token, and the rest is split the same way |
| `Tokenizer.FieldsOfLayout` | main.c:85-96 | words placed with any leading, trailing and repeated spaces split back into exactly those words, in order; no empty tokens appear |
| `Tokenizer.LayoutOfFields` | main.c:85-96 | every line is its tokens placed between runs of spaces, so no character other than a space is dropped, split off or merged |
| `Tokenizer.FieldsExample` | main.c:85-96 | `"ls -la /tmp\n"` splits into `"ls"`, `"-la"`, `"/tmp\n"`, with the newline kept on the last token; `""` gives no token |
| `Tokenizer.FieldCharacters` | main.c:85-96 | each character of a token is a character of the line |
| `Tokenizer.SkipDelimiters` | main.c:85-95 | the position `strtok` starts its token from: the first non-space at or after the saved position, or the end, with only spaces skipped |
| `Tokenizer.Strtok` | main.c:85-95 | one `strtok` call returns a non-empty, space-free token and moves the saved position forward |
| `Tokenizer.StrtokNextField` | main.c:85-95 | `strtok` returns NULL exactly when no token is left; otherwise it returns the next token and the rest splits into the remaining tokens |
| `Tokenizer.Realloc` | main.c:102-103 | the resized array holds exactly the first `tokenIndex + 1` slots |
| `Tokenizer.SplitString` | main.c:71-112 | the result holds the first min(n, 255) tokens in order, NULL at the index equal to that count, and nothing after it; later tokens are dropped |
| `Tokenizer.AsWrittenStores` | main.c:88-94 | with the guard as written, the loop stores at most one slot per token, into slots from the current index up to 256 |
| `Tokenizer.AsWrittenSlotWrites` | main.c:88-99 | as written, the last slot written is the sentinel, at the index equal to the number of stored tokens, and at most one slot is written per token plus the sentinel |
| `Tokenizer.AsWrittenStoresShape` | main.c:88-94 | with the guard as written, the loop stores min(n, 257) tokens, the i-th in slot i |
| `Tokenizer.AsWrittenSplitOverflows` | main.c:73-99 | with the guard as written, a line of 256 or more tokens writes slot 256 of the 256-slot array |
| `Tokenizer.AsWrittenSplitCounterexample` | main.c:73-99 | the line of 256 single-letter words separated by spaces overflows the array as written |
| `Newline.StripNewline` | main.c:114-124 | the result is the string minus its final `'\n'` if it has one, and otherwise the unchanged string |
| `Newline.RemoveTrailingNewline` | main.c:114-124 | a null buffer is a no-op; otherwise the buffer afterwards holds the string without its final newline, and only that slot may change, to the terminator |
| `Newline.AsWrittenRemoveTrailingNewline` | main.c:120-121 | as written, the empty string makes it read index -1 of the string (outside the string, not necessarily outside its allocation); every other string gives the corrected result |
| `Builtins.Cd` | main.c:25-42 | the result is 0 exactly on success and -1 exactly on failure; a message is printed exactly for the five known error kinds; not-a-directory names the file, and does-not-exist has its own message |
| `Builtins.Message` | main.c:29-38 | a message exists exactly for the five known error kinds; the not-a-directory message starts with the filename as `printf` shows it |
| `Builtins.MessagesDistinct` | main.c:29-38 | two different known error kinds never print the same message, whatever the filenames |
| `Launcher.ProgramPath` | main.c:145-146 | the path starts with `/usr/bin/`, continues with a prefix of the name, and fits the 64-byte buffer with its terminator; it is the full `/usr/bin/` + name exactly when the name has at most 54 characters |
| `Launcher.BuildProgramPath` | main.c:145-146 | the 64-byte buffer ends up holding a terminated string equal to `ProgramPath(name)` |
| `Launcher.AsWrittenProgramPath` | main.c:145-146 | as written, `strncat(program, file, 64)` writes past the 64-byte buffer exactly when the name is longer than 54 characters |
| `Launcher.AsWrittenPathOverflows` | main.c:145-146 | as written, a 55-character name puts its terminator at byte 64 |
| `Dispatcher.Argv` | main.c:172-180 | `childArgv` holds min(n, 255) entries: the kept tokens, in order, each without its final newline |
| `Dispatcher.CopyArgv` | main.c:174-180 | the copy loop fills `childArgv` up to the sentinel with the stripped tokens, and the remaining slots stay NULL |
| `Dispatcher.DispatchArgv` | main.c:186-212 | the result is the `strcmp` chain's decision on `childArgv`: no-op when the first character of `argv[0]` is the terminator or `'\n'`, `clear`, `cd` with the stripped second slot or NULL, `exit`, or spawn with the path and the argument vector whose `argv[0]` has been stripped again; afterwards slot 0 holds the spawned `argv[0]` in the spawn branch and is unchanged otherwise, and every other slot is unchanged |
| `Dispatcher.RunChild` | main.c:167-212 | `runChild` on a line does what `Dispatch` says the line means |
| `Dispatcher.ArgvOfTypedLine` | main.c:173-180 | a typed line of words (spaces in front and between, none before the newline that ends it) gives exactly those words, in order, as `childArgv`; the newline is stripped from the last word |
| `Dispatcher.DispatchTypedLine` | main.c:173-212 | a typed line of words (spaces in front and between, none before the newline that ends it) gives the child exactly those words as `argv`, with `argv[0]` the command name; it dispatches to `clear`, `cd <second word or NULL>`, `exit` or `/usr/bin/<name>` by exact, case-sensitive match on the first word |
| `Dispatcher.Classify` | main.c:186-212 | no-op exactly when there is no token or the first character of `argv[0]` is the terminator or `'\n'`; `clear`, `cd` and `exit` exactly on those names, with a `cd` target exactly when there is a second slot, and that target is the second slot without its final newline; a spawned child keeps the argument count and every argument after the first, its `argv[0]` is the first slot stripped again, and its program is the path built from that `argv[0]` |
| `Dispatcher.Dispatch` | main.c:167-212 | a line without tokens does nothing; a spawned child gets min(n, 255) arguments, those after the first being the line's tokens without their final newline |
| `Dispatcher.LeadingNewlineIsNoOp` | main.c:187-190 | a line whose first token starts with `'\n'` does nothing, whatever follows the newline |
| `Dispatcher.SpaceBeforeNewline` | main.c:173-180 | `"ls \n"` gives `["ls", ""]`: the space before the newline makes an extra, empty argument for the child |
| `Dispatcher.BlankLineIsNoOp` | main.c:187-190 | a line of spaces, with or without its newline, does nothing |
| `Dispatcher.DispatchDropsExtraFields` | main.c:88-91 | when a line has more than 255 tokens, a spawned child gets exactly 255 arguments: the first token stripped again as `argv[0]`, then the next 254 kept tokens |
| `Dispatcher.AsWrittenCommandName` | main.c:187 | as written, `*childArgv[0]` dereferences NULL exactly when there is no token |
| `Dispatcher.AsWrittenBlankLineCrashes` | main.c:187 | as written, a final line of spaces without a newline makes it dereference NULL, where the corrected model does nothing |
| `Dispatcher.AsWrittenCdTarget` | main.c:194-200 | as written, the `cd` branch's second strip reads index -1 of its argument (outside the string, not of `getline`'s buffer) exactly when the first strip emptied the second slot |
| `Dispatcher.AsWrittenCdTrailingSpace` | main.c:194-200 | `"cd \n"` gives `["cd", ""]`; as written it reads index -1 of the empty argument, and the corrected model does `cd ""` |
| `Shell.UpToExit` | main.c:203-208 | cutting the actions at the first exit never adds an action |
| `Shell.Session` | main.c:261-329 | the shell takes at most one action per input line |
| `Shell.UpToExitShape` | main.c:203-208 | cutting the actions at the first exit gives a prefix with exit only at its end, which holds exit exactly when the actions do |
| `Shell.SessionStopsAtExit` | main.c:261-329 | each input line is dispatched in order; the shell stops at the first line that dispatches to `exit`, and otherwise at the end of the input |
| `Shell.ProcessLines` | main.c:261-329 | the loop takes exactly the session's actions; it reports an exit command exactly when `exit` was dispatched, and the status is 0 in both cases |

## Left out

- `fork`, `execve`, `waitpid` and `system("clear")` (main.c:148-164, 193, 215-220) are operating-system calls. The model returns them as the actions `Spawn` and `Clear`. A failing `fork` or `waitpid`, which ends the shell with -1, is not modelled.
- `chdir` is an operating-system call. Its result is the parameter of `Builtins.Cd`. The working directory and the `Shell` driver do not feed it in.
- `printf` of a null filename (main.c:30) is undefined in C. The model shows it as glibc does, `(null)`.
- The `WIF*` checks on an uninitialised `status` (main.c:222-239) have no observable effect.
- `signalHandler` and its registration (main.c:62-69, 338-340) are asynchronous signal handling.
- The prompt's I/O is terminal plumbing: `getcwd`, the coloured `printf`, `fflush` and `getline` (main.c:263-306). `Shell.ProcessLines` takes the lines that `getline` returns, with end of input being the end of the sequence.
- A failing `malloc` or `realloc` (main.c:75-78, 105-109, 290-297) ends the shell. The model assumes allocation succeeds.
- `pwd` (main.c:44-55) is never called.
- The commented-out `;`/`&&`/`||` splitting and `getenv` code (main.c:253-259, 308-324) is not compiled.
- The `argsLen` loop in `spawnChild` (main.c:133-143) computes a value that is never used.
- The environment passed to `execve` is not modelled.
- `strtok` writes terminators into the line buffer, and the tokens point into that buffer. The model treats tokens as string values. The one effect of this aliasing that shows is that `spawnChild`'s in-place strip of `file` also changes `argv[0]`. `Dispatcher.DispatchArgv` models that effect explicitly.
- A line is modelled as the characters before its first NUL, because that is all `strtok` sees. Characters are Dafny `char`s, not bytes.
- `Shell.ProcessLines`: when a command is run, only the action is recorded. The `cd` result and the child's exit status are not fed back.

## Findings

| source | as written | input that shows it | evidently intended | confidence | as-written member | corrected member |
|---|---|---|---|---|---|---|
| main.c:73-99 | `if (tokenIndex > 256) break;` guards a 256-slot array, so tokens go into slots 0..256 and the sentinel goes up to slot 257 | a line of 256 words separated by single spaces: the sentinel goes into slot 256. Further on, `runChild`'s 256-slot `childArgv` (main.c:172, 176-179) is then full, so `execve`'s `argv` has no NULL to end it; with 257 or more tokens the copy loop also writes `childArgv[256]`, past its end | keep at most 255 tokens so the sentinel fits in slot 255 | high; not executed | `Tokenizer.AsWrittenSplitCounterexample` | `Tokenizer.SplitString` |
| main.c:145-146 | `strncat(program, file, 64)` may append 64 characters and a terminator after the 9 of `/usr/bin/` in a 64-byte buffer | a command name of 55 characters: its terminator lands on byte 64 | append at most the 54 characters that fit | high; not executed | `Launcher.AsWrittenPathOverflows` | `Launcher.BuildProgramPath` |
| main.c:120-121 | `str[len-1]` is read before `len` is checked, so for the empty string it reads the byte before the string. That byte is outside the allocation only when the string starts it. At ESH's own call sites the defect is latent: in the `cd` branch the argument can already be empty, but the byte read is the terminator `strtok` wrote (or a space) inside `getline`'s buffer. It is never `'\n'`, so nothing is written | the line `"cd \n"` (cd, a space, Enter): its second token `"\n"` is stripped to `""` and then stripped again, reading index -1 of the empty string | leave the empty string unchanged | medium (latent at ESH's call sites); not executed | `Dispatcher.AsWrittenCdTrailingSpace` | `Newline.RemoveTrailingNewline` |
| main.c:187 | `*childArgv[0]` is read with no token, when `childArgv[0]` is NULL | a last line made only of spaces, with no newline, before end of input | treat no token as no command | high; not executed | `Dispatcher.AsWrittenBlankLineCrashes` | `Dispatcher.RunChild` |
