# A Dafny model of a small C++ shell's parsing and job table

The shell reads a line, recognises two built-ins (`exit`, `myjobs`), and
otherwise forks a child that `execvp`s the command, either waiting for it or
recording it in a table of background jobs. Two versions of the `Shell` class
exist: `shell.cpp` (later: pops a trailing `&` token and handles `<` / `>`
redirection before forking) and `src/shell.cpp` (earlier: forks first and
hands the child the command split on spaces).

This project models the pure logic around the process calls:

- `Tokenizer` (tokenizer.dfy): `splitString`, with `std::getline`
  semantics. `Split` defines the tokens one character at a time.
  `SplitUnfold` shows that the first token is the text before the first
  delimiter. `SplitString` and `GetLine` mirror the getline loop and return
  exactly `Split`'s tokens. `Join` is the inverse used for the round trips.
- `CommandLine` (commandline.dfy): how `run` classifies a line. `Render`
  is the inverse of `Classify`.
- `Redirection` (redirection.dfy): the later `executeCommand`'s argument
  processing. This covers the `&` token, the redirection scan, the two erases
  as written, and a corrected erase.
- `Argv` (argv.dfy): the null-terminated vector handed to `execvp`.
  `ReadArgv` is its inverse.
- `JobTable` (jobtable.dfy): the `BackgroundProcess` table, the append on
  a background launch, and `updateBackgroundProcesses`.
- `Shell` (shell.dfy): one loop iteration of each variant, seen from the
  parent.
- `Outcomes` (outcomes.dfy): `Option` and `Result`.

The operating system appears only as parameters:

- a `ForkOutcome` for what `fork` returned to the parent: a failure, or a
  positive process id (`JobTable.ForkBranchOf` maps a raw return value);
- a function `int -> WaitOutcome` for what a non-blocking `waitpid` says about
  each process id during one poll.

Points where the code's behaviour is easy to misread:

- The code has no pipelines, no whitespace trimming and no empty-command
  check. An empty command is forked, and its child calls `execvp` with a null
  program name.
- A background job's text is the line less its final `&`, so `sleep 5 &` is
  recorded as `sleep 5 ` (`Shell.SleepInBackground`).
- When both redirections are present, the code's second erase can use a stale
  index (see Findings).

`Shell.RootStep` follows the code as written. When the second erase would
run past the end of the vector, that undefined behaviour becomes the explicit
result `Undefined(StaleErase(..))`. The corrected parse is
`Redirection.PrepareCorrected`. `Redirection.PrepareAgrees` proves the two
agree exactly when the pairs are not in stale order.

## Model

| member | source | states |
|---|---|---|
| `Tokenizer.Split` | shell.cpp:133-141 | the token list is empty exactly when the input is empty |
| `Tokenizer.SplitTokensClean` | shell.cpp:137 | no token contains the delimiter |
| `Tokenizer.SplitUnfold` | shell.cpp:137-138 | the first token is exactly the text before the first delimiter, and the rest is split after it |
| `Tokenizer.SplitString` | src/shell.cpp:72-80 | the getline loop returns exactly the tokens `Split` defines |
| `Tokenizer.GetLine` | shell.cpp:137 | one getline call: the token is the text from the read position up to the next delimiter or the end, holds no delimiter, and stops at a delimiter or the end |
| `Tokenizer.SplitJoin` | shell.cpp:133-141 | joining the tokens with the delimiter gives back the input, less at most one trailing delimiter |
| `Tokenizer.JoinSplit` | src/shell.cpp:72-80 | splitting the join of delimiter-free tokens whose last token is non-empty gives back those tokens |
| `Tokenizer.SplitCount` | shell.cpp:136-139 | there is one token per delimiter, plus one if the text after the last delimiter is non-empty |
| `Tokenizer.LeadingDelimiter` | shell.cpp:137-138 | a leading delimiter yields a leading empty token |
| `Tokenizer.DoubledDelimiter` | src/shell.cpp:76-77 | two delimiters in a row yield an empty token between them |
| `Tokenizer.TrailingDelimiter` | shell.cpp:137-139 | a final delimiter adds a token only when the segment it closes is empty |
| `Tokenizer.SplitExamples` | src/shell.cpp:72-80 | `"a  b "` gives `["a","","b"]` and `""` gives `[]` |
| `CommandLine.Classify` | shell.cpp:13-28 | `exit` and `myjobs` are the only built-ins, matched exactly; any other line is background iff its last character is `&`, and the command is the line minus exactly that character |
| `CommandLine.RenderClassify` | src/shell.cpp:12-27 | no character is lost: the action rebuilds the line |
| `CommandLine.ClassifyRender` | shell.cpp:13-30 | every action a line can produce comes back from its rendering |
| `CommandLine.BuiltinWithAmpersand` | src/shell.cpp:12-27 | `exit&` and `myjobs&` are not built-ins; each becomes a background launch of that name |
| `CommandLine.BackgroundLineExample` | shell.cpp:24-28 | only the final character is inspected: `sleep 5 &` becomes `sleep 5 ` in the background, while `sleep 5 & ` stays in the foreground |
| `Redirection.PopBackgroundToken` | shell.cpp:38-41 | at most one token is removed, and only a final `"&"`; the rest is an unchanged prefix; the flag is set iff it was set already or a token was popped |
| `Redirection.PopRestores` | shell.cpp:38-41 | putting the popped token back restores the list; of two final `"&"` tokens one remains |
| `Redirection.PopExample` | shell.cpp:35-41 | `sleep 5 & ` parses to `["sleep","5"]` in the background with no redirection |
| `Redirection.ScanFrom` | shell.cpp:51-65 | the scan loop from any position records the last `<` and the last `>` followed by another token, with that token as the file |
| `Redirection.ScanRedirections` | shell.cpp:51-65 | an operator is recorded only if a token follows it; the last such operator wins; a final operator is never recorded |
| `Redirection.ScanShape` | shell.cpp:52-58 | the recorded input and output positions differ, and each recorded operator is followed by a token that is its file name |
| `Redirection.Erase` | shell.cpp:69 | `erase(i, i+2)` is defined iff `i + 2 <= size`; it removes exactly positions `i` and `i+1`, keeping order |
| `Redirection.CorrectedContents` | shell.cpp:67-73 | the corrected strip leaves the list unchanged with no redirection, removes exactly the operator and operand with one, and removes both pairs in either order with two |
| `Redirection.AsWrittenAgreesIff` | shell.cpp:67-73 | the code's two erases give the intended list iff no `>` pair is recorded that fails to end before the recorded `<` |
| `Redirection.StaleEraseExample` | shell.cpp:68-73 | for `cat < in > out` the second erase runs past the end of a 3-element vector |
| `Redirection.WrongEraseExample` | shell.cpp:68-73 | for `cat < in > out x y` the code erases `x y` and keeps `> out` |
| `Redirection.OutputFirstExample` | shell.cpp:67-73 | with the `>` pair first (`sort > out < in`) the code's result is correct |
| `Redirection.PrepareAgrees` | shell.cpp:35-73 | the code succeeds with exactly the corrected invocation iff the pairs are not in stale order; whenever it succeeds at all, the background flag and both files match the corrected parse |
| `Argv.NativeArgv` | shell.cpp:104-108 | the vector has one more slot than there are arguments; slot k holds argument k; the last slot is null |
| `Argv.ArgvRoundTrip` | src/shell.cpp:43-47 | reading the vector up to its null gives back exactly the arguments |
| `Argv.ChildExec` | shell.cpp:103-110 | for a non-empty list, the program is the first argument, the vector starts with it, and the vector reads back as the list |
| `Argv.SplitArgv` | src/shell.cpp:40-47 | the earlier child's vector is the whole command's tokens plus a null; the arguments join back to the command, so no token is dropped |
| `JobTable.OutcomeOf` | shell.cpp:153-166 | `-1` is a wait error, `0` is still running, and every other value counts as completed |
| `JobTable.UpdateBackgroundProcesses` | shell.cpp:150-168 | the erase-in-place iterator loop leaves exactly the kept entries and prints exactly the reaped notices |
| `JobTable.KeptMembers` | shell.cpp:150-168 | a job survives a poll iff it is in the table and its wait says still running |
| `JobTable.ReapedMembers` | src/shell.cpp:89-107 | a removal notice exists iff the job is in the table and its wait failed or it exited; the notice carries that outcome |
| `JobTable.PollPartitions` | src/shell.cpp:91-106 | kept plus removed equals the table size, and together they hold every entry exactly as often as the table does |
| `JobTable.KeptInOrder` | shell.cpp:152-166 | the surviving entries keep their relative order |
| `JobTable.PollAllRunning` | src/shell.cpp:97-99 | when every entry is still running, a poll changes nothing and reports nothing |
| `JobTable.PollIdempotent` | src/shell.cpp:89-107 | a second poll with the same answers keeps the table and reports nothing |
| `JobTable.RemovedNeverReturns` | src/shell.cpp:93-104 | a job removed by one poll is neither kept nor reported by any later poll |
| `JobTable.ForkBranchOf` | shell.cpp:74-79 | `-1` selects the failure return, `0` the child branch, and only a positive value reaches the parent with that process id |
| `JobTable.RecordLaunch` | shell.cpp:117-129 | after a successful fork, a background launch appends exactly one `(pid, command)` entry with a positive pid and keeps earlier entries; a foreground launch or failed fork leaves the table unchanged |
| `JobTable.LaunchFromFork` | src/shell.cpp:31-61 | from `fork`'s return value in the parent: the table grows only for a background launch with a positive return, by that `(pid, command)`; `-1` leaves it unchanged |
| `JobTable.LaunchThenPoll` | src/shell.cpp:56-61 | after a background launch, a poll treats earlier entries as before; the new job is listed last while it runs |
| `Shell.StepEffect` | shell.cpp:6-31 | only `exit` stops; only `myjobs` removes entries, keeping them in order; any other line appends at most one entry, only when backgrounded, named by the command text |
| `Shell.VariantsAgree` | src/shell.cpp:5-70 | the two variants change the table alike unless the last token is a lone `&` or the redirections are in stale order |
| `Shell.SleepInBackground` | shell.cpp:117-122 | `sleep 5 &` appends `(pid, "sleep 5 ")` in both variants, and `myjobs` while it runs keeps that entry |
| `Shell.SpacedAmpersandRoot` | shell.cpp:38-41 | in the later variant `sleep 5 & ` runs in the background, recording the whole line |
| `Shell.SpacedAmpersandSrc` | src/shell.cpp:22-29 | in the earlier variant `sleep 5 & ` runs in the foreground and the table stays empty |
| `Shell.StaleEraseLine` | shell.cpp:68-73 | the line `cat < in > out` reaches the out-of-range erase; the corrected parse gives `cat` with input `in` and output `out` |

## Findings

| source | as written | input that shows it | evidently intended | confidence | as-written member | corrected member |
|---|---|---|---|---|---|---|
| shell.cpp:68-73 | the output pair is erased at the index recorded before the input pair was erased | `cat < in > out`: the second erase is at index 3 of a 3-element vector, which is undefined behaviour | erase each pair at its original position | high; not executed | `Redirection.StaleEraseExample` | `Redirection.CorrectedContents` |
| shell.cpp:68-73 | with the `<` pair first and more tokens after the output file, the second erase removes the wrong two tokens | `cat < in > out x y` leaves `cat > out` where `cat x y` was meant | erase each pair at its original position | high; not executed | `Redirection.WrongEraseExample` | `Redirection.CorrectedContents` |

`Redirection.AsWrittenAgreesIff` states the general condition for both rows.
The code is wrong whenever both redirections are recorded and the `>` pair
does not end before the `<`. That includes the overlapping `> < file`, where
`<` is both the output file and the input operator. For that case the
corrected strip drops all three tokens. This is a choice, since the code
gives no meaning there.

## Left out

- `fork`, `execvp`, `waitpid`, `open`, `dup2` and `close` are operating-system calls. Only their outcomes are modelled: the fork result and the poll's wait answers are parameters.
- The child's redirection set-up (open, `dup2`, close, exit on open failure) is left out. Its flags and mode are kept only as constants.
- The foreground `waitpid` and its `status != 0` message are left out. They depend on the OS's encoding of wait statuses and do not touch the table.
- The `getline(std::cin, ...)` prompt loop is left out; `Shell` models one iteration.
- All printing, including `showBackgroundProcesses`, is display only. The removal messages appear only as `Notice` values.
- `Argv.ChildExec` requires a non-empty argument list. With an empty list, `execvp` receives a null program name, which is undefined.
- `Argv.NativeArgv` does not model `c_str()` truncating a token at an embedded NUL character.
- `JobTable.UpdateBackgroundProcesses` treats the wait answer as a pure function of the pid during one poll. It does not model a second `waitpid` on a duplicate pid returning an error because the first call already reaped the child.
- `JobTable.RecordLaunch` does not model the `pid_t` width; process ids are unbounded positive integers.
- `JobTable.ForkBranchOf` requires a return value of at least `-1`, the only values `fork` produces; the code would treat any other negative value as a parent-side id.
- `Shell.RootStep` turns the undefined out-of-range erase into an explicit failure value. What the real program does then is not modelled.
- Pipelines, pipe wiring and concurrency between children are left out: the code has none.
