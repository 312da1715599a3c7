# vl in Dafny

A model of the core of `vl`, a Deno shell-scripting helper in the style of
zx. A script writes `` $`cmd ${arg}` ``. The template is turned into one
command line, and every substituted value is quoted as an ANSI-C `$'...'`
word unless it is a plain token. The call returns a lazy process handle. That
handle is started at most once: by its zero-delay timer, by `then`, by
reading `exitCode`, or by reading one of its streams. It collects its
stdout, stderr and their interleaving, and it settles with a
`ProcessOutput`. The result is fulfilled when the status is 0 or the handle
was marked `noThrow`; otherwise it is rejected. The model also covers:

- `pipe`, which marks the source as piped, so that a source that has not
  yet spawned will not collect its stdout, and installs hooks instead of wiring anything at once. Into a
  handle that is already running with a piped stdin, pre-run and post-run
  hooks go on that handle, and they never fire, because `_run` returns at
  once on a started handle. In every other case the source's own post-run
  hook calls its `stdout.pipe` on the `pipe` argument as given. That
  connects a writable stream; a handle passed there is not a stream (see
  Left out);
- the process-listing helpers (`ps` parsing, `get`, the `psTree` nesting,
  and the per-OS kill command line);
- the argument dispatch of the `vl` command.

Modules, one per file:

- `Base` (base.dfy): `Option`, decimal text and JavaScript's `+str` on
  decimal strings, prefixes, suffixes and `join`.
- `Quoting` (quoting.dfy): `quote`, its escape chain, a decoding partner
  `Unquote`, and bash's own reading of a `$'...'` word (`ShellUnquote`).
- `Outputs` (outputs.dfy): `exitCodeInfo`, the failure message and
  `ProcessOutput`.
- `Command` (command.dfy): `substitute`, the command-line fold and the
  flag-driven configuration.
- `Lifecycle` (lifecycle.dfy): handles in a `World`. A `World` maps each
  handle id to its state and keeps a trace of spawns and stream wirings.
  The module also defines `_run`, the stream getters, `pipe`, `noThrow`,
  the data listeners and the close handler.
- `Session` (session.dfy): every trigger as one `Step`, the invariant
  `Valid` that every step preserves, and what that invariant buys.
- `Proc` (proc.dfy): `get`, the listing parser, `psTree` and the kill
  command.
- `Cli` (cli.dfy): `main` of vl.ts.

Where the code and its documentation disagree, the model follows the code:

- A `ProcessOutput` substituted into a template renders through its
  `toString`, which is the combined output, untrimmed.
- The default prefix is `set -euo pipefail;` whatever the shell.
- The constructor of `ProcessOutput` receives a signal but never stores it,
  so `signal` is always absent.
- The fold that builds the command drops every template fragment after the
  first (see Findings).

## Model

| member | source | states |
|---|---|---|
| Quoting.Quote | index.ts:254-269 | A plain token (letters, digits, `/_.-`) or the empty string is returned unchanged, and only then. Anything else becomes `$'` + escape + `'`. |
| Quoting.ChainedReplaceIsEscape | index.ts:258-266 | The eight global replaces, applied one after another, equal a per-character escape: backslash is doubled, and quote, `\f \n \r \t \v \0` become their backslash letters. Later replaces never touch what earlier ones inserted. |
| Quoting.EscapeRoundTrip | index.ts:257-267 | Un-escaping the escaped text gives back the original string. |
| Quoting.QuoteRoundTrip | index.ts:254-269 | Under `Unquote`, which knows exactly the eight escapes `quote` writes, every quoted word decodes to the original argument. |
| Quoting.ShellReadsQuote | index.ts:254-269 | Under bash's decoding of `$'...'` words, including its one-to-three-digit octal escapes, the quoted text of any argument without NUL decodes back to that argument. For the empty argument that text is empty, and bash passes no argument there (see Left out). |
| Quoting.NulBeforeDigitsExample | index.ts:266 | A NUL followed by `12` is quoted as `$'\012'`, which bash reads as one newline. |
| Quoting.QuoteForShellRoundTrip | index.ts:254-269 | Under `ShellUnquote` (bash's escape decoding, NUL kept), the word written with NUL as `\000` decodes back to the original argument, for every argument. |
| Quoting.QuoteForShellAgrees | index.ts:254-269 | The corrected quoting equals `quote` on every argument without NUL. |
| Quoting.QuoteInjective | index.ts:254-269 | Distinct arguments give distinct quoted words. |
| Base.IntDecimalRoundTrip | index.ts:252 | The decimal text of any integer parses back, under `+str` on decimal strings, to that integer. |
| Command.Substitute | index.ts:252 | A string is its own text. A number's text parses back to the number. `undefined`, `null` and booleans give `undefined`, `null`, `true` and `false`, and these and numbers are non-empty plain tokens. A finished process gives its `toString`, the combined output, untrimmed. |
| Command.ResultRendersUntrimmed | index.ts:142-144 | A process whose combined output is `hi` and a newline is substituted as the one word `$'hi\n'`: the trailing newline is kept. |
| Command.NumberSubstitution | index.ts:252-255 | A number substitutes as decimal text that parses back to the number. Quoting leaves that text unchanged, negative numbers included. |
| Command.UndefinedAndEmptyRendering | index.ts:252-255 | `undefined` renders as the word `undefined`. The empty string renders as nothing. |
| Command.Assemble | index.ts:166-173 | The fold yields the first fragment followed by every slot's rendering. A list slot renders as its quoted elements joined by single spaces. |
| Command.AssembleIgnoresLaterPieces | index.ts:173 | As written, the command does not depend on any fragment after the first. |
| Command.DroppedFragmentsExample | index.ts:166-173 | `` $`echo ${foo} to ${bar}` `` builds `echo foobar` as written, and `echo foo to bar` when interleaved. |
| Command.AssembleInterleaved | index.ts:166-173 | The corrected assembly (fragment, slot, fragment, …, fragment). It starts with the first fragment. |
| Command.InterleavedAgreesOnEmptyFragments | index.ts:166-173 | When every later fragment is empty, the corrected and the as-written assembly agree. |
| Command.ListSlotIsSeparateSlots | index.ts:167-171 | With interleaving, a non-empty list in slot `k` of any template gives the same text as one slot per element in its place, with single-space fragments between them and every other fragment and slot kept. |
| Command.ConfigFromFlags | index.ts:241-249 | `verbose` is the negation of `--quiet`. `--shell` and `--prefix` override `bash` and `set -euo pipefail;`. Each default applies exactly when its flag is absent. |
| Outputs.ExitCodeInfo | index.ts:273-307 | An explanation exists exactly for 2, 126-143, 145-155, 157 and 159. |
| Outputs.FailureMessage | index.ts:195-202 | The message starts with stderr (a newline if stderr is empty), then `    at ` and the provenance. The exit-code line follows, and the explanation is in parentheses only when there is one. Directly after the provenance come a newline and the exit-code line, and after that nothing without a signal, or a newline and the signal line with one. |
| Outputs.SignalLineAppended | index.ts:200-202 | With a signal, the message is the signal-free message plus one line naming the signal. |
| Outputs.MakeOutput | index.ts:114-160 | The output reports the code, stdout, stderr, combined text (`toString`) and message it was built from. Its signal is always absent, because the constructor never stores it. |
| Lifecycle.Run | index.ts:179-234 | A handle that has already started is left as it is. Otherwise the child is spawned once with the shell, prefix + command, and inherited or piped stdin. Stdout is captured unless the handle is piped, and the post-run hook's wiring follows the spawn. No other handle changes. |
| Lifecycle.AccessStream | index.ts:59-75 | A stream getter clears `inheritStdin` and then starts the handle, so a handle started this way spawns with a piped stdin. |
| Lifecycle.PreRunNeverFires | index.ts:97-106 | Under the model's invariant, a handle carrying a pre-run hook has already started, so `_run` returns before the hook is consulted. |
| Lifecycle.Create | index.ts:163-239 | `$` adds one fresh, unstarted, unsettled handle. It has inherited stdin, no hooks and the settings of the moment. Its command is the fold as written: the first template fragment followed by the rendered slots. Existing handles are untouched. |
| Lifecycle.NoThrowIdempotent | index.ts:340-343 | Marking a handle `noThrow` twice is the same as marking it once. |
| Lifecycle.NoThrow | index.ts:340-343 | `noThrow` sets the flag on that handle only and returns the same handle. |
| Lifecycle.PipeInto | index.ts:87-111 | A string destination throws, and so does an already-resolved source; neither changes anything. Otherwise the source is marked piped. Into a running handle with piped stdin, that handle gets pre-run and post-run hooks and is returned. In every other case, the source gets a post-run hook that calls its `stdout.pipe` on the destination argument, and the source is returned. |
| Lifecycle.OnStdout | index.ts:219-223 | A stdout chunk is appended to stdout and to the combined text, but only if the listener was attached at spawn. |
| Lifecycle.OnStderr | index.ts:225-231 | A stderr chunk is always appended to stderr and to the combined text. |
| Lifecycle.Close | index.ts:194-213 | The handle settles: fulfilled exactly when the code is 0 or it is `noThrow`. The output carries the collected buffers, the code and the failure message. Nothing else changes. |
| Session.Step | index.ts:59-111 | Every trigger keeps the invariant. The trace only grows and no handle is lost. A started handle stays started, with the stdin mode it spawned with. |
| Session.SpawnAtMostOnce | index.ts:181 | In any reachable world, no handle appears twice among the spawns, because of the `if (promise.child) return` guard. |
| Session.StartedIffSpawned | index.ts:181-232 | A handle has a child exactly when the trace holds its spawn. |
| Session.TimerForcesStart | index.ts:236-237 | The timer starts a handle that nothing started before. Its spawn is the first new event. |
| Session.StreamReadPipesStdin | index.ts:59-75 | Reading a stream of an unstarted handle spawns it with piped stdin. `then` on a handle still inheriting spawns it with inherited stdin. |
| Session.FreshHandleSpawn | index.ts:187-192 | A handle just created and started by its timer spawns the prefix, then the first template fragment, then the rendered slots, in the configured shell, with inherited stdin and captured stdout. |
| Session.HookRunsAfterSpawn | index.ts:232-233 | When a handle with a pipe hook starts, the trace gains its spawn and then the wiring of the source's stdout, in that order. |
| Session.PipeIntoRunningIsInert | index.ts:97-106 | A pipe into a running handle returns that handle. The hooks it installs never add anything to the trace. |
| Session.LatePipeIsInert | index.ts:107-109 | A pipe on a source that has already started stores a hook that never runs. |
| Session.PipedOutputHasNoStdout | index.ts:230-231 | A handle piped before it spawned settles with empty stdout, and its `toString` is its stderr. |
| Session.CombinedOutputContents | index.ts:215-229 | The combined text of a settled handle holds exactly the characters of its stdout and its stderr: the lengths add up and the multisets match. |
| Session.SettlesOnce | index.ts:211-212 | After the close event, further chunks or closes for that handle change nothing. |
| Proc.ParseListing | proc.ts:52-63 | There is one record per non-blank line after the header. |
| Proc.ParseRowsAt | proc.ts:55-63 | Record `i` is row `i` read as columns command, ppid, pid and stat. |
| Proc.EmptyListing | proc.ts:52-53 | Empty output gives no records. |
| Proc.ListingRoundTrip | proc.ts:52-63 | Printing a header and any records with whitespace-free fields, one per line, then parsing, gives back exactly those records in order. |
| Proc.ListingWithFinalNewline | proc.ts:52-63 | The same listing ending in a newline, as `ps` prints it, parses back to exactly those records. |
| Proc.NonBlankAppend | proc.ts:52-53 | The blank-line filter keeps order: it distributes over concatenation. |
| Proc.NonBlankOne | proc.ts:52-53 | A single line is kept exactly when its trimmed text is not empty. |
| Proc.SameLinesSameRecords | proc.ts:52-63 | Two outputs with the same non-blank lines parse to the same records. |
| Proc.BlankLineIgnored | proc.ts:52-53 | A whitespace-only line between two parts of an output changes no record. |
| Proc.TrailingBlankIgnored | proc.ts:52-53 | A whitespace-only last line changes no record. |
| Proc.LeadingBlankIgnored | proc.ts:52-53 | A whitespace-only first line changes no record: the header is the first non-blank line. |
| Proc.FinalNewlineIgnored | proc.ts:52-53 | A final newline changes no record. |
| Proc.Get | proc.ts:22-24 | `get` finds no record exactly when no record has that pid. Otherwise it returns the first record with that pid. |
| Proc.Children | proc.ts:75-76 | The filter step keeps exactly the records whose parent is the given pid. |
| Proc.ChildrenAppend | proc.ts:75-76 | The filter keeps input order: it distributes over concatenation. |
| Proc.Nest | proc.ts:74-85 | `nest` yields one node per child, in input order, each with the same four columns as that child. |
| Proc.Node | proc.ts:77-83 | A childless record is returned unchanged. Any other record gains `children` equal to its own nesting. |
| Proc.NestLevels | proc.ts:74-85 | Every node of a nesting is a child of the given pid and a copy of an input record. Its children, when present, are the nesting of its own pid. |
| Proc.PsTree | proc.ts:72-88 | The tree's roots are the direct children of the pid, in input order. |
| Proc.KillCommand | proc.ts:90-138 | The argv starts with `taskkill`, `kill`, `killall` or `pkill` as the OS and target require, and ends with the target. Windows gets `/f`, `/t` and `/im` or `/pid`. Linux and others get `-9` and `-I` or `-i`, and the case flag only when killing by name. |
| Proc.KillCommandDecodes | proc.ts:90-138 | The argv determines the target and every option that has an effect on that OS. |
| Cli.FirstScriptArg | vl.ts:23 | The script argument is the first argument not starting with `--`. None exists exactly when every argument starts with `--`. |
| Cli.Dispatch | vl.ts:17-33 | The version is shown exactly when the first argument is `--version` or `-v`. The usage is shown exactly when otherwise no script argument exists or it is `-`. In every other case the script is that first argument. |
| Cli.VersionFlagOnlyFirst | vl.ts:19-28 | Only the first position is checked for the version flag. A later `-v` is taken as the script, and a later `--version` is skipped as a flag. |

## Left out

- Spawning, real streams, the clock and the event loop are left out.
  Spawns and stream wirings become trace events. Data chunks, close events
  and timer firings are triggers supplied from outside, in any order.
- The `__from` provenance (a stack-trace line) is a string parameter.
- Echoing the command and the colour printing (`printCommand`, the verbose
  writes) are left out. They affect only the parent's terminal.
- The flags are taken as already parsed by the flags library, which is not
  part of this model.
- `cd`, `ask`, `rmrf`, `fs`, `runScript`, `printVersionInfo` and
  `printUsage` are left out: file system and terminal I/O.
- `quiet`, `sanitize`, `retry`, `kill` and the spinner are left out: they
  are not defined in the modelled files.
- Running `ps`, `wmic` and the kill command, and checking their exit
  status, are left out. Only the text each one produces or receives is
  modelled.
- Base.ParseInt: `+str` is modelled only on optionally signed decimal
  digit strings. A leading `+`, hexadecimal, exponent and fractional forms
  and `Infinity` read as absent here rather than as a JavaScript number.
  JavaScript also reads the empty string as 0 and ignores surrounding
  whitespace. Neither case reaches the parser here: the ps columns are
  non-empty runs of characters other than whitespace.
- Proc.ParseListing: the Windows `wmic` column order is not distinguished.
  Every listing is read in the `ps -o comm,ppid,pid,stat` order.
- Proc.Nest: it requires an acyclic ranking of all parent links in the
  listing. The source recurses without bound only when a cycle is
  reachable from the pid given to `psTree`; a listing with a cycle
  elsewhere is fine for the source but outside this model.
- Lifecycle.Run: the pre-run hook branch is not written. Under the model's
  invariant no handle that has not started carries one.
- Command.Assemble: an array nested inside a list slot is not modelled.
  Its elements are scalars.
- Command.Substitute: numbers are integers only. JavaScript writes
  fractions (`1.5`), magnitudes from `1e21` up (`1e+21`), `NaN` and
  `Infinity` in ways not modelled. Objects other than a finished
  `ProcessOutput` are not values here: an unawaited handle would
  substitute as `[object Promise]`.
- Quoting.QuoteRoundTrip: it is stated under `Unquote`, the model's decoder
  of the eight escapes. bash reads `\0` followed by octal digits as one
  octal escape, so under bash's reading the round trip holds only without
  NUL (`Quoting.ShellReadsQuote`; see Findings).
- Quoting.ShellUnquote: only the escapes `quote` can write are decoded.
  The other escapes bash knows (`\a`, `\x`, `\u`, `\c` and the rest) are
  refused. The decoded word keeps a NUL, where bash ends the word there.
- Quoting.ShellReadsQuote: `quote` leaves the empty argument as empty
  text, and bash drops an empty unquoted word, so `` $`cmd ${""} x` `` runs
  `cmd` with `x` alone. `ShellUnquote` reads that empty text as an empty
  argument, so for `""` the round trip is about decoding, not about the
  argument vector. The same holds for `Quoting.QuoteForShellRoundTrip`.
- Quoting.QuoteForShellRoundTrip: it is stated under `ShellUnquote`, which
  keeps a decoded NUL. bash ends the word at a NUL, and no NUL can reach a
  command's argument vector, so for an argument with NUL the command still
  receives only the part before it. The theorem is about the characters
  bash decodes, not about what the command receives.
- Lifecycle.PipeInto: a destination handle that is not running with a
  piped stdin (one not yet started, or one running with inherited stdin)
  is handed by the source's post-run hook to `stdout.pipe` as if it were
  writable (index.ts:107-108). A handle has no `on`, `write` or `end`, so
  in the source that call cannot connect it and fails inside `_run`
  (index.ts:232-233) rather than feeding the handle's stdin. The model
  records the hook's `Wired` event and does not model that failure.

## Findings

| source | as written | input that shows it | evidently intended | confidence | as-written member | corrected member |
|---|---|---|---|---|---|---|
| index.ts:266 | NUL is escaped as the two characters `\0`. bash reads `\` followed by one to three octal digits as one character, so the escape absorbs the digits that follow it. | The argument NUL, `1`, `2` is quoted as `$'\012'`, which bash reads as a newline. vl.test.ts:41-44 expects quoted arguments to read back unchanged. | NUL is escaped as the full three-digit `\000`, so no digit after it joins the escape. bash still ends the word at the NUL; the correction only removes the absorption of the digits. | not executed | Quoting.Quote (witness Quoting.NulBeforeDigitsExample) | Quoting.QuoteForShell (Quoting.QuoteForShellRoundTrip, Quoting.QuoteForShellAgrees) |
| index.ts:166-173 | The rendered slots are folded onto `pieces[0]` alone, so every later template fragment is dropped. | `` $`echo ${foo} to ${bar}` `` with `foo = "foo"` and `bar = "bar"` gives `echo foobar`. vl.test.ts:62-69 expects the fragments kept. | The fragments are interleaved with the slots: `echo foo to bar`. | not executed | Command.Assemble (witness Command.DroppedFragmentsExample) | Command.AssembleInterleaved (Command.ListSlotIsSeparateSlots, Command.InterleavedAgreesOnEmptyFragments) |
