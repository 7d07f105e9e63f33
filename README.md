# Minecraft server manager — a Dafny model

This project models the central parts of a small web application and command line that manage Minecraft
server instances on a Linux host. A registered server is a row `(name, dir)` in the table
`minecraft-servers`, plus:
- its directory under `MINECRAFT_PATH`;
- a systemd service unit `minecraft-server-<dir>.service`;
- a socket unit whose FIFO carries console commands to the server.

The modelled parts are:

- **The lifecycle** (`MinecraftServer`, over the stores in `Host`):
  - `create` and `_import`: insert the row, read a UNIQUE-constraint failure back as "Name already
    exists" or "Directory already exists", create and chown the directory (an existing directory
    rolls the row back), then write both unit files;
  - `_delete` with its ENOENT-tolerant `tryRm`;
  - the start, restart, stop and status requests to the systemd manager;
  - `run`, which writes one console line into the FIFO.
- **The journal reader** (`Journal`, with line framing in `Text`): the `journalctl` argument
  vector; the framer that splits stdout chunks at newlines and carries the partial last line over;
  `parseLine`; the leftover handling at the end of stdout; and the terminal `Result` built from the
  collected stderr text.
- **Validation and presentation:**
  - `sanitize`, `capitalize` and the `Autofill` state cells (`Autofill`);
  - the create and import forms, their server actions and the import choices on the home page
    (`HomePage`);
  - the status label, icon and buttons of a server row, the delete form and the guarded server
    actions (`ServerView`);
  - the command line's `parseName`, `create`, `delete`, `start`, `restart` and `stop` (`Cli`).
- **Utilities:**
  - the `Result` union with `unwrap`, `expect` and `assert` (`Results`);
  - `assertTypeOf` and `assertInstanceOf` over a JavaScript value datatype (`Assertions`, `Js`);
  - `map` and `collect` over async iterables (`AsyncIterable`).

Calls that throw are modelled as a `Completion` (`Normal(value)` or `Throw(exception)`).

Each lifecycle operation has two forms:
- a method on the `Host.Machine` class, whose fields are the table rows, the file system and the
  manager requests;
- a pure `…Effect` function.

Each method is proved equal to its `…Effect` function, and the properties are proved about those
functions. A foreign call can fail for a reason the stores do not determine (a busy database, a
permission error, D-Bus). Such a failure is an explicit `fault` parameter.

The model follows the code, including these behaviours a reader might not expect:
- A complete stdout line that is not a valid record ends the journal generator with that
  exception. Records are not skipped.
- The home page (`src/app/page.tsx`) passes the form values on unchanged.
- The home page ignores `create`'s result: a name or directory conflict is answered with
  "Server created" (see Findings).
- Its import choices do not exclude dot-directories.
- `src/minecraft-server.ts` declares the status type without "failed", while the server row renders
  "failed". `getStatus` returns the manager's value unchecked.
- `_delete` appends unit file names to `SYSTEMD_PATH` without a separator, while `create` uses
  `path.join`. The two name the same file only when `SYSTEMD_PATH` is empty or ends in `/`
  (`MinecraftServer.UnitPathsAgree`).

## Model

| member | source | states |
|---|---|---|
| `Results.ConstructorFields` | src/result.ts:1-17 | `Ok(v)` has `ok` true and `val` v, `Err(e)` has `ok` false and `err` e, and every result is the variant its `ok` field names |
| `Results.Unwrap` | src/lib/result/methods.ts:17-20 | returns normally iff the result is ok, with its value; otherwise throws `Error("Unexpected error result: …")` naming the error |
| `Results.Expect` | src/lib/result/methods.ts:22-25 | returns normally iff ok, with its value; otherwise throws an `Error` with exactly the caller's message |
| `Results.Assert` | src/lib/result/methods.ts:27-34 | returns normally iff ok; otherwise throws with the given message, or the default message when none is given |
| `Results.UnwrapExpectAgree` | src/lib/result/methods.ts:17-25 | `unwrap` and `expect` give the same value on every ok result and both throw an `Error` on every error result |
| `Results.AssertMatchesUnwrap` | src/lib/result/methods.ts:17-34 | `assert` without a message throws what `unwrap` throws; with a message it succeeds and fails exactly as `expect` |
| `Js.TypeOf` | src/lib/assert.ts:26 | `typeof` gives one of the eight type names, and "object" exactly for `null` and objects |
| `Js.ToStr` | src/lib/assert.ts:27 | string conversion in a template literal throws exactly for a symbol and gives a string back unchanged |
| `Assertions.TypeOfFailure` | src/lib/assert.ts:26-28 | the failure is a `TypeError` whose message lists the types joined by " \| " and the value's text |
| `Assertions.AssertTypeOf` | src/lib/assert.ts:22-29 | returns normally iff some listed type name equals `typeof value`; otherwise throws that `TypeError` |
| `Assertions.AssertInstanceOf` | src/lib/assert.ts:31-40 | returns normally iff the value is an object or function with the constructor's prototype on its chain; otherwise throws a `TypeError` |
| `Assertions.EmptyTypesAlwaysThrow` | src/lib/assert.ts:22-29 | with no listed type every value is rejected |
| `Assertions.NullIsObject` | src/lib/assert.ts:22-29 | `null` and every object pass as "object", no function does |
| `Assertions.OrderIrrelevant` | src/lib/assert.ts:26 | whether a value passes depends only on the set of listed types |
| `Assertions.FailureMessageListsTypes` | src/lib/assert.ts:27 | the types `number`, `bigint`, `string` are listed in the message as "number \| bigint \| string", in the given order |
| `AsyncIterable.MapTrace` | src/lib/async-iterable/methods.ts:1-10 | the mapped iterable yields as many values as its source and returns the same value |
| `AsyncIterable.MapTraceElements` | src/lib/async-iterable/methods.ts:5-9 | the i-th mapped value is the callback applied to the i-th source value |
| `AsyncIterable.MapStepAgrees` | src/lib/async-iterable/methods.ts:5-9 | each answer of the mapped iterable is the source's answer with the callback applied to a yielded value |
| `AsyncIterable.MapTraceCompose` | src/lib/async-iterable/methods.ts:1-10 | mapping twice is mapping once with the composed callback |
| `AsyncIterable.MapKeepsCount` | src/lib/async-iterable/methods.ts:5-9 | the first \|yielded\| calls yield and the next one is `done` with the source's return value |
| `AsyncIterable.Generator.AsyncIterator` | src/lib/async-iterable/methods.ts:6 | a generator's async iterator is the generator itself, so each loop turn continues where the last stopped |
| `AsyncIterable.Generator.Next` | src/lib/async-iterable/methods.ts:6 | `next()` answers the next step of the trace and advances by one |
| `AsyncIterable.Collect` | src/lib/async-iterable/methods.ts:12-21 | the entries are the values yielded from the current position on, in order, and the result is the return value; on an exhausted generator nothing is collected and there is no result |
| `AsyncIterable.Mapped.Next` | src/lib/async-iterable/methods.ts:1-10 | each call pulls one source answer and yields the callback's value, or returns the source's `done` value and stays finished |
| `Js.IntToString` | src/lib/system/journalctl.ts:27 | `limit.toString()` gives decimal digits, with a leading minus for a negative number |
| `Journal.ArgVectorSplits` | src/lib/system/journalctl.ts:25-30 | the arguments are `-u unit`, the flags, then `--output=json` |
| `Journal.ArgVectorFrame` | src/lib/system/journalctl.ts:25-30 | the vector always starts with `-u unit` and ends with `--output=json`, and its length counts one per flag (two for the limit) |
| `Journal.LimitTextIsNoFlag` | src/lib/system/journalctl.ts:27 | the digits of a limit can never be mistaken for another flag |
| `Journal.ArgVectorFlags` | src/lib/system/journalctl.ts:25-30 | `-f` iff follow, `-n` iff a non-zero limit (followed by its digits), `--no-pager` iff not pager, `--after-cursor=` iff a non-empty cursor |
| `Journal.Property` | src/lib/system/journalctl.ts:62-63 | reading a property throws exactly on `null` |
| `Journal.Decode` | src/lib/system/journalctl.ts:60-65 | `parseLine` succeeds iff the text is JSON whose `MESSAGE` and `__CURSOR` are strings, returning those two; malformed JSON throws a `SyntaxError`, a bad field a `TypeError` |
| `Journal.Sequence` | src/lib/system/journalctl.ts:43 | the values of the mapped calls, one per line |
| `Journal.SequenceSpec` | src/lib/system/journalctl.ts:43 | `lines.map(parseLine)` succeeds iff every line decodes, with the records in order; otherwise it throws the first failure |
| `Journal.SequenceAppend` | src/lib/system/journalctl.ts:43 | mapping over a concatenation: the first failure wins, otherwise the two value lists concatenated |
| `Journal.ParseEach` | src/lib/system/journalctl.ts:43 | one decode per line, in order |
| `Journal.ParseAllAppend` | src/lib/system/journalctl.ts:41-43 | decoding the lines of two batches is decoding each and concatenating, unless one fails |
| `Journal.BlankLineAborts` | src/lib/system/journalctl.ts:41-43 | a blank line between two newlines is not JSON and aborts its whole batch |
| `Journal.LeftoverErrors` | src/lib/system/journalctl.ts:46-53 | exactly one error string is recorded iff the leftover is non-empty and does not decode |
| `Journal.Terminal` | src/lib/system/journalctl.ts:55-57 | the return value is `Ok()` iff no error was collected, otherwise `Err(errors)` |
| `Journal.JournalCtl.constructor` | src/lib/system/journalctl.ts:25-30 | the reader starts with the argument vector of its options, an empty buffer and no errors |
| `Journal.JournalCtl.OnStderr` | src/lib/system/journalctl.ts:35 | each stderr fragment is appended to the errors |
| `Journal.JournalCtl.Feed` | src/lib/system/journalctl.ts:39-44 | after each chunk the buffer is the text after the last newline and the lines split off are all complete lines so far; lines and buffer rebuild the stdout; the batch decodes the new complete lines |
| `Journal.JournalCtl.Finish` | src/lib/system/journalctl.ts:46-57 | a non-empty leftover is yielded as a record or, if it does not decode, recorded as an error; the result is `Terminal(errors)` |
| `Journal.Run` | src/lib/system/journalctl.ts:18-58 | the generator throws iff some complete stdout line fails to decode; otherwise its batches flatten to the records of all complete lines, one per newline, then the leftover record, and it returns the stderr text plus any leftover error |
| `Journal.FailureIsFinal` | src/lib/system/journalctl.ts:39-44 | once a complete line fails to decode, the stream fails whatever arrives later |
| `Text.Split` | src/lib/system/journalctl.ts:41 | `split` always gives at least one piece |
| `Text.SplitPiecesFree` | src/lib/system/journalctl.ts:41 | no piece contains the separator |
| `Text.SplitCount` | src/lib/system/journalctl.ts:41-42 | there is one piece more than separators |
| `Text.SplitJoin` | src/lib/system/journalctl.ts:41 | joining the pieces with the separator gives the text back |
| `Text.JoinSplit` | src/lib/system/journalctl.ts:41 | splitting joined separator-free pieces gives the pieces back |
| `Text.SplitAppendPieces` | src/lib/system/journalctl.ts:41-42 | the pieces of `a + b` are the complete lines of `a`, then the pieces of `a`'s leftover followed by `b` |
| `Text.SplitAppend` | src/lib/system/journalctl.ts:41-42 | framing is incremental: carrying the leftover into the next chunk yields the same lines and leftover as framing the whole text |
| `Text.FramingConserves` | src/lib/system/journalctl.ts:41-42 | the complete lines, each with its newline, followed by the leftover are exactly the input |
| `Text.TerminatedFrames` | src/minecraft-server.ts:83-106 | a text of newline-free lines, each terminated, frames back into those lines with nothing left over |
| `Text.Lower` | src/app/_components/Autofill.tsx:61 | lower-casing keeps the length and maps every character |
| `Host.Without` | src/minecraft-server.ts:68-71 | deleting by `dir` keeps only rows of other directories |
| `Host.WithoutKeeps` | src/minecraft-server.ts:128-131 | a row survives the delete iff it was present and has another `dir` |
| `Host.WithoutAbsent` | src/minecraft-server.ts:68-71 | deleting a `dir` no row has changes nothing |
| `Host.WithoutUnique` | src/minecraft-server.ts:128-131 | deleting rows keeps both columns unique |
| `Host.InsertUnique` | src/minecraft-server.ts:24-27 | a successful insert keeps both columns unique; a failed one changes nothing |
| `Host.Machine.Insert` | src/minecraft-server.ts:24-27 | the insert changes the machine as the pure insert step says |
| `Host.Machine.DeleteWhereDir` | src/minecraft-server.ts:128-131 | the delete changes the machine as the pure delete step says |
| `Host.Machine.MakeDirectory` | src/minecraft-server.ts:61 | `mkdir` fails with EEXIST on an existing path, otherwise adds the directory |
| `Host.Machine.ChangeOwner` | src/minecraft-server.ts:79 | `chown` records the owner of the directory |
| `Host.Machine.Write` | src/minecraft-server.ts:108-115 | `writeFile` creates or replaces a regular file |
| `Host.Machine.Remove` | src/minecraft-server.ts:145 | `rm` removes the path (and, when recursive, everything under it); a missing path is ENOENT unless forced |
| `Host.Machine.OpenAndWrite` | src/minecraft-server.ts:189-191 | writing into a FIFO appends to what its reader received |
| `Host.Machine.Send` | src/minecraft-server.ts:158 | a manager request is recorded unless it fails |
| `MinecraftServer.ServiceNameInjective` | src/minecraft-server.ts:231-233 | distinct directories get distinct service names |
| `MinecraftServer.UnitPathsAgree` | src/minecraft-server.ts:108-135 | `create` and `_delete` name the same unit files iff `SYSTEMD_PATH` is empty or ends in `/` |
| `MinecraftServer.ServiceUnitFrames` | src/minecraft-server.ts:83-99 | the service unit reads back line by line as written and names the instance's socket unit |
| `MinecraftServer.SocketUnitFrames` | src/minecraft-server.ts:101-106 | the socket unit reads back line by line, names the service unit, and listens on the FIFO that `run` writes to |
| `MinecraftServer.LineHead` | src/minecraft-server.ts:33-34 | the greedy `(.+)` capture is the longest prefix without a line terminator |
| `MinecraftServer.MatchFrom` | src/minecraft-server.ts:33-37 | a match captures a non-empty column |
| `MinecraftServer.KeyName` | src/minecraft-server.ts:38-48 | "name" reads as "Name", "dir" as "Directory", any other column as itself |
| `MinecraftServer.MatchesConstraintFailure` | src/minecraft-server.ts:29-50 | the table's own UNIQUE failure for a column is read back as that column's key |
| `MinecraftServer.NoPrefixNoMatch` | src/minecraft-server.ts:33-37 | a message without the constraint prefix never matches, so the error is rethrown |
| `MinecraftServer.Create` | src/minecraft-server.ts:18-118 | `create` changes the machine and completes exactly as the pure create effect says |
| `MinecraftServer.Import` | src/minecraft-server.ts:120-122 | `_import` is `create` without creating a directory |
| `MinecraftServer.CreateNameTaken` | src/minecraft-server.ts:24-50 | a registered name gives `Err("Name already exists")` with all stores unchanged |
| `MinecraftServer.CreateDirTaken` | src/minecraft-server.ts:24-50 | a registered directory gives `Err("Directory already exists")` with all stores unchanged |
| `MinecraftServer.NameConflictKey` | src/minecraft-server.ts:39-42 | a duplicate name reads back as the key "Name" |
| `MinecraftServer.DirConflictKey` | src/minecraft-server.ts:43-45 | a duplicate directory reads back as the key "Directory" |
| `MinecraftServer.CreateRethrows` | src/minecraft-server.ts:28-55 | any other insert failure is rethrown with the stores unchanged |
| `MinecraftServer.CreateRollsBack` | src/minecraft-server.ts:59-73 | an existing directory deletes the inserted row again and returns `Err("Directory already exists")`; the stores end as they began |
| `MinecraftServer.CreateSucceeds` | src/minecraft-server.ts:18-118 | without failures `create` returns `Ok()`, appends the row, owns the directory and writes both unit files, issuing no manager request |
| `MinecraftServer.ImportLeavesDirectories` | src/minecraft-server.ts:120-122 | `_import` touches no path other than the two unit files |
| `MinecraftServer.NoRollbackAfterDirectory` | src/minecraft-server.ts:59-115 | only EEXIST rolls back: after any other `mkdir` failure, or a failing chown or unit write, the inserted row stays, and a directory `mkdir` made stays a directory |
| `MinecraftServer.CreateKeepsUnique` | src/minecraft-server.ts:18-118 | `create` keeps both columns unique |
| `MinecraftServer.TryRmSwallowsOnlyEnoent` | src/minecraft-server.ts:143-153 | `tryRm` completes iff `rm` does or fails with ENOENT, rethrows every other error, and changes files as `rm` does |
| `MinecraftServer.Delete` | src/minecraft-server.ts:124-141 | `_delete` changes the machine and completes exactly as the pure delete effect says |
| `MinecraftServer.TryRemove` | src/minecraft-server.ts:143-153 | `tryRm` changes the machine as the pure `tryRm` step says |
| `MinecraftServer.DeleteOrder` | src/minecraft-server.ts:124-141 | row first, then the stop request, then both unit files, then (with `removeFiles`) the whole directory tree; a failing step stops the rest |
| `MinecraftServer.TryRmRemoves` | src/minecraft-server.ts:143-153 | a completed `tryRm` leaves the path (and, when recursive, its subtree) absent and adds nothing |
| `MinecraftServer.DeleteIdempotent` | src/minecraft-server.ts:124-141 | a second `_delete` changes no row and no file; it completes exactly when its unguarded stop request succeeds, and otherwise throws that request's exception |
| `MinecraftServer.DeleteKeepsUnique` | src/minecraft-server.ts:124-141 | `_delete` keeps both columns unique |
| `MinecraftServer.Start` | src/minecraft-server.ts:155-159 | one `StartUnit` request for the instance's service in mode "replace" |
| `MinecraftServer.Restart` | src/minecraft-server.ts:161-165 | one `RestartUnit` request for the instance's service in mode "replace" |
| `MinecraftServer.Stop` | src/minecraft-server.ts:167-171 | one `StopUnit` request for the instance's service in mode "replace" |
| `MinecraftServer.GetStatus` | src/minecraft-server.ts:175-186 | the unit is loaded, then its `ActiveState` is returned unchecked |
| `MinecraftServer.UnitActionsTargetService` | src/minecraft-server.ts:155-171 | each unit action issues exactly one request, for `minecraft-server-<dir>.service`, and touches neither rows nor files |
| `MinecraftServer.Run` | src/minecraft-server.ts:188-192 | `run` writes the command and a newline to `/run/minecraft-server-<dir>.stdin` |
| `MinecraftServer.RunAppendsLine` | src/minecraft-server.ts:188-192 | on the socket's FIFO, `run` appends exactly the command and a newline and changes nothing else |
| `Autofill.TrimStart` | src/app/_components/Autofill.tsx:58 | removes exactly the leading white space |
| `Autofill.TrimEnd` | src/app/_components/Autofill.tsx:58 | removes exactly the trailing white space |
| `Autofill.Trim` | src/app/_components/Autofill.tsx:58 | the result is a slice of the input with only white space cut from either end, and neither of its ends is white space |
| `Autofill.ReplaceSpaces` | src/app/_components/Autofill.tsx:59 | every space becomes a dash and nothing else changes |
| `Autofill.KeepAllowed` | src/app/_components/Autofill.tsx:60 | exactly the characters of `[a-zA-Z0-9-_]` are kept, and an all-allowed text is unchanged |
| `Autofill.KeepAllowedAppend` | src/app/_components/Autofill.tsx:60 | the filter keeps a single character iff it is in the class, and distributes over concatenation, so order and repeats are kept |
| `Autofill.Sanitize` | src/app/_components/Autofill.tsx:56-62 | the result is made only of `[a-z0-9-_]` and is never longer than the input |
| `Autofill.DirCharNotWhitespace` | src/app/_components/Autofill.tsx:58-60 | no allowed character is white space |
| `Autofill.TrimUntouched` | src/app/_components/Autofill.tsx:58 | a text that neither starts nor ends with white space is its own trim |
| `Autofill.TrimClean` | src/app/_components/Autofill.tsx:58 | a text of sanitized characters is its own trim |
| `Autofill.PipelineClean` | src/app/_components/Autofill.tsx:56-62 | each step leaves a text of sanitized characters unchanged |
| `Autofill.SanitizeFixpoint` | src/app/_components/Autofill.tsx:56-62 | `sanitize` leaves a text unchanged iff it is made only of `[a-z0-9-_]` |
| `Autofill.SanitizeIdempotent` | src/app/_components/Autofill.tsx:56-62 | sanitizing twice is sanitizing once |
| `Autofill.TrimStartSkips` | src/app/_components/Autofill.tsx:58 | leading white space makes no difference to `trimStart` |
| `Autofill.TrimEndSkips` | src/app/_components/Autofill.tsx:58 | trailing white space makes no difference to `trimEnd` |
| `Autofill.TrimStartAppend` | src/app/_components/Autofill.tsx:58 | `trimStart` of a text starting with a non-space character ignores what follows |
| `Autofill.TrimSurrounded` | src/app/_components/Autofill.tsx:58 | white space around a text makes no difference to `trim` |
| `Autofill.SanitizeIgnoresSurroundingWhitespace` | src/app/_components/Autofill.tsx:56-62 | white space around a name makes no difference to `sanitize` |
| `Autofill.MyServerTrimmed` | src/app/_components/Autofill.tsx:58 | `" My Server "` trims to `"My Server"` |
| `Autofill.MyServerDashed` | src/app/_components/Autofill.tsx:59 | `"My Server"` becomes `"My-Server"` |
| `Autofill.MyServerKept` | src/app/_components/Autofill.tsx:60 | `"My-Server"` keeps every character |
| `Autofill.MyServerLowered` | src/app/_components/Autofill.tsx:61 | `"My-Server"` lower-cases to `"my-server"` |
| `Autofill.SanitizeExample` | src/app/_components/Autofill.tsx:56-62 | `sanitize(" My Server ")` is `"my-server"` |
| `Autofill.Capitalize` | src/app/_components/Autofill.tsx:52-54 | `capitalize` keeps the length |
| `Autofill.CapitalizeShape` | src/app/_components/Autofill.tsx:52-54 | only the first character may change, and it ends up not lower-case (upper-case when it was a lower-case letter) |
| `Autofill.CapitalizeFixpoint` | src/app/_components/Autofill.tsx:52-54 | `capitalize` changes a text iff it starts with a lower-case letter, and is idempotent |
| `Autofill.TargetValueFollows` | src/app/_components/Autofill.tsx:29 | a set target, even empty, wins; until then the target shows the transformed source, an absent source reading as "" |
| `Autofill.AutofillState.constructor` | src/app/_components/Autofill.tsx:17-18 | the source starts at `defaultValue` and the target unset |
| `Autofill.AutofillState.OnSourceChange` | src/app/_components/Autofill.tsx:27 | the target follows the new source until it has been edited, and never afterwards |
| `Autofill.AutofillState.OnSelectionChange` | src/app/_components/Autofill.tsx:40 | a selected key becomes the source, with the same effect on the target |
| `Autofill.AutofillState.OnTargetChange` | src/app/_components/Autofill.tsx:30 | the target shows what was typed from then on |
| `HomePage.Get` | src/app/page.tsx:185 | `formData.get` finds nothing iff no entry has the key, and otherwise an entry with that key |
| `HomePage.GetFindsFirst` | src/app/page.tsx:185 | of several entries with the same key, `get` returns the first |
| `HomePage.ValidateServerForm` | src/app/page.tsx:180-191 | "Invalid form data" iff not a `FormData` or `name` or `dir` is not a string; "Invalid directory" iff `dir` fails `^[a-zA-Z0-9-_]+$`; otherwise both values unchanged (the import validator at 207-218 is identical) |
| `HomePage.TwoFieldForm` | src/app/page.tsx:184-190 | a name-and-directory form validates with both values unchanged, any name accepted, iff the directory passes the check |
| `HomePage.ValidatedFormResubmits` | src/app/page.tsx:180-191 | resubmitting a validated form's values gives the same form |
| `HomePage.SanitizedPassesDirCheck` | src/app/page.tsx:189 | a non-empty `sanitize` output passes the directory check |
| `HomePage.SanitizedDirValidates` | src/app/page.tsx:189-190 | a form whose directory is a sanitized text validates iff that text is non-empty |
| `HomePage.Reply` | src/app/page.tsx:175-177 | an exception propagates; any result of `create`, even an `Err`, is answered with `Ok(success)` |
| `HomePage.CreateServer` | src/app/page.tsx:166-178 | `create` with a directory, then the reply "Server created" |
| `HomePage.ImportServer` | src/app/page.tsx:193-205 | `_import`, then the reply "Server imported" |
| `HomePage.ConflictReportedAsSuccess` | src/app/page.tsx:175-177 | with the name or directory registered, `create` changes nothing and returns an `Err`, yet the reply is "Server created" ("Server imported") |
| `HomePage.CheckedReply` | src/app/page.tsx:175-177 | the corrected reply: an `Err` from `create` passes through unchanged and `Ok()` is answered with `Ok(success)`, as the servers page does at `src/app/(servers)/page.tsx` lines 159-162 |
| `HomePage.RepliesDifferOnErr` | src/app/page.tsx:175-177 | the as-written and the checked reply differ exactly on an `Err` result |
| `HomePage.ConflictsReachTheForm` | src/app/page.tsx:175-177 | with the checked reply, a registered name gives "Name already exists" and a registered directory "Directory already exists" |
| `HomePage.Directories` | src/app/page.tsx:152-157 | the listed names are exactly those of the directory entries |
| `HomePage.DirectoriesAppend` | src/app/page.tsx:152-157 | a single entry gives its name iff it is a directory, and the listing of concatenated entries is the concatenated listings, so readdir order and repeats are kept |
| `HomePage.ImportChoices` | src/app/page.tsx:94-96 | never more choices than directories |
| `HomePage.ImportChoicesMembers` | src/app/page.tsx:94-96 | a directory is offered iff it is listed and no registered server uses it |
| `HomePage.ImportChoicesAppend` | src/app/page.tsx:94-96 | choosing from two listings in a row is choosing from each and concatenating, so the listing's order is kept |
| `HomePage.ImportOffered` | src/app/page.tsx:89-99 | for a readdir listing, a name is offered iff some entry is a directory of that name and no registered server uses it |
| `HomePage.ImportDisabled` | src/app/page.tsx:99 | the Import button is disabled iff every listed directory is registered |
| `HomePage.ImportedDirNotOffered` | src/app/page.tsx:94-96 | once a directory is imported without failure it is no longer offered |
| `ServerView.ParseState` | src/app/_components/Server.tsx:120-125 | a known state name reads back as the state it names |
| `ServerView.StateNameRoundTrip` | src/app/_components/Server.tsx:120-125 | every state's name reads back as that state |
| `ServerView.LabelIsCapitalizedName` | src/app/_components/Server.tsx:120-125 | each label is its state's name, capitalized |
| `ServerView.StatusIcon` | src/app/_components/Server.tsx:127-138 | green iff "active", red iff "inactive", "deactivating" or "failed", otherwise `Error("Unknown status: …")` |
| `ServerView.IconRendersKnownStates` | src/app/_components/Server.tsx:127-138 | the icon renders exactly for the known states |
| `ServerView.ControlsFor` | src/app/_components/Server.tsx:38-69 | Restart replaces Start, and Stop is enabled, exactly when the status is "active" |
| `ServerView.ControlsAgreeWithIcon` | src/app/_components/Server.tsx:38-69 | Stop is enabled exactly when Restart is offered, which is exactly when the icon is green |
| `ServerView.ValidateDeleteForm` | src/app/_components/Server.tsx:177-187 | "Invalid form data" iff not a `FormData` or `dir` is not a string; `removeFiles` iff that field is the string "on" |
| `ServerView.CheckboxDecidesRemoveFiles` | src/app/_components/Server.tsx:90-91 | the rendered form validates to its `dir`, with `removeFiles` exactly when the box is checked |
| `ServerView.DeleteServer` | src/app/_components/Server.tsx:164-175 | `_delete`, then "Server deleted"; an exception propagates |
| `ServerView.GuardDir` | src/app/_components/Server.tsx:143 | passes iff `typeof dir` is "string", otherwise `Error("Invalid dir")` |
| `ServerView.StartServer` | src/app/_components/Server.tsx:140-146 | a non-string `dir` throws before any request; otherwise `start` |
| `ServerView.RestartServer` | src/app/_components/Server.tsx:148-154 | a non-string `dir` throws before any request; otherwise `restart` |
| `ServerView.StopServer` | src/app/_components/Server.tsx:156-162 | a non-string `dir` throws before any request; otherwise `stop` |
| `Cli.ParseName` | bin/bin.ts:172-176 | accepted iff every character is in `[a-z,A-Z-_]`, and then lower-cased with its length kept; otherwise `Error("Invalid name")` |
| `Cli.ParseNameCorners` | bin/bin.ts:173 | the empty name and a comma are accepted, and a digit anywhere is rejected |
| `Cli.ParseNameIdempotent` | bin/bin.ts:172-176 | a parsed name parses again to itself |
| `Cli.ServiceNamesCollide` | bin/bin.ts:96 | the command line's `minecraft-<name>` equals the web `minecraft-server-<dir>` iff the name is `server-<dir>` |
| `Cli.CliPaths` | bin/bin.ts:122-123 | because the unit directory ends in `/`, each unit file is `path.join` of that directory and the unit name; the instance directory is `/minecraft` joined with the name |
| `Cli.CliCreate` | bin/bin.ts:89-126 | mkdir, chown to 1001:1001, then both unit files, every failure propagating |
| `Cli.CliCreateExistingDir` | bin/bin.ts:91 | an existing directory fails with EEXIST before anything changes |
| `Cli.CliCreateSucceeds` | bin/bin.ts:89-124 | without failures the owned directory and both unit files exist, and the table is untouched |
| `Cli.CliDelete` | bin/bin.ts:128-134 | stop, then a plain `rm` of each unit file |
| `Cli.CliDeleteMissingUnit` | bin/bin.ts:131 | a missing service unit file fails with ENOENT, leaving the files as they were |
| `Cli.CliDeleteTwiceFails` | bin/bin.ts:128-134 | a second delete fails with ENOENT, unlike the web `_delete` |
| `Cli.CliStart` | bin/bin.ts:136-139 | one start job for `minecraft-<name>.service` |
| `Cli.CliRestart` | bin/bin.ts:141-144 | one restart job for `minecraft-<name>.service` |
| `Cli.CliStop` | bin/bin.ts:146-149 | one stop job for `minecraft-<name>.service` |

## Findings

| source | as written | input that shows it | evidently intended | confidence | as-written member | corrected member |
|---|---|---|---|---|---|---|
| src/app/page.tsx:175-177 | `createServer` awaits `create` and returns `Ok("Server created")` without looking at the result (and `importServer` at 202-204 likewise) | a create form whose name is already registered: `create` inserts nothing and returns `Err("Name already exists")`, and the form reports "Server created" | return the conflict `Err` to the form, as `src/app/(servers)/page.tsx:159-160` does | high; not executed | `HomePage.ConflictReportedAsSuccess` | `HomePage.ConflictsReachTheForm` |

## Left out

- I/O, processes and the host are not modelled:
  - spawning `journalctl`, the D-Bus connection, the SQLite client and the Node file-system calls
    are abstracted by the stores in `Host`;
  - a foreign failure the stores do not determine is a `fault` parameter.
- Decoding stdout `Buffer`s from UTF-8 to text is not modelled. Chunks arrive as strings, so a
  multi-byte character split across chunks is not modelled. The `assertInstanceOf(chunk, Buffer)`
  guard on each chunk is not modelled either.
- `console.log` of the leftover buffer and of the command line's results is not modelled: it has no
  effect on state.
- `authenticate()` in the server actions and validators, `revalidateTag`, caching, and all React
  rendering other than the values shown are not modelled.
- `getLogs` and `streamLogs`, and `LOG_LINES`, are not modelled. They only pass fixed arguments to
  `journalctl` and stream bytes.
- `JSON.parse` is a parameter: a parser oracle returning a value or a `SyntaxError` message.
- JavaScript numbers are integers. Non-integral numbers, `NaN` and the string-to-number conversion
  of `MINECRAFT_USER_ID`/`MINECRAFT_GROUP_ID` are not modelled: `Env` holds the converted values.
- `path.join` is modelled only for plain segments (one `/` between them). Normalisation of `..`,
  `.` and repeated slashes is not modelled.
- The rendered unit texts are a parameter of the pure create effects. The methods pass the rendered
  templates; the lemmas hold for any texts.
- `Host.Rm` removes a directory tree by path prefix. Permissions, symbolic links and partial
  removal are not modelled.
- Only SQLite's order of UNIQUE checks is modelled: a row that clashes on both columns is reported
  for `name`. Other SQLite behaviour is not.
- `readdir` order is taken as given.
- `Text.Lower`: lower-cases only ASCII letters, not the full Unicode case mapping of `toLowerCase`.
  This is exact for every string `sanitize` and `parseName` lower-case.
- `Autofill.Capitalize`: upper-cases only an ASCII first letter, not the full Unicode mapping of
  `toUpperCase`. Characters are code points, so `charAt(0)` on a UTF-16 surrogate pair is not
  modelled.
- The command line's `status`, `log` and `run` are not modelled. They hand a shell command or
  inherited stdio to `systemctl` or `journalctl`.
- The command line's `exec` of `systemctl` is modelled as one manager job; the shell itself is not
  modelled.
- The commander argument parsing in `bin/bin.ts` is not modelled.
- Journal.Run: stderr `data` that arrives after stdout has ended is not modelled. Such data is
  lost when no error was collected, and otherwise lands in the array the returned `Err` already
  holds. The event sequence ends when stdout ends.
- Js.IntToString: plain decimal digits for every integer. `Number.prototype.toString` switches to
  exponent notation from 1e21 upward and is inexact above 2^53; numbers are unbounded integers here.
- MinecraftServer.DeleteIdempotent: how the systemd manager answers `StopUnit` for a unit whose
  files are gone is not modelled. The answer is a parameter, so the second delete is proved to
  complete only when that request succeeds.
- `collect` over the async generator built by `map` is not modelled. `collect` runs on a plain
  generator, and `map` is specified step by step.
