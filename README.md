# codex-sessions core, modelled in Dafny

This project models the core of a terminal tool that browses, searches,
resumes and deletes the recorded sessions of an interactive coding assistant.
Each session is stored as one or more append-only `.jsonl` log files. The
model covers three parts:

- **The session loader** (`internal/sessions/loader.go`), in modules `Text`,
  `Describe` and `Loader`:
  - the event describer. It turns one decoded log entry into a short
    "last action" synopsis. The empty string means "not describable".
  - `compactSnippet`, which trims, collapses whitespace and caps text at 160
    bytes.
  - `parseSessionFile`, a loop over the lines of one file. It is proved equal
    to a left fold (`Scan`), and properties of that fold are proved from the
    entries of the file.
  - the merge part of `Load`. It merges the fragments of one session id,
    unions their file paths, sorts each path list, and orders the sessions
    newest first.
- **Session deletion** (`internal/sessions/session.go`), in modules `Paths`
  and `Sessions`:
  - `DeleteFiles`, run over a `FileSystem` object whose state is a set of
    files, a set of directories and a set of paths the OS refuses to remove.
  - `cleanupParentDirectories`, the bounded upward walk that prunes empty
    directories. Each method is proved equal to a function (`Delete`,
    `Cleanup`), and the boundary and stop rules are proved about those
    functions.
- **The interactive picker** (`internal/ui/ui.go`), in module `Ui`:
  - the `model` struct, as the class `Ui.Model`.
  - the methods `applyFilter`, `moveSelectionBy`, `deleteSelected` and the
    key dispatch of `handleEvent`, each keeping the cursor invariant `Valid()`.
  - the helpers `dropLastRune`, `truncateText` and `abbreviatePath`.
  - The fuzzy ranker is a parameter of subset type `Ranker`. Its only known
    property is that it returns distinct, in-range indices with distances.

Strings are `seq<char>`, and one `char` stands for one byte, as Go's `len`
and slicing count bytes. Whitespace is the ASCII set of Go's `unicode.IsSpace`,
and lower-casing is ASCII. Timestamps are natural numbers, with 0 as Go's zero
time. An unparseable timestamp is `None`. JSON decoding is represented by its
outcome: each raw payload carries what decoding it into each expected shape
gives (`None` when `json.Unmarshal` fails).

Behaviour that follows the code:

- `parseSessionFile` moves the latest timestamp forward on every entry that
  advances it, described or not. `UpdatedAt` is therefore the latest timestamp
  of any entry (`Loader.ScanLatest`).
- The merge replaces the held creation time by the new one whenever the new
  one is earlier. A zero creation time from a fragment merged later therefore
  replaces a non-zero one (`Loader.Merge`).
- `cleanupParentDirectories` removes the sessions root itself when the walk
  reaches it and the root is empty (`Sessions.CleanupAtStop`).
- The boundary test is lexical. A child of the root whose name starts with
  ".." counts as outside (`Paths.DotDotNamedChildIsOutside`).
- An empty sessions root is cleaned to "." and absolute file paths then lie
  outside it, so nothing is pruned (`Paths.AbsoluteIsOutsideDot`).

## Model

| member | source | states |
|---|---|---|
| `Text.CompactSnippet` | internal/sessions/loader.go:434-448 | empty exactly for blank input; at most 160 bytes; the collapsed text unchanged when it fits, else its first 157 bytes and "..."; no leading, trailing or doubled whitespace |
| `Text.CollapseShape` | internal/sessions/loader.go:440 | joining the fields with single spaces keeps every non-space byte in order, leaves the collapsed shape, and is empty iff the input is blank |
| `Text.TrimRightNewline` | internal/sessions/loader.go:450-452 | the result is a prefix of the input, does not end in CR or LF, and only CR/LF bytes were dropped |
| `Describe.FirstNonEmpty` | internal/sessions/loader.go:425-432 | empty iff every item's text is blank; otherwise the untrimmed text of the first non-blank item |
| `Describe.FirstNonEmptyText` | internal/sessions/loader.go:425-432 | the loop returns exactly `FirstNonEmpty` of the items |
| `Describe.DescribeEntry` | internal/sessions/loader.go:233-242 | a `response_item` entry is described by DescribeResponseItem and an `event_msg` entry by DescribeEventMessage, each on its decoded payload; other entry types give "" |
| `Describe.DescribeResponseItem` | internal/sessions/loader.go:275-322 | undecodable payload gives ""; `message`, `reasoning`, `function_call` and `function_call_output` go to DescribeMessage, DescribeReasoning, DescribeCall and DescribeFunctionOutput, so a `message` or `reasoning` item is undescribed exactly when it has no text, and calls and outputs start with "call <name>"; other types give the title's snippet |
| `Describe.DescribeMessage` | internal/sessions/loader.go:282-298 | a `message` is undescribed iff content, summary and title give no text; otherwise it is "<trimmed role>: <snippet of the text>", or just the snippet when the trimmed role is empty |
| `Describe.MessageText` | internal/sessions/loader.go:283-289 | the text is the content's first non-blank text, else the summary's, else the title, and is empty iff all three give none |
| `Describe.DescribeReasoning` | internal/sessions/loader.go:299-307 | a `reasoning` item is undescribed iff summary and content both have no text; otherwise "reasoning: " and the snippet of the summary's text, else of the content's |
| `Describe.DescribeCall` | internal/sessions/loader.go:308-313 | the synopsis is "call <name>", followed by a space and the argument synopsis when that is non-empty |
| `Describe.DescribeFunctionArguments` | internal/sessions/loader.go:324-345 | non-empty only for a `shell` call with non-empty, decodable arguments and a non-empty command; for every such call it is the snippet of the command joined by spaces |
| `Describe.DescribeFunctionOutput` | internal/sessions/loader.go:347-364 | empty output gives the error message or "completed"; undecodable output gives "output"; decoded output goes to DescribeToolOutput |
| `Describe.DescribeToolOutput` | internal/sessions/loader.go:366-380 | a decoded error beats an exit code, which beats plain output, and no output at all is "completed" |
| `Describe.DescribeExit` | internal/sessions/loader.go:369-374 | "call N exit C", followed by ": " and the snippet exactly when the snippet is non-empty |
| `Describe.FunctionOutputNamed` | internal/sessions/loader.go:347-380 | every function-output synopsis starts with "call <name>" |
| `Describe.DescribeEventMessage` | internal/sessions/loader.go:393-423 | undecodable gives ""; `token_count` is "token usage updated"; chat kinds give "<type>: " and the snippet of the message, else of the text, and are undescribed iff both are empty; without a message other kinds give their bare type |
| `Describe.EventMessageUndescribed` | internal/sessions/loader.go:393-423 | an event message is undescribed iff it is a chat message with no message or text, or has neither type nor message |
| `Loader.ApplyMeta` | internal/sessions/loader.go:168-180 | only `session_meta` entries change the state, and one whose payload does not decode aborts the file |
| `Loader.Advance` | internal/sessions/loader.go:182-189 | the latest instant moves only on an advancing entry, and only it and the last action change |
| `Loader.StepLine` | internal/sessions/loader.go:150-161 | a line fails iff it is not blank and does not decode, or is an undecodable `session_meta`, with the matching error |
| `Loader.Finish` | internal/sessions/loader.go:196-205 | the file fails with "missing session id" iff no id was recorded |
| `Loader.ApplyEntry` | internal/sessions/loader.go:158-189 | the loop body equals one step of the fold |
| `Loader.ParseSessionFile` | internal/sessions/loader.go:124-206 | the loop over the lines equals the fold `ParseFile` |
| `Loader.ScanOkIff` | internal/sessions/loader.go:150-161 | the loop runs to the end iff every line is readable |
| `Loader.ScanFirstError` | internal/sessions/loader.go:158-173 | the first unreadable line decides the error |
| `Loader.ScanLatest` | internal/sessions/loader.go:163-183 | the recorded latest instant is the maximum entry timestamp, unparseable ones counting as zero |
| `Loader.ScanMeta` | internal/sessions/loader.go:174-175 | id and working directory come from the last `session_meta` entry |
| `Loader.ScanCreated` | internal/sessions/loader.go:176-179 | the creation time is recorded from the last `session_meta` whose timestamp parses |
| `Loader.ScanLastAction` | internal/sessions/loader.go:182-189 | the last action is the description of the last advancing described entry, else "session started" if a `session_meta` advanced, else "" |
| `Loader.ParseFileSucceeds` | internal/sessions/loader.go:124-206 | parsing succeeds iff the file opens and reads to the end, every line is readable, and the last `session_meta` has a non-empty id |
| `Loader.ParseFileErrors` | internal/sessions/loader.go:124-206 | open, read, decode and missing-id errors in the order the source checks them |
| `Loader.ParsedSession` | internal/sessions/loader.go:132-203 | a parsed session lists only its own path, has the last meta's id and cwd, `UpdatedAt` is the maximum stamp, and `CreatedAt` falls back to `UpdatedAt` when no non-zero meta time was seen |
| `Loader.Contains` | internal/sessions/loader.go:454-461 | true iff the value occurs in the list |
| `Loader.AppendAbsent` | internal/sessions/loader.go:84-88 | keeps the old paths as a prefix, contains exactly the union, and keeps a duplicate-free list duplicate-free |
| `Loader.MergeFilePaths` | internal/sessions/loader.go:84-88 | the append loop equals `AppendAbsent` |
| `Loader.Merge` | internal/sessions/loader.go:70-88 | same id; the earlier creation time, with a zero held one always replaced; the later update time with its last action; working dir from the newer fragment or backfilled; union of paths |
| `Loader.MergeInto` | internal/sessions/loader.go:70-88 | the field-by-field merge equals `Merge` |
| `Loader.VisitEntry` | internal/sessions/loader.go:45-91 | the walk callback records the walk or parse error, or stores or merges the parsed session |
| `Loader.Gather` | internal/sessions/loader.go:42-91 | every gathered session is stored under its own, non-empty id |
| `Loader.GatherMerges` | internal/sessions/loader.go:45-91 | the gathered map is the fold of `Merge` over the parsed sessions in walk order |
| `Loader.ParsedFromLogs` | internal/sessions/loader.go:53-61 | each parsed session comes from one `.jsonl` file of the walk |
| `Loader.LogsAreParsed` | internal/sessions/loader.go:53-67 | each `.jsonl` file that parses contributes its session |
| `Loader.MergedKeys` | internal/sessions/loader.go:63-68 | exactly the ids of parsed sessions have a record |
| `Loader.MergedPaths` | internal/sessions/loader.go:84-88 | a record's paths are those of the files parsed with its id, without duplicates |
| `Loader.MergedLatest` | internal/sessions/loader.go:74-76 | a record's update time is the latest of its fragments' |
| `Loader.Finalize` | internal/sessions/loader.go:97-100 | only the file paths change, and they become a sorted permutation |
| `Loader.Emit` | internal/sessions/loader.go:96-101 | one finalized session per id, each id once |
| `Loader.SortedKeepsEmitted` | internal/sessions/loader.go:103-105 | sorting by update time keeps one finalized session per id |
| `Loader.Load` | internal/sessions/loader.go:25-107 | a missing root gives no sessions and no error; stat failure and a non-directory are fatal; otherwise the joined errors of the walk and one session per id, newest first |
| `Paths.ExtIsJsonl` | internal/sessions/loader.go:53 | a file is a session log iff its name ends in ".jsonl" |
| `Paths.OutsideStopIff` | internal/sessions/session.go:54-62 | `filepath.Rel` plus the ".." prefix test rejects exactly the directories not inside the root |
| `Paths.DotDotNamedChildIsOutside` | internal/sessions/session.go:59-61 | a child of the root named "..x" counts as outside |
| `Paths.AbsoluteIsOutsideDot` | internal/sessions/session.go:51-58 | with the root cleaned to ".", every absolute directory is outside |
| `Sessions.RemoveSpec` | internal/sessions/session.go:41 | removal succeeds only on an unlocked file or empty directory, and then removes just it; otherwise nothing changes; not-exist iff the path is absent |
| `Sessions.FileSystem.Remove` | internal/sessions/session.go:41 | the object's new state and outcome are `RemoveSpec` of the old state |
| `Sessions.CleanupParentDirectories` | internal/sessions/session.go:50-70 | the loop with its early exits leaves the tree and attempts that `Cleanup` gives |
| `Sessions.CleanupWalk` | internal/sessions/session.go:53-68 | the i-th attempt is the directory i levels up, and every attempt but the last removed a directory other than the root |
| `Sessions.CleanupAtStop` | internal/sessions/session.go:63-68 | at the root the walk makes one attempt and ends; a root directory is removed iff it is not locked and holds nothing |
| `Sessions.CleanupStopIsLast` | internal/sessions/session.go:63-68 | from any start, an attempt on the root is the last attempt, and a root directory is gone afterwards iff that attempt removed it |
| `Sessions.CleanupRemovesEmptyStopExample` | internal/sessions/session.go:63-68 | example: a root holding only an empty child is removed after the child, and nothing above it is tried |
| `Sessions.CleanupStaysInside` | internal/sessions/session.go:54-62 | every attempted directory passes the root's lexical Rel-plus-".." test (so no child named "..x" is tried) and lies under the root |
| `Sessions.CleanupShrinks` | internal/sessions/session.go:50-70 | pruning only removes, and only what it attempted successfully |
| `Sessions.DeleteFiles` | internal/sessions/session.go:34-48 | the loop's final tree, errors and attempts are `Delete` of the session's paths |
| `Sessions.DeleteTriesEveryPath` | internal/sessions/session.go:40-46 | every path is attempted, in order, even after failures |
| `Sessions.DeletePrunesInsideRoot` | internal/sessions/session.go:35-45 | every directory deletion prunes lies inside the root |
| `Sessions.DeleteShrinks` | internal/sessions/session.go:34-48 | deletion only removes, and never removes what the OS refuses to remove |
| `Sessions.FailuresOf` | internal/sessions/session.go:41-44 | the errors for a run of file attempts are empty iff every attempt removed its file or found it missing |
| `Sessions.DeleteErrorsMatchFailures` | internal/sessions/session.go:40-47 | the i-th file attempt is on the i-th path, and the returned errors are exactly one per failed attempt, in order, with its path and cause |
| `Sessions.DeleteErrorsAreFailures` | internal/sessions/session.go:41-44 | the j-th error is the failure of the j-th failed file attempt, on that attempt's path and with its cause; the failed attempts are distinct and in path order, so at most one error per entry of the path list; every cause is not-empty or denied |
| `Sessions.DeleteReportsSurvivors` | internal/sessions/session.go:41-47 | every session path that is still a file afterwards has an error |
| `Sessions.DeleteSucceeds` | internal/sessions/session.go:41-47 | with no path a directory or locked, no error is returned; a missing file is not one |
| `Ui.SearchKeyShape` | internal/ui/ui.go:56-62 | the search key starts with the lower-cased id and a space and holds no upper-case letter |
| `Ui.Model.constructor` | internal/ui/ui.go:53-74 | one row per session in input order, each with its search key; page size 10; empty query, filter and resume id |
| `Ui.PrecedesIsPreorder` | internal/ui/ui.go:317-328 | the comparator (distance, then newer update, then smaller id) is a total preorder |
| `Ui.FilteredShape` | internal/ui/ui.go:298-333 | filtered indices are valid and distinct; a blank query lists every entry in order; a query lists a permutation of the ranker's results ordered by the comparator |
| `Ui.FilterList` | internal/ui/ui.go:305-333 | the append loops build `Filtered`, every index valid |
| `Ui.Clamp` | internal/ui/ui.go:335-345 | 0 for an empty list, otherwise in range, unchanged when already in range |
| `Ui.Model.ApplyFilter` | internal/ui/ui.go:298-346 | the filtered list is recomputed, the cursor clamped, nothing else changes, and `Valid()` holds |
| `Ui.Model.MoveSelectionBy` | internal/ui/ui.go:208-220 | no-op on an empty list, else the clamped cursor plus delta; nothing else changes |
| `Ui.Model.DeleteSelected` | internal/ui/ui.go:277-291 | "Nothing to delete" on an empty list; on failure the rows are unchanged; on success exactly the selected row is removed and the list re-filtered |
| `Ui.SpliceDropsOne` | internal/ui/ui.go:288 | the splice keeps every other row, in order, and loses only the one at the index |
| `Ui.Model.HandleEvent` | internal/ui/ui.go:146-205 | the key bindings: typing, backspace, Esc, Enter, Delete (with deleteSelected's full outcome), PgUp/PgDn and Ctrl+C, with the query, filter and cursor each leaves unchanged |
| `Ui.DropLastRune` | internal/ui/ui.go:348-357 | empty stays empty; otherwise exactly one trailing rune is removed |
| `Ui.DropLastRuneUndoesTyping` | internal/ui/ui.go:348-357 | backspace after typing a rune restores the query |
| `Ui.TruncateText` | internal/ui/ui.go:359-371 | blank input gives "-"; a fitting trimmed text is returned; otherwise at most `max` bytes ending in "..." when `max > 3` |
| `Ui.TruncateTextIdempotent` | internal/ui/ui.go:359-371 | for every `max > 3`, truncating twice equals truncating once (for `max <= 3` a non-blank text can become "" and then "-") |
| `Ui.AbbreviatePathAsWritten` | internal/ui/ui.go:380-392 | unchanged when `max <= 0` or it fits; for `max > 3` "..." plus the last `max-1` bytes, `max+2` long |
| `Ui.AbbreviatePathOverlongExample` | internal/ui/ui.go:391 | a 25-byte path abbreviated to 10 comes out 12 bytes long |
| `Ui.AbbreviatePath` | internal/ui/ui.go:380-392 | the corrected version: never longer than `max` when `max > 0` |
| `Ui.ErrorLines` | internal/ui/ui.go:285 | one message line per failure, in order |
| `Ui.ErrorText` | internal/ui/ui.go:285 | the joined deletion error is every failure's line, in order, separated by newlines, and so starts with the first |

## Left out

- `main.go`: flag parsing, spawning the resume command, and process exit.
- The tview/tcell widgets: `run`, `refreshSearchView`, `refreshInfoView`, the
  drawing in `refreshTable`, and the selection-changed and draw callbacks.
  `pageSize` is a field supplied from outside, and `stopped` stands for
  `app.Stop()`.
- `fuzzy.RankFindFold` is a third-party library. It is the `Ranker`
  parameter, and nothing is assumed of its matching beyond distinct, in-range
  indices.
- JSON decoding. Payloads are pre-decoded datatypes with a "did not decode"
  case.
- Timestamp parsing and formatting (`parseTimestamp`, `formatTimestamp`,
  RFC 3339 layouts, the local time zone). Instants are natural numbers, and
  the formatter used for the search key is a parameter.
- File and stream I/O: `ResolveDir` and the home directory, `os.Stat`,
  `filepath.WalkDir`, and `bufio` line reading. A file is given as its lines
  plus an optional read error, and the walk as its sequence of entries.
  `bufio.Reader.ReadBytes` never returns `ErrBufferFull`, so the 16 MiB line
  check cannot fire and is not modelled.
- `Session.Snapshot`: sessions are values in the model. The fresh copy of
  `FilePaths` and the aliasing it prevents are therefore not represented.
- Load: the order of sessions with equal `UpdatedAt` comes from map iteration
  and `sort.Slice`, and is left unspecified. The model sorts with an insertion
  sort and proves only sortedness and a permutation.
- Ui.Model.ApplyFilter: `sort.Slice` is not stable, so rows that tie on
  distance, update time and id may come out in any order. `Filtered` fixes the
  stable insertion-sort order for such ties, and `FilteredShape` proves only
  what every order shares: sorted by the comparator and a permutation of the
  ranker's results. Rows with distinct ids never tie.
- Load: `sort.Strings` and `sort.Slice` are replaced by one insertion sort.
  Only what both promise, an ordered permutation, is used.
- Unicode: whitespace, lower-casing and `unicode.IsControl` are the ASCII and
  Latin-1 approximations in module `Text`. The error texts of `os.Remove` are
  fixed strings per failure kind.
- Ui.DropLastRune: one `char` counts as one rune here while elsewhere it
  counts as one byte. A multi-byte UTF-8 rune is not modelled, and neither is
  Go's replacement of invalid UTF-8.
- Describe.DescribeResponseItem: fields of the payload that the describer
  never reads (metadata, media, parts, encrypted content) are left out.

## Findings

| source | as written | input that shows it | evidently intended | confidence | as-written member | corrected member |
|---|---|---|---|---|---|---|
| internal/ui/ui.go:391 | `ellipsis + path[len(path)-(max-1):]` returns `max + 2` bytes | a 25-byte path with `max = 10` gives 12 bytes | keep `max - 3` bytes of the path so that the result is `max` bytes long | high (not executed) | `Ui.AbbreviatePathAsWritten`, `Ui.AbbreviatePathOverlongExample` | `Ui.AbbreviatePath` |
