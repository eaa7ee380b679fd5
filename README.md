# todo: a verified model of the task store and its edit protocol

`todo` keeps a to-do list as a directory of task files. A task `<id>` lives in
`<id>.todo` while it is open and in `<id>.done` once its `todo` header says
`done` or `mute`. A task file is a sequence of blocks, and nothing in it is
ever rewritten. Each block is:

- a marker line `— <timestamp> —`;
- `key: value` header lines;
- a blank line;
- free comment text.

The current header of a task is what you get by replaying every block in file
order.

On top of this store sit four more pieces:

- a small query language (`todo:done`, `due:<2020-01-01`, `-word`, `all`);
- a text protocol for editing one task, or many at once, in an editor. The
  edited text goes back through the same block format.
- the orderings an acme list window offers (by ID, by title, by any header);
- the `todo` command's title sort, its query listing and its mark-done rule.

The project models this core as Dafny modules, one concern each:

| module | models |
|---|---|
| `Wrappers` | `Option` and `Result` |
| `Text` | the Go string functions the code relies on (`strings.Split`, `SplitAfter`, `Fields`, `TrimSpace`, `ToLower`, `Index`, `Contains`, `strconv.Atoi`/`Itoa`) |
| `Order` | Go's `<` on strings, `strings.Compare`, `sort.Strings` on a key set |
| `Record` | the block format: how `read` replays lines (`Step`, `Replay`, `ReadState`), the block `write` formats (`Block`), the header update (`ApplyKeys`), the body cut into blocks (`Pieces`) |
| `Tasks` | the `Task` class (`Header`, `Done`, `PrintTo`) and `Common` |
| `Query` | `parseQuery` as a datatype of terms (`Test`, `Term`, `Compiled`) with an evaluator (`Matches`) |
| `Store` | the `List` class over an abstract directory: `read`, `write`, `Create`, `readAll`, `All`, `Done`, `Search` |
| `TaskLists` | the `taskList` registry keyed by `filepath.Clean`ed names |
| `Edit` | `writeTask`, `readBulkIDs`, `bulkEditStart`, `bulkWriteTask`, `bulkEditStartFromText` and the no-change checks of `editTask` and `bulkEditTasks` |
| `ListSort` | `lineNumber`, `lineID`, `skipField`, the comparators and the sort-key toggle of the list window's `Sort` command |
| `Command` | `tasksByTitle`, `tasksByHeader`, `showQuery` and the mark-done rule of `main` |

Some choices of representation:

- **The directory** is a `map<string, string>` from file name to contents. It is
  not the map from names to byte sequences one might expect. All the text the
  program handles (markers with the em dash, headers, comments) is compared and
  cut as text, so contents are modelled as `seq<char>` like every other string.
  `len(emSpace)` counts bytes in Go and characters here. The marker test
  `len(line) >= 2*len(emSpace)` still says the same thing: the prefix `"— "` and
  the suffix `" —"` do not overlap.
- **Failures of system calls** that the directory contents do not decide are
  inputs: a `Faults` record says whether opening, writing, closing or renaming
  fails, and how much of a block a failing write got out. `createFails` holds
  the tries (0, 1 and 2 of the numbering; 0 for an explicit ID) whose
  exclusive creation fails, so each try fails or succeeds on its own.
  Reading fails exactly when the file is absent.
- **Timestamps and today's date** are string parameters.
- **Go's nil cache map** is the flag `cacheMade`.
- **Tasks and lists are objects.** `write` changes a task's `hdr`, `body` and
  `file` in place, so `Task` and `List` are classes, and their methods state
  their whole new state.
- **Pure logic is functions.** Query compilation, the block format and the
  comparators are functions, with lemmas stating what they mean. The loops of
  the source (`read`'s line loop, `write`'s key loop, `Create`'s numbering,
  `PrintTo`'s cutting, `Common`, `writeTask`'s summary loop, `readBulkIDs`,
  `lineNumber`, `skipField`, the sorts) are methods proved against those
  functions.

The central round trip is `Record.AppendBlockThenRead` and `Store.AppendKeepsSync`:
appending the block `write` formats to a file, then reading the file back, gives
the header `write` computes in memory. The file moves between `.todo` and
`.done` so that its extension follows the done status (`Store.MovedMatchesDone`).
A bulk document hands back exactly the IDs it was made from (`Edit.BulkRoundTrip`).

## Model

| member | source | states |
|---|---|---|
| Record.ReadStateSeed | task/task.go:138-146 | reading a body as `.done` or as `.todo` differs at most in the `done` key that the `.done` seed adds: same times, alternate IDs and every other header key |
| Record.ReplaySeededApart | task/task.go:146-183 | the line loop keeps two states that differ only in that seeded key apart by no more than it |
| Record.SetFieldSeededApart | task/task.go:169-181 | a header line sets or deletes a key in both states alike, so two states apart only in the seeded `done` key stay so |
| Record.SetField | task/task.go:169-181 | a `#id` field appends its value to the alternate IDs; any other `#` key leaves the header alone; times and header state never change |
| Record.StepMarker | task/task.go:150-157 | a marker line sets mtime to its trimmed stamp, sets ctime only while it is empty, and opens a header |
| Record.StepKeepsTimes | task/task.go:159-182 | a line that is not a marker never changes ctime or mtime |
| Record.StepAltIds | task/task.go:170-172 | one line adds at most one alternate ID, at the end |
| Record.ReplayAppend | task/task.go:149-183 | replaying `a + b` is replaying `b` from the state `a` leaves |
| Record.ReplayTimes | task/task.go:150-156 | after the line loop ctime is the first non-empty marker stamp and mtime the last stamp (unchanged when there is no marker) |
| Record.FirstNonEmptyIsFirst | task/task.go:152-154 | the ctime chosen is a stamp preceded only by empty ones |
| Record.StepWellFormed | task/task.go:169-181 | one line keeps header keys lower-case, trimmed and free of `#`, and values trimmed and non-empty |
| Record.ReplayWellFormed | task/task.go:148-183 | the whole line loop keeps the header well formed |
| Record.ReadStateWellFormed | task/task.go:138-183 | every header `read` builds is well formed, `.done` seed included |
| Record.KeyIsLowerAndTrimmed | task/task.go:169 | a key made by `ToLower(TrimSpace(..))` is lower-case and trimmed |
| Record.ReplayAltIdsGrow | task/task.go:170-173 | alternate IDs are only ever appended: the earlier ones keep their places |
| Record.ReplayQuiet | task/task.go:159-182 | outside a header, lines that are not markers change nothing |
| Record.ApplyKeysSpec | task/task.go:246-253 | after the header update a listed key holds its new value, or is absent when that value is empty; every unlisted key is untouched |
| Record.CommentText | task/task.go:224-230 | an empty comment adds nothing; a non-empty one is kept and ends in exactly one blank line, with a newline added only when missing |
| Record.BlockEndsInNewline | task/task.go:219-230 | every block `write` appends ends in a newline |
| Record.BlockLines | task/task.go:219-230 | a block's lines are the marker, one `key: value` line per key in order, a blank line, then the comment's lines |
| Record.HeaderLineClassify | task/task.go:164-169 | a written `key: value` line with a writable key and value reads back as that field |
| Record.StepHeaderLine | task/task.go:169-181 | replaying one written header line applies that key's update, deleting the key for an empty value |
| Record.ReplayHeaderLines | task/task.go:163-181 | replaying a block's header lines inside a header applies the `write` header update |
| Record.StepBlankLine | task/task.go:159-162 | a blank line ends the header |
| Record.StepComment | task/task.go:163 | outside a header, a non-blank line is comment text and changes nothing |
| Record.StepNoColon | task/task.go:164-168 | inside a header, a line without a colon ends it |
| Record.MarkerStamp | task/task.go:150-151 | the marker `write` formats is a marker whose stamp is the trimmed timestamp |
| Record.ReplayBlock | task/task.go:148-183 | from any state, replaying one block applies its header update, sets mtime to its stamp, sets ctime if unset, keeps the alternate IDs and leaves the header closed |
| Record.AppendBlockThenRead | task/task.go:204-254 | appending a block to a file that ends in a line break and reading it back gives the old header updated key by key, the same alternate IDs, and the block's stamp as mtime |
| Record.ReadStateOfLines | task/task.go:149-162 | a final newline only closes the header |
| Record.Pieces | task/task.go:512-522 | cutting a body gives at least one piece |
| Record.PiecesConcat | task/task.go:512-522 | the pieces put back together are the body |
| Record.PiecesStartWithMarker | task/task.go:515-520 | every piece after the first starts with `"— "` |
| Record.Reverse | task/task.go:524-526 | the pieces are emitted last to first |
| Tasks.Task.constructor | task/task.go:21-29 | a task holds exactly the given file, ID, header, body, alternate IDs and times |
| Tasks.Task.PrintTo | task/task.go:495-527 | the output is the header text (title first, the other keys sorted, a blank line), then the body's blocks newest first |
| Tasks.PrintHeader | task/task.go:496-510 | the header part is the title line if any, each other key in ascending order, then a blank line |
| Tasks.CutBlocks | task/task.go:512-522 | the loop that advances `start` cuts the body exactly as `Pieces` does |
| Tasks.NewestFirst | task/task.go:524-526 | the backward loop writes the pieces in reverse order |
| Tasks.HeaderReservedIsCaseSensitive | task/task.go:33-43 | `Header("id")` is the task's ID, while `Header("ID")` reads the header map |
| Tasks.HeaderIgnoresCase | task/task.go:33-43 | apart from `id`, `mtime` and `ctime`, a key and its lower-case form read the same header entry |
| Tasks.DoneIff | task/task.go:189-195 | a task is done exactly when its `todo` header is `done` or `mute` |
| Tasks.CommonHeaderSpec | task/task.go:529-545 | Common keeps exactly the first header's entries whose value every header shares, with the first header's values; there are none for no tasks |
| Tasks.Narrow | task/task.go:537-541 | one pass of the inner loop drops exactly the entries the next header does not hold with the same value |
| Tasks.Common | task/task.go:529-545 | the result is a header-only task with the common header, no ID, no file and no body |
| Order.Compare | sort.go:50 | `strings.Compare` is 0 exactly for equal strings and -1 or +1 by Go's string order |
| Order.SortedKeys | task/task.go:218 | `sort.Strings` over a set of keys yields each key once, in strictly ascending order |
| Order.SortedUnique | task/task.go:218 | the sorted key list is unique, so the block's key order is determined by the key set |
| Query.ParseQuery | task/task.go:429-491 | the loop over the words builds the compiled query `Compile(q, today)`: one term per word, then the snooze filter unless some word turned it off, and `needDone` |
| Query.CompileWord | task/task.go:433-467 | a word's term is negated by a leading `-`; `all`, `key:value` and bare words give their tests; the word's flags are computed alongside |
| Query.CompileKey | task/task.go:441-458 | `k:<v`, `k:>v`, `k:=v` and `k:v` give the compare, equality and substring tests; `todo:` values mentioning done/mute or snooze set the flags |
| Query.NeedDoneIff | task/task.go:444-446 | `needDone` holds exactly when some word is a `todo:` word whose value mentions `done` or `mute` |
| Query.CompileMeaning | task/task.go:470-488 | a task matches iff every word's term holds and, unless some word disabled the filter, the task is not snoozed past today |
| Query.SnoozeHolds | task/task.go:470-478 | the implicit filter passes a task iff it is disabled or the task is not snoozed past today |
| Query.AllHoldAppend | task/task.go:481-488 | the conjunction of two term lists is the conjunction over their concatenation |
| Query.NegatedWord | task/task.go:435-466 | `-w` compiles to `w`'s test negated, and holds exactly when `w`'s term does not |
| Query.AllWord | task/task.go:439-440 | `all` compiles to `todo != "done"` plus the snooze filter, and does not set `needDone` |
| Query.AllTodoPassesMuted | task/task.go:439-440 | the `all` test passes a muted task although `Done()` counts it as done |
| Query.SnoozeIsStrict | task/task.go:474 | a task snoozed until today itself is not filtered out |
| Query.CompareNeedsHeader | task/task.go:450-455 | `k:<v` and `k:>v` never match a task without header k; `k:=` matches it |
| Query.QueryKeyIsNotLowered | task/task.go:441-457 | query keys are not lower-cased: `Title:v` only matches when v is empty |
| Store.StemOfTaskFile | task/task.go:351 | trimming the extension of `<id>.todo` or `<id>.done` gives back the ID |
| Store.ParseLines | task/task.go:148-183 | the line loop leaves in the task exactly the state `Replay` gives for the lines |
| Store.ParseLine | task/task.go:149-183 | one loop iteration updates the task's fields as one `Step` |
| Store.ParseMarker | task/task.go:150-157 | the marker branch updates the times and opens the header as `Step` does |
| Store.ParseNonMarker | task/task.go:159-182 | the other branches close the header or apply a field as `Step` does |
| Store.SetHeaderField | task/task.go:169-181 | a field inside a header updates alternate IDs and header as `SetField` does |
| Store.Sent | task/task.go:236 | what a failing write gets onto the disk is a prefix of the block |
| Store.FormatBlock | task/task.go:219-230 | the buffer `write` formats is the block of the marker, the listed keys with their new values, and the comment |
| Store.KeysToWrite | task/task.go:207-218 | the keys written are the update's keys, plus `todo` when the task is done, not muted, and the update leaves `todo` alone; sorted |
| Store.UpdateHeader | task/task.go:246-253 | the in-memory header becomes the old one updated key by key |
| Store.AppendKeepsSync | task/task.go:204-254 | if a file re-reads to the task's header and alternate IDs, so does the file with the block appended, to the updated header |
| Store.MovedKeepsName | task/task.go:256-269 | a task whose file name stays the same leaves the directory as it was |
| Store.MovedMatchesDone | task/task.go:256-269 | when the final rename step succeeds, the file ends in `.done` exactly when the task is done and holds what it held |
| Store.CheckName | task/task.go:310-315 | an explicit ID passes exactly when every character is in `[0-9a-z_-]` |
| Store.NumbersAreNames | task/task.go:297 | an allocated numeric ID is a valid name too |
| Store.CandidateIsNew | task/task.go:286-298 | every candidate number exceeds every task number on disk, so its `.todo` file is not there |
| Store.NoTodoToUndo | task/task.go:211-218 | a new task's first write lists exactly the keys given |
| Store.FirstWrite | task/task.go:327-339 | a successful first write leaves the header and body of a single block, in a file, named for the done status, that holds the body |
| Store.ListedIds | task/task.go:368-376 | the IDs listed are in strictly ascending order and are exactly those of cached tasks on that side of the done line |
| Store.ListedSound | task/task.go:368-377 | every task All or Done lists is cached and on its side of the done line |
| Store.ListedComplete | task/task.go:360-398 | every cached task is listed by exactly one of All and Done |
| Store.ListedSorted | task/task.go:374-376 | with tasks cached under their own IDs, All and Done are strictly ascending by ID |
| Store.ListedAsListed | task/task.go:368-377 | a list holds, position by position, the cached task of each ID All or Done lists exactly when it is that listing |
| Store.SelectedMeaning | task/task.go:418-425 | Search keeps exactly the candidates the query matches and nothing else |
| Store.Pick | task/task.go:418-425 | the filtering loop yields the matching candidates in order |
| Store.SelectedAppend | task/task.go:419 | filtering All then Done is filtering their concatenation |
| Store.List.constructor | task/task.go:70-72 | a new list has an empty, not yet made cache and has read nothing |
| Store.List.Read | task/task.go:108-187 | a cached task is returned unchanged; otherwise `.todo`, then `.done`, is read; NotFound names the `.todo` file; a file not starting with `"— "` is Malformed; a parsed task is cached; success implies `Exists` |
| Store.List.Load | task/task.go:134-186 | a file not starting with `"— "` is rejected and nothing is cached; otherwise the parsed task is cached under its ID |
| Store.List.Write | task/task.go:197-272 | the error, new file name, new header and new directory are `WriteEffect` of the old ones: open, write or close failures leave header and name unchanged, otherwise the header is updated key by key and the file renamed to follow the done status; the body grows by the block exactly when the append succeeded; a synchronised file stays synchronised when not renamed, and after a rename holds the body that reads back, under the old extension, to the new header |
| Store.WriteKeepsSync | task/task.go:204-269 | a successful write of a synchronised task leaves its body plus the block in its (possibly renamed) file, reading back under the old name to the new header |
| Store.RenamedSync | task/task.go:138-146 | a body in step with a task under one extension gives, under the other, the same alternate IDs and header apart from the `done` key |
| Store.List.Commit | task/task.go:232-269 | append, then update the task in memory, then rename; errors leave the task as it was |
| Store.List.Append | task/task.go:232-243 | an open failure writes nothing; otherwise what is sent is appended, and the first failure of write then close is reported |
| Store.List.Rename | task/task.go:256-269 | the file and directory move as `Moved` says; a failed rename leaves both unchanged |
| Store.List.MaxTaskNumber | task/task.go:286-295 | the result is the largest task number in the directory, or 0 |
| Store.List.Allocate | task/task.go:296-308 | the first of three successive numbers whose `.todo` file could be created is taken; if all three fail, the third one's error is returned and nothing changes |
| Store.List.Create | task/task.go:274-341 | an invalid explicit ID, an ID in the cache or a failed exclusive create fail without change; a new task gets a number above every task number on disk; `.done` is never consulted; a failed first write removes the file but leaves the task cached; success yields a task of one block in a file named for its status |
| Store.List.Reserve | task/task.go:278-326 | the ID is checked or numbered and its empty `.todo` file created; only the cache and that file decide an explicit ID |
| Store.List.Start | task/task.go:327-339 | the task is cached before its first write, and stays cached when that write fails and its file is removed |
| Store.List.WriteFirst | task/task.go:336-339 | a failed first write removes the file; a successful one leaves a one-block task in a file named for its status |
| Store.List.ReadAll | task/task.go:343-358 | the cache only grows, only by readable tasks, and afterwards holds every readable task with such a file; every task returned is cached |
| Store.List.ReadNames | task/task.go:350-356 | the loop reads each name's ID, skipping failures |
| Store.List.Collect | task/task.go:368-376 | the collection loop and sort yield exactly `Listed(cache, done)` |
| Store.List.All | task/task.go:360-378 | the open cached tasks in ascending ID order, after reading every `.todo` file (`haveAll` is never set) |
| Store.List.Done | task/task.go:380-398 | the done cached tasks in ascending ID order, after reading every `.done` file (`haveDone` is never set) |
| Store.List.Search | task/task.go:400-427 | the result is `Selected` over the list All returns (`Listed` of the cache `mid` after reading every `.todo` file) and, only when the query needs it, Done's list over the final cache; every readable `.todo` task is in `mid` and, when Done ran, every readable `.done` task is in the cache |
| Store.List.Candidates | task/task.go:406-416 | All's listing over the cache it leaves, and Done's over the final cache only when `needDone`, each complete for the readable files of its side |
| Store.List.ThenDone | task/task.go:413-415 | Done's listing, complete for readable `.done` files, leaving All's earlier listing as it was |
| TaskLists.WalkClean | edit.go:29 | `filepath.Clean`'s scan only holds the elements of a clean path |
| TaskLists.WalkOfClean | edit.go:29 | the scan passes a clean path's elements through |
| TaskLists.CleanIdempotent | edit.go:29 | cleaning twice is cleaning once, so a cleaned name finds the same entry |
| TaskLists.Registry.constructor | edit.go:23-26 | the registry starts empty |
| TaskLists.Registry.TaskList | edit.go:28-43 | names equal after `Clean` share one list; a new name gets a fresh list over its directory, remembered under the cleaned name |
| Edit.SnapshotHeader | edit.go:138 | the snapshot answers `Header` as the old task does |
| Edit.Scan | edit.go:124-141 | the offset advances by at most the text scanned |
| Edit.Summarize | edit.go:122-141 | the offset stays within the document |
| Edit.ReadSummary | edit.go:122-141 | the summary loop computes `Summarize`: header entries, offset and unknown lines |
| Edit.EnterLine | edit.go:127-140 | a line with a colon sets its key, a line without one is recorded as unknown |
| Edit.EnterKey | edit.go:136-140 | a value is kept when the task is new or the value differs from the task's own |
| Edit.SectionEnd | edit.go:125-130 | the summary ends at or before the end of the lines |
| Edit.SectionEndBlank | edit.go:127-130 | every summary line is non-blank and the line after it, if any, is blank |
| Edit.SummaryMeaning | edit.go:122-141 | the unknown lines are the colon-less summary lines; the offset is the end of the summary and its blank line; every entry kept is a change; the keys come from summary lines, and are all of them for a new task |
| Edit.CommentOf | edit.go:162-170 | the comment is trimmed and never the placeholder |
| Edit.CommentHasNoMarker | edit.go:162-166 | a comment never holds a block marker `"\n— "` |
| Edit.ReportEmpty | edit.go:115-145 | the error text is non-empty, even trimmed, exactly when some summary line was not understood |
| Edit.WriteTask | edit.go:114-178 | unknown lines give one error and no write; a bulk check of a new task writes nothing; a new task is created under `hdr["id"]` with the trimmed rest as body; an existing task, its fields and the directory change exactly as `UpdateEffect` says, and it is returned unless the summary was bad |
| Edit.UpdateMeaning | edit.go:122-177 | an update fails only on a bad summary or a failed write; a bad summary or a failed open changes nothing; success updates the header key by key and appends exactly one block with the comment; alternate IDs and times never change |
| Edit.Revise | edit.go:122-177 | writeTask on an existing task: nil on a bad summary, else the task, with the `UpdateEffect` outcome |
| Edit.Amend | edit.go:162-177 | the one write of an understood update, with the comment cut from the text, as `UpdateEffect` says |
| Edit.NewTask | edit.go:152-159 | a new task is created with the summary header and the trimmed rest as body; a Create error is reported as such and writes nothing |
| Edit.LineId | edit.go:183-189 | a line's ID holds no tab and no space |
| Edit.LineIdWord | edit.go:183-189 | a prefix free of tabs and spaces and ended by one, or by the line's end, is the ID |
| Edit.ReadBulkIds | edit.go:180-195 | the IDs of the lines whose first word names a known task, in order, repeats kept, markers not special |
| Edit.FirstWord | edit.go:183-189 | cutting at the first tab and then at the first space gives the line's ID |
| Edit.BulkIdsMeaning | edit.go:180-195 | an ID is kept exactly when the list knows it and some line starts with it |
| Edit.PrintBare | edit.go:247 | a task with an empty body prints as its header text alone |
| Edit.BulkEditStart | edit.go:244-253 | the base task has the tasks' common header; the text is its header, the bulk header, and one `id\ttitle` line per task |
| Edit.WriteManifest | edit.go:249-251 | the loop writes one `id\ttitle\n` line per task, in order |
| Edit.ManifestIds | edit.go:249-251 | the manifest's lines give back the known listed IDs when no ID breaks a line and no task is named "" |
| Edit.BulkRoundTrip | edit.go:244-260 | read from the bulk header on, a bulk document names exactly the known tasks it was made from, in order |
| Edit.BulkWriteTask | edit.go:255-295 | the IDs, error, failed IDs, new directory and new task fields are `BulkOutcome` of the old directory and fields: no bulk header, no known IDs, or unknown summary lines fail with no write; otherwise every listed ID is read and edited in turn as `BulkStep` says |
| Edit.CheckSummary | edit.go:265-269 | the format check of a bulk edit (writeTask with no task, edit.go:143-150) reports exactly the unknown summary lines, trimmed, and writes nothing |
| Edit.BulkOutcomeMeaning | edit.go:255-295 | the three early errors return no IDs and change nothing; otherwise the listed IDs are returned, the failed IDs are among them, and the error is reported exactly when some ID failed |
| Edit.BulkStepLocal | edit.go:280-288 | one step of the loop changes only the directory and the task it names: a task it cannot read is a failure with nothing changed |
| Edit.BulkRun | edit.go:279-289 | the loop yields one outcome per listed ID |
| Edit.FailedIdsMeaning | edit.go:284-287 | the IDs reported as failed are listed IDs, and there are none exactly when every step succeeded |
| Edit.WriteEach | edit.go:278-289 | the directory and cached tasks end as `BulkRun` says, from the state before the loop, and the IDs reported are exactly the failed ones, in order |
| Edit.WriteOne | edit.go:280-288 | reading then editing one ID gives exactly `BulkStep`'s success flag, directory and task fields |
| Edit.Fetch | edit.go:280 | the read succeeds exactly when the ID is cached or readable, and caches the task with the fields `read` parses from its file |
| Edit.Update | edit.go:282 | editing a cached task gives `UpdateEffect`'s outcome on its fields, leaves the cache map as it was, and every other task's fields untouched |
| Edit.EditTask | edit.go:45-59 | an unchanged document writes nothing; a changed one has `writeTask`'s outcome: `UpdateEffect` for an existing task, creation or the summary error for a new one |
| Edit.BulkEditTasks | edit.go:226-242 | an unchanged bulk document writes nothing; a changed one has exactly `BulkOutcome` on the edited text |
| Edit.BulkEditStartFromText | edit.go:197-217 | no known ID fails; otherwise the tasks kept are exactly the cached or readable named ones (`ReadIds`), in order, repeats kept; none gives the last read's error; some are rendered with their common header |
| Edit.ReadIds | edit.go:204-210 | the IDs kept are named ones that are cached or readable, and every such ID is kept |
| Edit.ReadEach | edit.go:203-213 | the loop keeps the task of every ID `ReadIds` keeps, in order, and otherwise the error of the last ID read |
| Edit.ReadOne | edit.go:206 | one read succeeds exactly when the ID was cached or is readable, and otherwise reports `ReadError` |
| Edit.PickedGrows | edit.go:208 | tasks picked from the cache stay picked as the cache grows |
| Edit.GatheredAdd | edit.go:206 | adding a task parsed from a readable file to the cache keeps every added task one read from disk |
| ListSort.Wrap | sort.go:101 | Go's 64-bit `int`: the value congruent to x modulo 2^64 in [-2^63, 2^63) |
| ListSort.DigitRun | sort.go:100 | the leading digits end at a non-digit or at the end |
| ListSort.LineNumberOf | sort.go:97-107 | 0 for an empty line or a leading space or tab; 999999999 for a leading other character; always a 64-bit value |
| ListSort.LineNumber | sort.go:97-107 | the loop computes `LineNumberOf` |
| ListSort.AccumulateWraps | sort.go:100-101 | accumulating `n*10+d` in 64 bits gives the digits' value reduced to 64 bits |
| ListSort.LineNumberOfTaskLine | sort.go:97-107 | a task's line `id\ttitle` is numbered by its numeric ID when that fits in an int |
| ListSort.IdField | sort.go:109-115 | `lineID` is a tab-free prefix ended by the first tab or the end of the line |
| ListSort.IdFieldOfTaskLine | sort.go:109-115 | the ID field of a task's line is its ID |
| ListSort.TabRun | sort.go:122-124 | the run of tabs ends at a non-tab or at the end |
| ListSort.SkipFieldAsWritten | sort.go:117-126 | on lines whose first tab run stops before the end, the loop as written returns the line from the last tab of that run |
| ListSort.UntitledLineRunsOff | sort.go:122 | the line `id\t` of an untitled task is outside that domain: `s[i+1]` is read past the end |
| ListSort.SkipField | sort.go:117-126 | with the bound `i+1 < len(s)`, `skipField` returns the line from the last tab of its first tab run, for every line |
| ListSort.TitleFieldOfTaskLine | sort.go:117-126 | the title field of a task's line is its title behind one tab |
| ListSort.CompareById | sort.go:33-48 | the ID comparator returns 0 only for equal lines and otherwise -1 or +1 |
| ListSort.CompareByHeader | sort.go:61-77 | the header comparator returns 0 only for equal lines and otherwise -1 or +1 |
| ListSort.CompareByIdAntisymmetric | sort.go:33-48 | `cmp(x, y) == -cmp(y, x)` |
| ListSort.CompareByIdTransitive | sort.go:33-48 | the ID order is transitive |
| ListSort.CompareByIdNumeric | sort.go:33-41 | task lines sort by ID as numbers: line 9 before line 10 |
| ListSort.CompareByTitleOfTaskLines | sort.go:49-50 | task lines compare as their titles do |
| ListSort.CompareByTitleAntisymmetric | sort.go:50 | the title comparator is antisymmetric |
| ListSort.CompareByHeaderAntisymmetric | sort.go:61-77 | the header comparator is antisymmetric |
| ListSort.CompareByHeaderMissingFirst | sort.go:70-75 | a line whose task is missing sorts before a line whose task is found |
| ListSort.CompareByHeaderRank | sort.go:61-77 | a line sorts first iff it is missing while the other is found, or both are found and its header value is smaller, or the values tie and its line is smaller |
| ListSort.CompareByHeaderTransitive | sort.go:61-77 | the header order is transitive |
| ListSort.HeaderValues | sort.go:52-60 | the memo holds a value for a line's ID exactly when its task was cached or is readable, and that value is the task's header; the list's cache only grows |
| ListSort.Remember | sort.go:53-60 | one lookup reads an ID not tried before and keeps the memo's meaning |
| ListSort.NextSortByToggles | sort.go:18-24 | with no argument, Sort alternates between `title` and `id`, whatever the key was |
| ListSort.OrderOf | sort.go:26-51 | a key reverses the order exactly when it starts with `-` |
| ListSort.OrderOfReversed | sort.go:26-31 | `-k` orders as `k` reversed |
| ListSort.CompareByAntisymmetric | sort.go:32-78 | every comparator Sort selects is antisymmetric |
| ListSort.BeforeReversed | sort.go:79-84 | reversed, y comes before x exactly when x came before y |
| ListSort.BeforeAsymmetric | sort.go:79-84 | the less function is irreflexive and asymmetric in both directions |
| ListSort.Window.constructor | acme.go:53-61 | a window has its mode and an empty sort key |
| ListSort.Window.ExecSort | sort.go:13-31 | only a list window sorts; it sets the next key and sorts by the order that key names |
| Command.KeyLessIrreflexive | main.go:166-173 | comparing by key then ID never puts a task before itself |
| Command.KeyLessAsymmetric | main.go:166-173 | two tasks are never each before the other |
| Command.KeyLessTransitive | main.go:166-173 | the key-then-ID order is transitive |
| Command.KeyLessTotal | main.go:166-173 | tasks with different IDs are always ordered |
| Command.KeyNotAfterTransitive | main.go:166-173 | "not after" chains |
| Command.TitleLessIsHeaderLess | main.go:166-189 | tasksByTitle is tasksByHeader with the key `title` |
| Command.HeaderLessById | main.go:182-189 | with the key `id` the order is by ID alone, through `Header`'s reserved key |
| Command.TitleLessIsStrictOrder | main.go:166-173 | tasksByTitle.Less is irreflexive, asymmetric, transitive and total on distinct IDs |
| Command.HeaderLessIsStrictOrder | main.go:182-189 | tasksByHeader.Less is irreflexive, asymmetric, transitive and total on distinct IDs |
| Command.SinkStep | main.go:165-173 | one swap of the moving task with a predecessor that should follow it keeps the pass going |
| Command.SinkDone | main.go:166-173 | a pass ends sorted once the moving task has no predecessor that should follow it |
| Command.Swap | main.go:165 | the tasks at i and j trade places and nothing else changes |
| Command.SortByTitle | main.go:155-173 | sorting by title with swaps leaves the tasks in title order, as a permutation |
| Command.SinkByTitle | main.go:162-173 | one pass extends the sorted prefix by one, as a permutation |
| Command.SinkOnce | main.go:165-172 | swapping the moving task with a predecessor that sorts after it keeps the pass in order around it, as a permutation |
| Command.WindowLines | main.go:156-157 | one window line per task |
| Command.QueryTextLines | main.go:156-157 | the output splits at newlines into one `id\ttitle` line per task, then the empty tail |
| Command.Listing | main.go:155-158 | the lines printed are those of a title-sorted permutation of the results |
| Command.Print | main.go:156-158 | the printing loop writes one line per task, in order |
| Command.ShowQuery | main.go:150-160 | one `id\ttitle` line per search result, in title order, and nothing else; the results are `Selected` over All's listing of every readable `.todo` task (`ListedAs` the cache `mid`), then Done's listing of the final cache when the query needs it, and the cache only grows |
| Command.DoneHeaderApplies | main.go:88 | writing `{todo: done}` changes the `todo` header alone |
| Command.MarkOne | main.go:86-93 | the task and directory change as `MarkedOne` says: a task whose `todo` is already `done` is not written; otherwise `{todo: done}` is written with `write`'s exact outcome, and success leaves it done |
| Command.MarkedOneIsDone | main.go:86-93 | marking changes at most the `todo` key, to `done`, and a task marked without error is done |
| Command.LoggedMeaning | main.go:119-126 | the errors logged are the failed writes' errors, in order: none exactly when every write succeeded |
| Command.MarkDone | main.go:114-127 | every found task is marked in turn as `MarkedOne` says, against the directory the previous one left, and every failure is logged while the loop carries on |
| Command.MarkAt | main.go:119-125 | marking the task at one position does what `MarkedOne` says to it and leaves every other found task as it was |

## Left out

- File-system calls (`ioutil.ReadFile`, `os.OpenFile`, `os.Rename`, `os.Remove`, `os.Stat`, `filepath.Glob`) are operations on the directory map. `$HOME` and `dir`, `IsList` and `Sublists` are not modelled: they only locate the directory.
- Locking (`sync.Mutex` in `List` and in the registry) is not modelled: the model is single-threaded.
- Time formatting (`now.Local().Format`, `time.Now()`) is replaced by string parameters.
- The acme user interface (`acme.go`: windows, tags, events, the plumber) is not modelled, and neither are the `Addr`, `Sort`, `Ctl` and `Err` calls in `ExecSort`. The window only keeps its mode and sort key, and `ExecSort` returns the order that `acme.Sort` would use. The sort itself is done by the window library, outside this repository.
- `editText` and `runEditor` (temporary files and an external editor) are not modelled: the edited text is an input, a function `edit` in `Edit.BulkEditTasks`.
- Log output and `log.Fatal` are not modelled. Errors are returned (`Option`/`Result`), and the `status` callback of `bulkWriteTask` is left out.
- The flag parsing, `usage` and `os.Exit` of `main`, and `showTask`, are not modelled.
- `git-todo` is not part of this model. It shells out to `git` and calls a constructor that `task/task.go` does not define.
- Error texts are abstracted to the `Error`, `EditError`, `BulkError` and `StartError` constructors. `writeTask`'s message is kept as text (`Report`).
- `Store.List.Search`: the errors of `parseQuery`, `All` and `Done` are not modelled, because all three always return nil.
- Task names are file names in one flat directory. `filepath.Join` would clean an ID such as `sub/5` or `../x` into another directory; the model keeps the name as given. `Create` checks `ValidName` for explicit IDs, but `read`, `Exists` and the bulk line IDs accept any string.
- `Store.List.ReadAll`: `filepath.Glob`'s error (only a malformed pattern) is not modelled. The names are visited in sorted order.
- `Text.ToLower` lower-cases ASCII letters only, where Go's `strings.ToLower` maps all of Unicode.
- `Text.Atoi`: a number too large for a 64-bit int keeps its exact value. Go's `strconv.Atoi` would clamp it, so `Create`'s numbering differs only past 2^63.
- `Store.List.Create`: its precondition `cacheMade` stands for Go's nil map. `Create` on a list that has never read a task would assign into a nil map and panic.
- `Edit.BulkWriteTask`: Go's `failed` is a boolean and the failing IDs only reach the `status` callback. The model returns those IDs as `failed`, and the error is `NotAllUpdated` exactly when that list is non-empty.
- `Edit.BulkWriteTask`: the task fields are stated for the cached tasks as a map of values (`Shows`). The model does not say which object a fresh task is, only its fields.
- `ListSort.HeaderValues`: the header comparator's memo is filled up front for the window's lines rather than lazily during the sort. Each ID is still read at most once, with the same values.
- `Command.SortByTitle`: `sort.Sort`'s own algorithm is modelled by an insertion sort that uses only `Swap` and `Less`. Its result is in title order and a permutation, as `sort.Sort` promises.
- `Command.MarkDone`: the per-task errors and directories (`errs`, `disks`) are ghost. The logged errors are the real output.

## Findings

| source | as written | input that shows it | evidently intended | confidence | as-written member | corrected member |
|---|---|---|---|---|---|---|
| sort.go:122 | the loop reads `s[i+1]` after testing only `i < len(s)`, so a tab run that reaches the end of the line indexes past it | the line `5\t` of a task with no title, when it reaches `skipField` without its newline | `i+1 < len(s) && s[i+1] == '\t'`, stopping at the last tab | medium, not executed | ListSort.SkipFieldAsWritten, ListSort.UntitledLineRunsOff | ListSort.SkipField |
