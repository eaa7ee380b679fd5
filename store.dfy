/**
 * A to-do list (the List type of task/task.go): a directory of task files
 * and the cache of tasks read from it.
 *
 * The directory is modelled as a map from file name to contents.  The
 * operating-system calls that can fail for reasons the contents do not
 * decide (a permission error, a full disk) take their outcome from a
 * `Faults` value, so every operation is deterministic in its inputs.
 */
module Store {
  import opened Wrappers
  import opened Text
  import opened Order
  import opened Record
  import opened Tasks
  import opened Query

  /** The errors the list operations return. */
  datatype Error =
    | NotFound(file: string)          // reading <id>.todo failed and so did <id>.done
    | Malformed                       // the file does not start with "— "
    | InvalidName(id: string)         // an explicit ID outside [0-9a-z_-]
    | AlreadyExists(id: string)       // an explicit ID already in the cache
    | CreateFailed(file: string)      // exclusive create of a new task file failed
    | OpenFailed(file: string)        // opening the task file for append failed
    | WriteFailed(file: string)       // appending the block failed part-way
    | CloseFailed(file: string)       // closing the task file failed
    | RenameFailed(src: string, dst: string)

  /**
   * How the system calls of one operation turn out where the directory
   * contents do not decide it.  `written` is how much of the block a failing
   * append got onto disk before it failed; `createFails` holds the tries of
   * Create's exclusive create that fail, counted from 0 (an explicit ID is
   * tried once).
   */
  datatype Faults = Faults(
    openFails: bool,
    writeFails: bool,
    written: nat,
    closeFails: bool,
    renameFails: bool,
    createFails: set<nat>)

  /** The name of a task file without its extension (filepath.Ext cuts at the last dot). */
  function Stem(name: string): string
    requires '.' in name
  {
    name[..LastIndexChar(name, '.')]
  }

  lemma StemOfTaskFile(id: string, ext: string)
    requires |ext| > 0 && ext[0] == '.' && '.' !in ext[1..]
    ensures '.' in id + ext && Stem(id + ext) == id
  {
    var name := id + ext;
    assert name[|id|] == '.';
    assert name[..|id|] == id;
  }

  /** The characters Create allows in an explicit task ID. */
  predicate NameChar(c: char) {
    '0' <= c <= '9' || 'a' <= c <= 'z' || c == '-' || c == '_'
  }

  predicate ValidName(id: string) {
    forall i :: 0 <= i < |id| ==> NameChar(id[i])
  }

  /** The task number Create reads off a file name: a .todo or .done file's stem as an integer, else 0. */
  function TaskNumber(name: string): int {
    if HasSuffix(name, ".todo") || HasSuffix(name, ".done") then
      assert name[|name| - 5] == '.';
      Atoi(Stem(name))
    else 0
  }

  /** The header fields of a task as `read` leaves them. */
  predicate Loaded(t: Task, id: string, file: string, d: string)
    reads t
  {
    var st := ReadState(d, HasSuffix(file, ".done"));
    && t.id == id && t.file == file && t.body == d
    && t.hdr == st.hdr && t.altIds == st.altIds && t.ctime == st.ctime && t.mtime == st.mtime
  }

  /** The parse state held in a task's fields. */
  function Parsed(t: Task, inHeader: bool): ParseState
    reads t
  {
    ParseState(t.hdr, t.altIds, t.ctime, t.mtime, inHeader)
  }

  /** The line loop of `read`: the task's fields are updated line by line. */
  method ParseLines(t: Task, lines: seq<string>, ghost seed: ParseState)
    requires Parsed(t, false) == seed
    modifies t`hdr, t`altIds, t`ctime, t`mtime
    ensures Parsed(t, Replay(lines, seed).inHeader) == Replay(lines, seed)
  {
    var inHeader := false;
    for j := 0 to |lines|
      invariant Parsed(t, inHeader) == Replay(lines[..j], seed)
    {
      ReplayTake(lines, j, seed);
      inHeader := ParseLine(t, lines[j], inHeader);
    }
    assert lines[..|lines|] == lines;
  }

  /** One iteration of the line loop of `read`. */
  method ParseLine(t: Task, line: string, inHeader: bool) returns (next: bool)
    modifies t`hdr, t`altIds, t`ctime, t`mtime
    ensures Parsed(t, next) == Step(old(Parsed(t, inHeader)), line)
  {
    if IsMarker(line) {
      next := ParseMarker(t, line, inHeader);
    } else {
      next := ParseNonMarker(t, line, inHeader);
    }
  }

  /** A marker line: the first non-empty stamp is the creation time, the last the modification time. */
  method ParseMarker(t: Task, line: string, inHeader: bool) returns (next: bool)
    requires IsMarker(line)
    modifies t`ctime, t`mtime
    ensures Parsed(t, next) == Step(old(Parsed(t, inHeader)), line)
  {
    StepMarker(Parsed(t, inHeader), line);
    var ts := TrimSpace(line[|EmSpace|..|line| - |EmSpace|]);
    if t.ctime == "" {
      t.ctime := ts;
    }
    t.mtime := ts;
    next := true;
  }

  /** Any other line: a blank line or a line without a colon ends a header; a field inside one is applied. */
  method ParseNonMarker(t: Task, line: string, inHeader: bool) returns (next: bool)
    requires !IsMarker(line)
    modifies t`hdr, t`altIds
    ensures Parsed(t, next) == Step(old(Parsed(t, inHeader)), line)
  {
    ghost var before := Parsed(t, inHeader);
    next := inHeader;
    if TrimSpace(line) == [] {
      next := false;
      StepBlankLine(before, line);
    } else if inHeader {
      var i := IndexChar(line, ':');
      if i < 0 {
        next := false;
        StepNoColon(before, line);
      } else {
        var k, v := ToLower(TrimSpace(line[..i])), TrimSpace(line[i + 1..]);
        ClassifyField(line, k, v);
        StepField(before, line, k, v);
        SetHeaderField(t, k, v, inHeader);
      }
    } else {
      StepComment(before, line);
    }
  }

  /** One `key: value` line inside a header: `#id` adds an alternate ID, other `#` keys are skipped, "" deletes. */
  method SetHeaderField(t: Task, k: string, v: string, ghost inHeader: bool)
    modifies t`hdr, t`altIds
    ensures Parsed(t, inHeader) == SetField(old(Parsed(t, inHeader)), k, v)
  {
    if k == "#id" {
      t.altIds := t.altIds + [v];
    } else if HasPrefix(k, "#") {
    } else if v == "" {
      t.hdr := t.hdr - {k};
    } else {
      t.hdr := t.hdr[k := v];
    }
  }

  // ---------------------------------------------------------------------------
  // Writing

  /**
   * The keys `write` lists, sorted: those of the update, plus "todo" (with an
   * empty value) when the task is done but not muted and the update leaves
   * "todo" alone, so that writing reopens a done task.
   */
  function WriteKeys(cur: map<string, string>, hdr: map<string, string>): seq<string> {
    SortedKeys(hdr.Keys + (if Lookup(cur, "todo") == "done" && "todo" !in hdr then {"todo"} else {}))
  }

  /** What reaches the file: all of the block, or the part a failing write got out. */
  function Sent(buf: string, io: Faults): (r: string)
    ensures HasPrefix(buf, r)
  {
    if io.writeFails then buf[..if io.written < |buf| then io.written else |buf|] else buf
  }

  /** The block `write` formats for one update. */
  method FormatBlock(now: string, keys: seq<string>, hdr: map<string, string>, comment: string) returns (buf: string)
    ensures buf == Block(now, keys, hdr, comment)
  {
    buf := MarkerLine(now) + "\n";
    var head := buf;
    for j := 0 to |keys|
      invariant buf == head + HeaderLines(keys[..j], hdr)
    {
      var line := HeaderLine(keys[j], Lookup(hdr, keys[j]));
      HeaderLinesPrefix(keys, hdr, j);
      AppendAssoc(head, HeaderLines(keys[..j], hdr) + line, "\n");
      AppendAssoc(head, HeaderLines(keys[..j], hdr), line);
      buf := buf + line + "\n";
    }
    assert keys[..|keys|] == keys;
    buf := buf + "\n";
    var pre := buf;
    buf := buf + comment;
    if |comment| > 0 {
      if comment[|comment| - 1] != '\n' {
        buf := buf + "\n";
        AppendAssoc(pre, comment, "\n");
      }
      buf := buf + "\n";
      AppendAssoc(pre, CommentText(comment)[..|CommentText(comment)| - 1], "\n");
    }
  }

  lemma DoneButNotMuted(s: string)
    ensures (s in {"done", "mute"} && s != "mute") <==> s == "done"
  {
    assert "done"[0] != "mute"[0];
  }

  /** The keys of the update, plus "todo" when a done task that is not muted would otherwise stay done. */
  method KeysToWrite(t: Task, hdr: map<string, string>) returns (keys: seq<string>)
    ensures keys == WriteKeys(t.hdr, hdr)
  {
    var keySet := hdr.Keys;
    DoneIff(t);
    DoneButNotMuted(Lookup(t.hdr, "todo"));
    if t.Done() && t.Header("todo") != "mute" {
      if "todo" !in hdr {
        keySet := keySet + {"todo"};
      }
    }
    assert keySet == hdr.Keys + (if Lookup(t.hdr, "todo") == "done" && "todo" !in hdr then {"todo"} else {});
    keys := SortedKeys(keySet);
  }

  /** The in-memory header update of `write`: each listed key set to its new value, or deleted when that is "". */
  method UpdateHeader(t: Task, keys: seq<string>, hdr: map<string, string>)
    modifies t`hdr
    ensures t.hdr == ApplyKeys(old(t.hdr), keys, hdr)
  {
    ghost var m := t.hdr;
    for j := 0 to |keys|
      invariant t.hdr == ApplyKeys(m, keys[..j], hdr)
    {
      ApplyKeysTake(m, keys, hdr, j);
      var k := keys[j];
      var v := Lookup(hdr, k);
      if v == "" {
        t.hdr := t.hdr - {k};
      } else {
        t.hdr := t.hdr[k := v];
      }
    }
    assert keys[..|keys|] == keys;
  }

  /**
   * The end of `write`: when the done status `done` disagrees with the
   * extension of `file`, the file is renamed to the other extension.  The
   * result is the error, the task's file name and the directory.
   */
  function Moved(disk: map<string, string>, file: string, done: bool, io: Faults): (Option<Error>, string, map<string, string>)
    requires '.' in file
  {
    if done == HasSuffix(file, ".done") then (None, file, disk)
    else
      var src := Stem(file) + (if done then ".todo" else ".done");
      var dst := Stem(file) + (if done then ".done" else ".todo");
      if src !in disk || io.renameFails then (Some(RenameFailed(src, dst)), file, disk)
      else (None, dst, (disk - {src})[dst := disk[src]])
  }

  /**
   * All of `write`, as the error, the task's file name and header, and the
   * directory it leaves: the open, the append and the close either fail and
   * leave the header alone, or the header is updated and the file moved.
   */
  function WriteEffect(disk: map<string, string>, file: string, cur: map<string, string>, hdr: map<string, string>,
                       now: string, comment: string, io: Faults): (Option<Error>, string, map<string, string>, map<string, string>)
    requires '.' in file
  {
    var keys := WriteKeys(cur, hdr);
    Effect(disk, file, cur, keys, hdr, Block(now, keys, hdr, comment), io)
  }

  /** WriteEffect once the keys are chosen and the block `buf` is formatted. */
  function Effect(disk: map<string, string>, file: string, cur: map<string, string>, keys: seq<string>,
                  hdr: map<string, string>, buf: string, io: Faults): (Option<Error>, string, map<string, string>, map<string, string>)
    requires '.' in file
  {
    if file !in disk || io.openFails then (Some(OpenFailed(file)), file, cur, disk)
    else if io.writeFails || io.closeFails then
      (Some(if io.writeFails then WriteFailed(file) else CloseFailed(file)), file, cur, disk[file := disk[file] + Sent(buf, io)])
    else
      var hdr' := ApplyKeys(cur, keys, hdr);
      var m := Moved(disk[file := disk[file] + buf], file, DoneStatus(hdr'), io);
      (m.0, m.1, hdr', m.2)
  }

  /** Whether the open, the append and the close of `write` all succeed, so that the task takes the block. */
  predicate Appended(disk: map<string, string>, file: string, io: Faults) {
    file in disk && !io.openFails && !io.writeFails && !io.closeFails
  }

  /** `write` fails only in the open, the append, the close or the rename. */
  lemma WriteErrors(disk: map<string, string>, file: string, cur: map<string, string>, hdr: map<string, string>,
                    now: string, comment: string, io: Faults)
    requires '.' in file
    ensures var e := WriteEffect(disk, file, cur, hdr, now, comment, io).0;
      e.Some? ==> e.value.OpenFailed? || e.value.WriteFailed? || e.value.CloseFailed? || e.value.RenameFailed?
    ensures WriteEffect(disk, file, cur, hdr, now, comment, io).0 == None <==>
      file in disk && !io.openFails && !io.writeFails && !io.closeFails
      && (DoneStatus(ApplyKeys(cur, WriteKeys(cur, hdr), hdr)) != HasSuffix(file, ".done") ==>
            Stem(file) + (if HasSuffix(file, ".done") then ".done" else ".todo") in disk && !io.renameFails)
  {
  }

  /**
   * A `write` that succeeds on a task file holding the task's body leaves the
   * body with the block appended under the task's new file name, and that
   * reads back, under the old name, as the new header.
   */
  lemma WriteKeepsSync(disk: map<string, string>, file: string, body: string, cur: map<string, string>, altIds: seq<string>,
                       now: string, hdr: map<string, string>, comment: string, io: Faults)
    requires file in disk && disk[file] == body && '.' in file
    requires Synced(file, body, cur, altIds) && BlockArgs(now, WriteKeys(cur, hdr), hdr, comment)
    ensures var w := WriteEffect(disk, file, cur, hdr, now, comment, io);
      var body' := body + Block(now, WriteKeys(cur, hdr), hdr, comment);
      && (w.0 == None && w.1 == file ==> file in w.3 && w.3[file] == body' && Synced(file, body', w.2, altIds))
      && (w.0 == None && (HasSuffix(file, ".todo") || HasSuffix(file, ".done")) ==>
            w.1 in w.3 && w.3[w.1] == body' && Synced(file, body', w.2, altIds))
  {
    var keys := WriteKeys(cur, hdr);
    var buf := Block(now, keys, hdr, comment);
    var done := DoneStatus(ApplyKeys(cur, keys, hdr));
    AppendKeepsSync(file, body, cur, altIds, now, keys, hdr, comment);
    MovedKeepsName(disk[file := body + buf], file, done, io);
    if HasSuffix(file, ".todo") || HasSuffix(file, ".done") {
      TaskFileStem(file);
      MovedMatchesDone(disk[file := body + buf], file, done, io);
    }
  }

  /**
   * Contents `body` of a file named `file`, ending at a line break, from which
   * `read` would build the header `hdr` and the alternate IDs `altIds`.
   */
  predicate Synced(file: string, body: string, hdr: map<string, string>, altIds: seq<string>) {
    && (body == "" || HasSuffix(body, "\n"))
    && var st := ReadState(body, HasSuffix(file, ".done"));
    hdr == st.hdr && altIds == st.altIds
  }

  /**
   * A task in step with its body under one file name is in step with it
   * under any other, except for the "done" key that reading a .done file
   * seeds: moving the file between .todo and .done changes what a later read
   * finds only there.
   */
  lemma RenamedSync(file: string, file': string, body: string, hdr: map<string, string>, altIds: seq<string>)
    requires Synced(file, body, hdr, altIds)
    ensures var st := ReadState(body, HasSuffix(file', ".done"));
      altIds == st.altIds && st.hdr - {"done"} == hdr - {"done"}
  {
    ReadStateSeed(body);
    var a, b := ReadState(body, true), ReadState(body, false);
    if a != b {
      assert a.hdr - {"done"} == b.hdr - {"done"};
    }
  }

  /** Appending a block keeps a file in step with the header `write` computes in memory. */
  lemma AppendKeepsSync(file: string, body: string, cur: map<string, string>, altIds: seq<string>,
                        now: string, keys: seq<string>, hdr: map<string, string>, comment: string)
    requires Synced(file, body, cur, altIds) && BlockArgs(now, keys, hdr, comment)
    ensures Synced(file, body + Block(now, keys, hdr, comment), ApplyKeys(cur, keys, hdr), altIds)
  {
    var block := Block(now, keys, hdr, comment);
    var b := body + block;
    assert HasSuffix(b, "\n") by {
      BlockEndsInNewline(now, keys, hdr, comment);
      SuffixOfAppend(body, block, "\n");
    }
    var isDone := HasSuffix(file, ".done");
    assert ReadState(b, isDone).hdr == ApplyKeys(cur, keys, hdr) && ReadState(b, isDone).altIds == altIds by {
      AppendBlockThenRead(body, isDone, now, keys, hdr, comment);
    }
  }

  lemma SuffixesDiffer(a: string, b: string)
    requires HasSuffix(a, ".todo") && HasSuffix(b, ".done")
    ensures a != b
  {
    assert a[|a| - 4] == 't' && b[|b| - 4] == 'd';
  }

  /** Renaming always changes the name: a task that keeps its file name kept the directory as it was. */
  lemma MovedKeepsName(disk: map<string, string>, file: string, done: bool, io: Faults)
    requires '.' in file
    ensures Moved(disk, file, done, io).1 == file ==> Moved(disk, file, done, io).2 == disk
  {
    if done != HasSuffix(file, ".done") {
      var dst := Stem(file) + (if done then ".done" else ".todo");
      if !done {
        assert HasSuffix(dst, ".todo");
        SuffixesDiffer(dst, file);
      }
    }
  }

  /** A file name never carries both extensions. */
  lemma OneExtension(a: string)
    ensures !(HasSuffix(a, ".todo") && HasSuffix(a, ".done"))
  {
    if HasSuffix(a, ".todo") && HasSuffix(a, ".done") {
      SuffixesDiffer(a, a);
    }
  }

  /** A task file name splits into its stem and its extension. */
  lemma TaskFileStem(file: string)
    requires HasSuffix(file, ".todo") || HasSuffix(file, ".done")
    ensures '.' in file && file == Stem(file) + file[|file| - 5..]
  {
    var stem := file[..|file| - 5];
    var ext := file[|file| - 5..];
    assert file == stem + ext;
    StemOfTaskFile(stem, ext);
  }

  /**
   * After the last step of `write` succeeds, the task file's extension is
   * .done exactly when the task is done, and the file holds what it held.
   */
  lemma MovedMatchesDone(disk: map<string, string>, file: string, done: bool, io: Faults)
    requires file in disk && '.' in file && (HasSuffix(file, ".todo") || HasSuffix(file, ".done"))
    ensures var m := Moved(disk, file, done, io);
      m.0 == None ==> m.1 in m.2 && m.2[m.1] == disk[file] && HasSuffix(m.1, ".done") == done
  {
    TaskFileStem(file);
    OneExtension(file);
    if done != HasSuffix(file, ".done") {
      var dst := Stem(file) + (if done then ".done" else ".todo");
      assert HasSuffix(dst, if done then ".done" else ".todo");
      OneExtension(dst);
    }
  }

  // ---------------------------------------------------------------------------
  // Creating

  /** Create's check of an explicit ID, character by character. */
  method CheckName(id: string) returns (ok: bool)
    ensures ok <==> ValidName(id)
  {
    for i := 0 to |id|
      invariant forall j :: 0 <= j < i ==> NameChar(id[j])
    {
      if !NameChar(id[i]) {
        return false;
      }
    }
    return true;
  }

  /** The file name of the k-th ID Create tries after the largest task number `max`. */
  function Candidate(max: nat, k: nat): string {
    Numbered(max, k) + ".todo"
  }

  /** The k-th ID Create tries. */
  function Numbered(max: nat, k: nat): string {
    Itoa(max + k + 1)
  }

  /** A numeric ID is a valid explicit name too. */
  lemma NumbersAreNames(n: nat)
    ensures ValidName(Itoa(n))
  {
  }

  /** Every candidate's number exceeds every task number on disk. */
  lemma CandidateIsNew(disk: map<string, string>, max: nat, k: nat)
    requires forall name :: name in disk ==> TaskNumber(name) <= max
    ensures forall name :: name in disk ==> TaskNumber(name) < Atoi(Itoa(max + k + 1))
    ensures Candidate(max, k) !in disk
  {
    AtoiItoa(max + k + 1);
    var c := Candidate(max, k);
    assert HasSuffix(c, ".todo");
    TaskFileStem(c);
    StemOfTaskFile(Itoa(max + k + 1), ".todo");
    assert TaskNumber(c) == max + k + 1;
  }

  /** A new task has no todo header, so its first write lists just the keys given. */
  lemma NoTodoToUndo(hdr: map<string, string>)
    ensures WriteKeys(map[], hdr) == SortedKeys(hdr.Keys)
  {
    assert Lookup(map[], "todo") == "";
    assert hdr.Keys + {} == hdr.Keys;
  }

  /**
   * The first write of a new task, into the empty file Create reserved:
   * when it succeeds, the header and body are the block's, and the file,
   * under its final name, holds the body.
   */
  lemma FirstWrite(reserved: map<string, string>, id: string, now: string, hdr: map<string, string>, comment: string,
                   io: Faults, file: string, disk: map<string, string>, hdr': map<string, string>, body: string)
    requires id + ".todo" in reserved && reserved[id + ".todo"] == "" && '.' in id + ".todo"
    requires (None, file, hdr', disk) == WriteEffect(reserved, id + ".todo", map[], hdr, now, comment, io)
    requires body == "" + Block(now, WriteKeys(map[], hdr), hdr, comment)
    ensures FirstBlock(hdr', body, now, hdr, comment)
    ensures file in disk && disk[file] == body && HasSuffix(file, ".done") == DoneStatus(hdr')
  {
    NoTodoToUndo(hdr);
    var f := id + ".todo";
    StemOfTaskFile(id, ".todo");
    assert HasSuffix(f, ".todo");
    assert "" + body == body;
    MovedMatchesDone(reserved[f := body], f, DoneStatus(hdr'), io);
  }

  /** The header and body of a task that `Create` has written. */
  predicate Created(t: Task, now: string, hdr: map<string, string>, comment: string)
    reads t
  {
    && FirstBlock(t.hdr, t.body, now, hdr, comment)
    && t.altIds == [] && t.ctime == "" && t.mtime == ""
  }

  /** A header and body made by writing one block, with every key of `hdr` in order, to an empty task. */
  predicate FirstBlock(hdr': map<string, string>, body: string, now: string, hdr: map<string, string>, comment: string) {
    var keys := SortedKeys(hdr.Keys);
    hdr' == ApplyKeys(map[], keys, hdr) && body == Block(now, keys, hdr, comment)
  }

  // ---------------------------------------------------------------------------
  // Listing and searching

  /** The IDs of the cached tasks on one side of the done line, in ascending order. */
  function ListedIds(cache: map<string, Task>, done: bool): (r: seq<string>)
    reads cache.Values
    ensures StrictlySorted(r)
    ensures forall id :: id in r <==> id in cache && DoneStatus(cache[id].hdr) == done
  {
    SortedKeys(set id | id in cache && DoneStatus(cache[id].hdr) == done)
  }

  /** What All (done false) and Done (done true) return: those tasks, in the order of their IDs. */
  function Listed(cache: map<string, Task>, done: bool): seq<Task>
    reads cache.Values
  {
    var ids := ListedIds(cache, done);
    seq(|ids|, j requires 0 <= j < |ids| => cache[ids[j]])
  }

  /** Every task All or Done lists is cached and on that side of the done line. */
  lemma ListedSound(cache: map<string, Task>, done: bool)
    ensures var r := Listed(cache, done);
      forall j :: 0 <= j < |r| ==> r[j] in cache.Values && DoneStatus(r[j].hdr) == done
  {
    var ids := ListedIds(cache, done);
    var r := Listed(cache, done);
    forall j | 0 <= j < |r| ensures r[j] in cache.Values && DoneStatus(r[j].hdr) == done {
      assert ids[j] in ids;
    }
  }

  /** Every cached task is listed by exactly one of All and Done. */
  lemma ListedComplete(cache: map<string, Task>, id: string)
    requires id in cache
    ensures cache[id] in Listed(cache, DoneStatus(cache[id].hdr))
    ensures cache[id] !in Listed(cache, !DoneStatus(cache[id].hdr))
  {
    var done := DoneStatus(cache[id].hdr);
    var ids := ListedIds(cache, done);
    var j :| 0 <= j < |ids| && ids[j] == id;
    assert Listed(cache, done)[j] == cache[id];
    ListedSound(cache, !done);
  }

  /** With every task cached under its own ID, All and Done are in strictly ascending order of ID. */
  lemma ListedSorted(cache: map<string, Task>, done: bool)
    requires forall id :: id in cache ==> cache[id].id == id
    ensures var r := Listed(cache, done);
      forall i, j :: 0 <= i < j < |r| ==> Less(r[i].id, r[j].id)
  {
    var ids := ListedIds(cache, done);
    var r := Listed(cache, done);
    forall i, j | 0 <= i < j < |r| ensures Less(r[i].id, r[j].id) {
      assert ids[i] in ids && ids[j] in ids;
      assert r[i].id == ids[i] && r[j].id == ids[j];
    }
  }

  /** The tasks of `ts` that the compiled query matches, in their order. */
  function Selected(c: Compiled, ts: seq<Task>): seq<Task>
    reads ts
  {
    if ts == [] then []
    else if Matches(c, ts[0]) then [ts[0]] + Selected(c, ts[1..])
    else Selected(c, ts[1..])
  }

  /** `ts` is, entry by entry, what All (done false) or Done (done true) lists over `cache`. */
  predicate ListedAs(ts: seq<Task>, cache: map<string, Task>, done: bool)
    reads cache.Values
  {
    var ids := ListedIds(cache, done);
    |ts| == |ids| && forall k :: 0 <= k < |ts| ==> ids[k] in cache && ts[k] == cache[ids[k]]
  }

  /** ListedAs says entry by entry what Listed says as one sequence. */
  lemma ListedAsListed(ts: seq<Task>, cache: map<string, Task>, done: bool)
    ensures ListedAs(ts, cache, done) <==> ts == Listed(cache, done)
  {
    if ListedAs(ts, cache, done) {
      assert ts == Listed(cache, done);
    }
  }

  /** Search keeps exactly the listed tasks that the query matches, and no more of them. */
  lemma {:induction false} SelectedMeaning(c: Compiled, ts: seq<Task>)
    ensures var r := Selected(c, ts);
      && |r| <= |ts|
      && (forall j :: 0 <= j < |r| ==> r[j] in ts && Matches(c, r[j]))
      && (forall j :: 0 <= j < |ts| && Matches(c, ts[j]) ==> ts[j] in r)
  {
    if ts != [] {
      SelectedMeaning(c, ts[1..]);
      assert forall j :: 1 <= j < |ts| ==> ts[j] == ts[1..][j - 1];
    }
  }

  /** Every task of `a` stays in `b` under its ID. */
  predicate Grows(a: map<string, Task>, b: map<string, Task>) {
    forall id :: id in a ==> id in b && b[id] == a[id]
  }

  /** All and Done's lists, and the done status of each cached task, stay as they were while no task changes. */
  twostate lemma ListingKept(cache: map<string, Task>)
    requires unchanged(cache.Values)
    ensures Listed(cache, false) == old(Listed(cache, false)) && Listed(cache, true) == old(Listed(cache, true))
    ensures forall t :: t in cache.Values ==> DoneStatus(t.hdr) == old(DoneStatus(t.hdr))
  {
  }

  /** Search's loop: the tasks of the lists that the query matches, in order. */
  method Pick(c: Compiled, ts: seq<Task>) returns (r: seq<Task>)
    ensures r == Selected(c, ts)
  {
    r := [];
    for i := 0 to |ts|
      invariant r == Selected(c, ts[..i])
    {
      SelectedTake(c, ts, i);
      if Matches(c, ts[i]) {
        r := r + [ts[i]];
      }
    }
    SelectedAll(c, ts);
  }

  /** Filtering all of a list: the loop's last step. */
  lemma SelectedAll(c: Compiled, ts: seq<Task>)
    ensures Selected(c, ts[..|ts|]) == Selected(c, ts)
  {
    assert ts[..|ts|] == ts;
  }

  /** Filtering two lists one after the other is filtering their concatenation. */
  lemma {:induction false} SelectedAppend(c: Compiled, a: seq<Task>, b: seq<Task>)
    ensures Selected(c, a + b) == Selected(c, a) + Selected(c, b)
  {
    if a != [] {
      assert (a + b)[1..] == a[1..] + b;
      SelectedAppend(c, a[1..], b);
    } else {
      assert a + b == b;
    }
  }

  /** Filtering one more task of a list appends it when it matches. */
  lemma SelectedTake(c: Compiled, ts: seq<Task>, i: nat)
    requires i < |ts|
    ensures Selected(c, ts[..i + 1]) == Selected(c, ts[..i]) + (if Matches(c, ts[i]) then [ts[i]] else [])
  {
    assert ts[..i + 1] == ts[..i] + [ts[i]];
    SelectedAppend(c, ts[..i], [ts[i]]);
    assert [ts[i]][1..] == [];
  }

  /** The task ID readAll takes from a file name with the given extension. */
  function TaskId(name: string, ext: string): string
    requires |ext| <= |name|
  {
    name[..|name| - |ext|]
  }

  /** A task the list knows: cached, or one of its files is in the directory. */
  predicate Known(cache: map<string, Task>, disk: map<string, string>, id: string) {
    id in cache || id + ".todo" in disk || id + ".done" in disk
  }

  /** A task file that `read` accepts in this directory: <id>.todo, else <id>.done, starting with "— ". */
  predicate ReadableIn(disk: map<string, string>, id: string) {
    if id + ".todo" in disk then HasPrefix(disk[id + ".todo"], EmSpace)
    else id + ".done" in disk && HasPrefix(disk[id + ".done"], EmSpace)
  }

  class List {
    const name: string
    var disk: map<string, string>
    var haveAll: bool
    var haveDone: bool
    var cacheMade: bool
    var cache: map<string, Task>

    /** OpenList: an empty cache, nothing read yet. */
    constructor (name: string, disk: map<string, string>)
      ensures this.name == name && this.disk == disk
      ensures !haveAll && !haveDone && !cacheMade && cache == map[]
      ensures Valid()
    {
      this.name := name;
      this.disk := disk;
      haveAll := false;
      haveDone := false;
      cacheMade := false;
      cache := map[];
    }

    /** Every cached task is filed under its own ID; the cache is empty until it is made. */
    predicate Valid()
      reads this`cache, this`cacheMade
    {
      && (forall id :: id in cache ==> cache[id].id == id)
      && (!cacheMade ==> cache == map[])
    }

    /** The file `read` takes a task from: <id>.todo, else <id>.done. */
    function Source(id: string): Option<string>
      reads this`disk
    {
      if id + ".todo" in disk then Some(id + ".todo")
      else if id + ".done" in disk then Some(id + ".done")
      else None
    }

    /** A task file that `read` accepts: it exists and starts with a marker's "— ". */
    predicate Readable(id: string)
      reads this`disk
    {
      ReadableIn(disk, id)
    }

    /**
     * A search read what it had to: unless the list was read in full before,
     * every readable .todo task is in the cache `mid` All left and, when the
     * query needed Done, every readable .done task is in the final cache.
     */
    ghost predicate Covers(needDone: bool, mid: map<string, Task>)
      reads this`disk, this`cache, this`haveAll, this`haveDone
    {
      && (!haveAll ==> forall id :: id + ".todo" in disk && ReadableIn(disk, id) ==> id in mid)
      && (needDone && !haveDone ==> forall id :: id + ".done" in disk && ReadableIn(disk, id) ==> id in cache)
    }

    /** Every cached task's file name has an extension, as the names `read` and `Create` give it do. */
    predicate Filed()
      reads this`cache, cache.Values`file
    {
      forall id :: id in cache ==> '.' in cache[id].file
    }

    /** Exists: the task is cached or one of its files is there. */
    predicate Exists(id: string)
      reads this`cache, this`disk
    {
      Known(cache, disk, id)
    }

    /**
     * read: a cached task is returned as it is; otherwise the task file is
     * parsed and the new task cached.  A file that cannot be parsed leaves
     * the cache as it was.
     */
    method Read(id: string) returns (r: Result<Task, Error>)
      requires Valid()
      modifies this`cache, this`cacheMade
      ensures Valid()
      ensures r.Ok? ==> old(Exists(id))
      ensures id in old(cache) ==> r == Ok(old(cache)[id]) && cache == old(cache) && cacheMade == old(cacheMade)
      ensures id !in old(cache) ==> cacheMade
      ensures id !in old(cache) && Source(id).None? ==> r == Err(NotFound(id + ".todo")) && cache == old(cache)
      ensures id !in old(cache) && Source(id).Some? && !Readable(id) ==> r == Err(Malformed) && cache == old(cache)
      ensures id !in old(cache) && Readable(id) ==>
        && r.Ok? && fresh(r.value) && cache == old(cache)[id := r.value]
        && Loaded(r.value, id, Source(id).value, disk[Source(id).value])
    {
      if id in cache {
        return Ok(cache[id]);
      }
      if !cacheMade {
        cacheMade := true;
        cache := map[];
      }
      var file := id + ".todo";
      if file !in disk {
        file := id + ".done";
        if file !in disk {
          return Err(NotFound(id + ".todo"));
        }
      }
      assert Source(id) == Some(file);
      r := Load(id, file);
    }

    /** The rest of `read` once a file is found: check the first marker, parse, cache. */
    method Load(id: string, file: string) returns (r: Result<Task, Error>)
      requires Valid() && cacheMade && file in disk
      modifies this`cache
      ensures Valid()
      ensures !HasPrefix(disk[file], EmSpace) ==> r == Err(Malformed) && cache == old(cache)
      ensures HasPrefix(disk[file], EmSpace) ==>
        && r.Ok? && fresh(r.value) && cache == old(cache)[id := r.value]
        && Loaded(r.value, id, file, disk[file])
    {
      var d := disk[file];
      if !HasPrefix(d, EmSpace) {
        return Err(Malformed);
      }
      var t := new Task(file, id, map[], d, [], "", "");
      var isDone := HasSuffix(file, ".done");
      if isDone {
        t.hdr := t.hdr["done" := "done"];
      }
      ParseLines(t, Split(d, '\n'), Seed(isDone));
      cache := cache[id := t];
      return Ok(t);
    }

    /** The task's file holds its body, and reading that afresh gives the task's header and alternate IDs. */
    predicate InSync(t: Task)
      reads this`disk, t
    {
      t.file in disk && disk[t.file] == t.body && Synced(t.file, t.body, t.hdr, t.altIds)
    }

    /**
     * write: append one block to the task's file, then update the task in
     * memory, then move the file between .todo and .done if the done status
     * changed.  A failure to open, write or close leaves the task as it was;
     * a failure to rename leaves the updated task under its old file name.
     */
    method Write(t: Task, now: string, hdr: map<string, string>, comment: string, io: Faults) returns (err: Option<Error>)
      requires '.' in t.file
      modifies this`disk, t`hdr, t`body, t`file
      ensures (err, t.file, t.hdr, disk) == WriteEffect(old(disk), old(t.file), old(t.hdr), hdr, now, comment, io)
      ensures t.body == if Appended(old(disk), old(t.file), io) then old(t.body) + Block(now, WriteKeys(old(t.hdr), hdr), hdr, comment)
                        else old(t.body)
      ensures old(InSync(t)) && BlockArgs(now, WriteKeys(old(t.hdr), hdr), hdr, comment) && err == None && t.file == old(t.file)
        ==> InSync(t)
      ensures && old(InSync(t)) && BlockArgs(now, WriteKeys(old(t.hdr), hdr), hdr, comment) && err == None
              && (HasSuffix(old(t.file), ".todo") || HasSuffix(old(t.file), ".done"))
        ==> t.file in disk && disk[t.file] == t.body && Synced(old(t.file), t.body, t.hdr, t.altIds)
      ensures err.Some? ==> t.file == old(t.file) && disk - {old(t.file)} == old(disk) - {old(t.file)}
      ensures '.' in t.file
    {
      ghost var d, f, cur, body := disk, t.file, t.hdr, t.body;
      ghost var synced := InSync(t);
      var keys := KeysToWrite(t, hdr);
      var buf := FormatBlock(now, keys, hdr, comment);
      err := Commit(t, keys, hdr, buf, io);
      if synced && BlockArgs(now, keys, hdr, comment) {
        WriteKeepsSync(d, f, body, cur, t.altIds, now, hdr, comment, io);
      }
    }

    /** The effects of `write` once the block is formatted: append it, update the task, rename. */
    method Commit(t: Task, keys: seq<string>, hdr: map<string, string>, buf: string, io: Faults) returns (err: Option<Error>)
      requires '.' in t.file
      modifies this`disk, t`hdr, t`body, t`file
      ensures (err, t.file, t.hdr, disk) == Effect(old(disk), old(t.file), old(t.hdr), keys, hdr, buf, io)
      ensures t.body == if Appended(old(disk), old(t.file), io) then old(t.body) + buf else old(t.body)
      ensures err.Some? ==> t.file == old(t.file) && disk - {old(t.file)} == old(disk) - {old(t.file)}
      ensures '.' in t.file
    {
      var f := t.file;
      err := Append(f, buf, io);
      if err.Some? {
        return;
      }
      UpdateHeader(t, keys, hdr);
      t.body := t.body + buf;
      MovedKeepsName(disk, f, DoneStatus(t.hdr), io);
      err := Rename(t, io);
    }

    /** Open the file for append, write the block, close it. */
    method Append(f: string, buf: string, io: Faults) returns (err: Option<Error>)
      modifies this`disk
      ensures f !in old(disk) || io.openFails ==> err == Some(OpenFailed(f)) && disk == old(disk)
      ensures disk - {f} == old(disk) - {f}
      ensures f in old(disk) && !io.openFails ==>
        && disk == old(disk)[f := old(disk)[f] + Sent(buf, io)]
        && err == (if io.writeFails then Some(WriteFailed(f)) else if io.closeFails then Some(CloseFailed(f)) else None)
    {
      if f !in disk || io.openFails {
        return Some(OpenFailed(f));
      }
      disk := disk[f := disk[f] + Sent(buf, io)];
      if io.writeFails {
        return Some(WriteFailed(f));
      }
      if io.closeFails {
        return Some(CloseFailed(f));
      }
      return None;
    }

    /** The last step of `write`: a task whose done status no longer matches its file's extension is moved. */
    method Rename(t: Task, io: Faults) returns (err: Option<Error>)
      requires '.' in t.file
      modifies this`disk, t`file
      ensures (err, t.file, disk) == Moved(old(disk), old(t.file), DoneStatus(t.hdr), io)
      ensures err.Some? ==> t.file == old(t.file) && disk == old(disk)
      ensures '.' in t.file
    {
      err := None;
      DoneIff(t);
      if t.Done() != HasSuffix(t.file, ".done") {
        var base := t.file[..LastIndexChar(t.file, '.')];
        var src, dst := base + ".done", base + ".todo";
        if t.Done() {
          src, dst := base + ".todo", base + ".done";
        }
        if src !in disk || io.renameFails {
          return Some(RenameFailed(src, dst));
        }
        disk := (disk - {src})[dst := disk[src]];
        assert dst[|base|] == '.';
        t.file := dst;
      }
    }

    /** The first loop of Create: the largest task number among the files, or 0. */
    method MaxTaskNumber() returns (max: nat)
      ensures forall name :: name in disk ==> TaskNumber(name) <= max
      ensures max == 0 || exists name :: name in disk && TaskNumber(name) == max
    {
      max := 0;
      var names := disk.Keys;
      while names != {}
        invariant names <= disk.Keys
        invariant forall name :: name in disk && name !in names ==> TaskNumber(name) <= max
        invariant max == 0 || exists name :: name in disk && TaskNumber(name) == max
        decreases names
      {
        var name :| name in names;
        if HasSuffix(name, ".todo") || HasSuffix(name, ".done") {
          TaskFileStem(name);
          var n := Atoi(Stem(name));
          if max < n {
            max := n;
          }
        }
        names := names - {name};
      }
    }

    /**
     * The second loop of Create: exclusive-create the first free file among
     * three successive numbers after `max`.
     */
    method Allocate(max: nat, io: Faults) returns (r: Result<string, Error>)
      modifies this`disk
      ensures r.Err? ==> disk == old(disk) && r == Err(CreateFailed(Candidate(max, 2)))
      ensures r.Err? <==> forall k :: 0 <= k < 3 ==> Candidate(max, k) in old(disk) || k in io.createFails
      ensures r.Ok? ==>
        && (exists k :: 0 <= k < 3 && r.value == Numbered(max, k) && k !in io.createFails
             && forall j :: 0 <= j < k ==> Candidate(max, j) in old(disk) || j in io.createFails)
        && r.value + ".todo" !in old(disk) && disk == old(disk)[r.value + ".todo" := ""]
    {
      var try := 0;
      while true
        invariant 0 <= try <= 2
        invariant forall j :: 0 <= j < try ==> Candidate(max, j) in disk || j in io.createFails
        invariant disk == old(disk)
        decreases 2 - try
      {
        var id := Itoa(max + try + 1);
        var file := id + ".todo";
        if file in disk || try in io.createFails {
          if try >= 2 {
            return Err(CreateFailed(file));
          }
          try := try + 1;
          continue;
        }
        disk := disk[file := ""];
        assert id == Numbered(max, try) && file == Candidate(max, try);
        return Ok(id);
      }
    }

    /**
     * Create: a new task file under an explicit ID or the next free number,
     * with one block written to it.  A failed first write removes the file
     * but leaves the task in the cache.
     */
    method Create(id: string, now: string, hdr: map<string, string>, comment: string, io: Faults) returns (r: Result<Task, Error>)
      requires Valid() && cacheMade
      modifies this`disk, this`cache
      ensures Valid()
      ensures r.Err? ==> disk == old(disk)
      ensures id != "" && !ValidName(id) ==> r == Err(InvalidName(id)) && cache == old(cache)
      ensures id != "" && ValidName(id) && id in old(cache) ==> r == Err(AlreadyExists(id)) && cache == old(cache)
      ensures id != "" && ValidName(id) && id !in old(cache) && (id + ".todo" in old(disk) || 0 in io.createFails) ==>
        r == Err(CreateFailed(id + ".todo")) && cache == old(cache)
      ensures id == "" ==> ((r.Err? && r.error.CreateFailed?) <==> {0, 1, 2} <= io.createFails)
      ensures id == "" && {0, 1, 2} <= io.createFails ==> cache == old(cache)
      ensures id != "" && ValidName(id) && id !in old(cache) && id + ".todo" !in old(disk) && 0 !in io.createFails ==>
        id in cache && (r.Err? ==> id + ".todo" !in disk)
      ensures r.Ok? ==>
        && fresh(r.value) && cache == old(cache)[r.value.id := r.value]
        && r.value.id + ".todo" !in old(disk) && ValidName(r.value.id)
        && (id != "" ==> r.value.id == id)
        && (id == "" ==> forall name :: name in old(disk) ==> TaskNumber(name) < Atoi(r.value.id))
        && Created(r.value, now, hdr, comment)
        && r.value.file in disk && disk[r.value.file] == r.value.body
        && HasSuffix(r.value.file, ".done") == DoneStatus(r.value.hdr)
    {
      var reserved := Reserve(id, io);
      if reserved.Err? {
        return Err(reserved.error);
      }
      r := Start(reserved.value, now, hdr, comment, io);
      assert r.Err? ==> disk == old(disk)[reserved.value + ".todo" := ""] - {reserved.value + ".todo"};
    }

    /**
     * The first half of Create: choose the ID (checking an explicit one, or
     * numbering past every task file) and create its empty .todo file.
     */
    method Reserve(id: string, io: Faults) returns (r: Result<string, Error>)
      modifies this`disk
      ensures r.Err? ==> disk == old(disk)
      ensures id != "" && !ValidName(id) ==> r == Err(InvalidName(id))
      ensures id != "" && ValidName(id) && id in cache ==> r == Err(AlreadyExists(id))
      ensures id != "" && ValidName(id) && id !in cache && (id + ".todo" in old(disk) || 0 in io.createFails) ==>
        r == Err(CreateFailed(id + ".todo"))
      ensures id == "" ==> (r.Err? <==> {0, 1, 2} <= io.createFails)
      ensures id == "" && r.Err? ==> r.error.CreateFailed?
      ensures id != "" && ValidName(id) && id !in cache && id + ".todo" !in old(disk) && 0 !in io.createFails ==> r.Ok?
      ensures r.Ok? ==>
        && r.value + ".todo" !in old(disk) && ValidName(r.value)
        && disk == old(disk)[r.value + ".todo" := ""]
        && (id != "" ==> r.value == id)
        && (id == "" ==> forall name :: name in old(disk) ==> TaskNumber(name) < Atoi(r.value))
    {
      var newId := id;
      if id == "" {
        var max := MaxTaskNumber();
        var a := Allocate(max, io);
        if a.Err? {
          CandidateIsNew(disk, max, 0);
          CandidateIsNew(disk, max, 1);
          CandidateIsNew(disk, max, 2);
          assert 0 in io.createFails && 1 in io.createFails && 2 in io.createFails;
          return Err(a.error);
        }
        newId := a.value;
        var k :| 0 <= k < 3 && newId == Numbered(max, k) && k !in io.createFails;
        CandidateIsNew(old(disk), max, k);
        NumbersAreNames(max + k + 1);
      } else {
        var ok := CheckName(id);
        if !ok {
          return Err(InvalidName(id));
        }
        if id in cache {
          return Err(AlreadyExists(id));
        }
        var file := id + ".todo";
        if file in disk || 0 in io.createFails {
          return Err(CreateFailed(file));
        }
        disk := disk[file := ""];
      }
      return Ok(newId);
    }

    /** The end of Create: cache the new task and write its first block, removing the file if that fails. */
    method Start(id: string, now: string, hdr: map<string, string>, comment: string, io: Faults) returns (r: Result<Task, Error>)
      requires Valid() && cacheMade && id + ".todo" in disk && disk[id + ".todo"] == ""
      modifies this`disk, this`cache
      ensures Valid()
      ensures r.Err? ==> disk == old(disk) - {id + ".todo"} && !r.error.CreateFailed?
      ensures id in cache && cache == old(cache)[id := cache[id]] && fresh(cache[id])
      ensures r.Ok? ==>
        && fresh(r.value) && r.value.id == id && cache == old(cache)[id := r.value]
        && Created(r.value, now, hdr, comment)
        && r.value.file in disk && disk[r.value.file] == r.value.body
        && HasSuffix(r.value.file, ".done") == DoneStatus(r.value.hdr)
    {
      var t := new Task(id + ".todo", id, map[], "", [], "", "");
      cache := cache[id := t];
      var err := WriteFirst(t, now, hdr, comment, io);
      if err.Some? {
        return Err(err.value);
      }
      return Ok(t);
    }

    /** Create's first write to the file it reserved for a new task; on failure the file is removed. */
    method WriteFirst(t: Task, now: string, hdr: map<string, string>, comment: string, io: Faults) returns (err: Option<Error>)
      requires t.file == t.id + ".todo" && t.file in disk && disk[t.file] == ""
      requires t.hdr == map[] && t.body == ""
      modifies this`disk, t`hdr, t`body, t`file
      ensures err.Some? ==> disk == old(disk) - {old(t.file)} && !err.value.CreateFailed?
      ensures err.None? ==>
        && FirstBlock(t.hdr, t.body, now, hdr, comment)
        && t.file in disk && disk[t.file] == t.body
        && HasSuffix(t.file, ".done") == DoneStatus(t.hdr)
    {
      var file := t.file;
      StemOfTaskFile(t.id, ".todo");
      ghost var reserved := disk;
      err := Write(t, now, hdr, comment, io);
      if err.Some? {
        WriteErrors(reserved, file, map[], hdr, now, comment, io);
        disk := disk - {file};
        return;
      }
      FirstWrite(reserved, t.id, now, hdr, comment, io, t.file, disk, t.hdr, t.body);
    }

    /**
     * readAll: read the task of every file with the given extension, in
     * name order, skipping those that fail.  The cache only grows, only by
     * readable tasks, and afterwards holds every readable task with such a file.
     */
    method ReadAll(ext: string) returns (tasks: seq<Task>)
      requires Valid() && (ext == ".todo" || ext == ".done")
      modifies this`cache, this`cacheMade
      ensures Valid()
      ensures forall id :: id in old(cache) ==> id in cache && cache[id] == old(cache)[id]
      ensures forall id :: id in cache && id !in old(cache) ==> Readable(id)
      ensures forall id :: id + ext in disk && Readable(id) ==> id in cache
      ensures forall t :: t in tasks ==> t.id in cache && cache[t.id] == t
    {
      var names := SortedKeys(set name | name in disk && HasSuffix(name, ext));
      assert ext[0] == '.' && '.' !in ext[1..];
      forall j | 0 <= j < |names| ensures HasSuffix(names[j], ext) {
        assert names[j] in names;
      }
      tasks := ReadNames(names, ext);
      forall id | id + ext in disk && Readable(id) ensures id in cache {
        assert id + ext in names;
        var j :| 0 <= j < |names| && names[j] == id + ext;
        assert TaskId(names[j], ext) == id;
      }
    }

    /** The loop of readAll over the matching file names. */
    method ReadNames(names: seq<string>, ext: string) returns (tasks: seq<Task>)
      requires Valid() && |ext| > 0 && ext[0] == '.' && '.' !in ext[1..]
      requires forall j :: 0 <= j < |names| ==> HasSuffix(names[j], ext)
      modifies this`cache, this`cacheMade
      ensures Valid()
      ensures forall id :: id in old(cache) ==> id in cache && cache[id] == old(cache)[id]
      ensures forall id :: id in cache && id !in old(cache) ==> Readable(id)
      ensures forall j :: 0 <= j < |names| ==> |ext| <= |names[j]| && (Readable(TaskId(names[j], ext)) ==> TaskId(names[j], ext) in cache)
      ensures forall t :: t in tasks ==> t.id in cache && cache[t.id] == t
    {
      tasks := [];
      ghost var d := disk;
      for i := 0 to |names|
        invariant Valid()
        invariant forall id :: id in old(cache) ==> id in cache && cache[id] == old(cache)[id]
        invariant forall id :: id in cache && id !in old(cache) ==> Readable(id)
        invariant forall j :: 0 <= j < i ==> ReadableIn(d, TaskId(names[j], ext)) ==> TaskId(names[j], ext) in cache
        invariant forall t :: t in tasks ==> t.id in cache && cache[t.id] == t
      {
        var name := names[i];
        var id := TaskId(name, ext);
        assert name == id + name[|name| - |ext|..];
        StemOfTaskFile(id, ext);
        var r := Read(Stem(name));
        if r.Ok? {
          tasks := tasks + [r.value];
        }
      }
    }

    /** The loop of All and Done: the cached tasks on one side of the done line, sorted by ID. */
    method Collect(done: bool) returns (list: seq<Task>)
      ensures list == Listed(cache, done)
    {
      var c := cache;
      var ids: set<string> := {};
      var rest := c.Keys;
      while rest != {}
        invariant rest <= c.Keys
        invariant forall id :: id in ids <==> id in c && id !in rest && DoneStatus(c[id].hdr) == done
        decreases rest
      {
        var id :| id in rest;
        var t := c[id];
        DoneIff(t);
        if t.Done() == done {
          ids := ids + {id};
        }
        rest := rest - {id};
      }
      var sorted := SortedKeys(ids);
      SortedUnique(sorted, ListedIds(c, done));
      list := seq(|sorted|, j requires 0 <= j < |sorted| => c[sorted[j]]);
    }

    /** All: read every .todo file unless already done, then list the tasks that are not done. */
    method All() returns (list: seq<Task>)
      requires Valid()
      modifies this`cache, this`cacheMade
      ensures Valid()
      ensures list == Listed(cache, false)
      ensures forall id :: id in old(cache) ==> id in cache && cache[id] == old(cache)[id]
      ensures forall id :: id in cache && id !in old(cache) ==> Readable(id)
      ensures !haveAll ==> forall id :: id + ".todo" in disk && Readable(id) ==> id in cache
    {
      if !haveAll {
        var read := ReadAll(".todo");
      }
      list := Collect(false);
    }

    /** Done: read every .done file unless already done, then list the tasks that are done. */
    method Done() returns (list: seq<Task>)
      requires Valid()
      modifies this`cache, this`cacheMade
      ensures Valid()
      ensures list == Listed(cache, true)
      ensures forall id :: id in old(cache) ==> id in cache && cache[id] == old(cache)[id]
      ensures forall id :: id in cache && id !in old(cache) ==> Readable(id)
      ensures !haveDone ==> forall id :: id + ".done" in disk && Readable(id) ==> id in cache
    {
      if !haveDone {
        var read := ReadAll(".done");
      }
      list := Collect(true);
    }

    /**
     * Search: the tasks the query matches among those All lists and, when the
     * query asks about done or muted tasks, then among those Done lists.
     * `mid` is the cache between the two calls.
     */
    method Search(q: string, today: string)
      returns (tasks: seq<Task>, ghost all: seq<Task>, ghost done: seq<Task>, ghost mid: map<string, Task>)
      requires Valid()
      modifies this`cache, this`cacheMade
      ensures Valid()
      ensures tasks == Selected(Compile(q, today), all + done)
      ensures all == Listed(mid, false)
      ensures done == if Compile(q, today).needDone then Listed(cache, true) else []
      ensures Grows(old(cache), mid) && Grows(mid, cache)
      ensures forall id :: id in cache && id !in old(cache) ==> Readable(id)
      ensures Covers(Compile(q, today).needDone, mid)
    {
      var c := ParseQuery(q, today);
      var a, d;
      a, d, mid := Candidates(c.needDone);
      all, done := a, d;
      ghost var listed := cache;
      label Listed:
      tasks := Pick(c, a + d);
      ListingKept@Listed(listed);
      ListingKept@Listed(mid);
    }

    /** The two lists Search filters: All, and then Done when the query needs it. */
    method Candidates(needDone: bool) returns (all: seq<Task>, done: seq<Task>, ghost mid: map<string, Task>)
      requires Valid()
      modifies this`cache, this`cacheMade
      ensures Valid()
      ensures all == Listed(mid, false)
      ensures done == if needDone then Listed(cache, true) else []
      ensures Grows(old(cache), mid) && Grows(mid, cache)
      ensures forall id :: id in cache && id !in old(cache) ==> Readable(id)
      ensures Covers(needDone, mid)
    {
      all := All();
      mid := cache;
      done := [];
      if needDone {
        done := ThenDone(mid, old(cache));
      }
    }

    /** The second half of Candidates: Done, leaving every list taken before it as it was. */
    method ThenDone(ghost mid: map<string, Task>, ghost start: map<string, Task>) returns (done: seq<Task>)
      requires Valid() && mid == cache
      requires forall id :: id in cache && id !in start ==> Readable(id)
      modifies this`cache, this`cacheMade
      ensures Valid()
      ensures done == Listed(cache, true)
      ensures Listed(mid, false) == old(Listed(mid, false))
      ensures Grows(mid, cache)
      ensures forall id :: id in cache && id !in start ==> Readable(id)
      ensures !haveDone ==> forall id :: id + ".done" in disk && Readable(id) ==> id in cache
    {
      label Mid:
      done := Done();
      ListingKept@Mid(mid);
    }
  }
}
