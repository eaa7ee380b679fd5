/**
 * The todo command's own logic (main.go): the orders it sorts tasks in, the
 * listing it prints for a query, and the rule that marks tasks done.
 */
module Command {
  import opened Wrappers
  import opened Text
  import opened Order
  import opened Record
  import opened Query
  import opened Tasks
  import opened Store

  // ---------------------------------------------------------------------------
  // tasksByTitle and tasksByHeader

  /** The shape of both Less methods: by a key's value, then by ID. */
  predicate KeyLess(kx: string, ix: string, ky: string, iy: string) {
    if kx != ky then Less(kx, ky) else Less(ix, iy)
  }

  lemma KeyLessIrreflexive(k: string, i: string)
    ensures !KeyLess(k, i, k, i)
  {
    LessIrreflexive(i);
  }

  lemma KeyLessAsymmetric(kx: string, ix: string, ky: string, iy: string)
    requires KeyLess(kx, ix, ky, iy)
    ensures !KeyLess(ky, iy, kx, ix)
  {
    if kx != ky {
      LessAsymmetric(kx, ky);
    } else {
      LessAsymmetric(ix, iy);
    }
  }

  lemma KeyLessTransitive(ka: string, ia: string, kb: string, ib: string, kc: string, ic: string)
    requires KeyLess(ka, ia, kb, ib) && KeyLess(kb, ib, kc, ic)
    ensures KeyLess(ka, ia, kc, ic)
  {
    if ka != kb && kb != kc {
      LessTransitive(ka, kb, kc);
      LessIrreflexive(ka);
    } else if ka == kb && kb == kc {
      LessTransitive(ia, ib, ic);
    }
  }

  /** Two tasks with different IDs are always ordered one way or the other. */
  lemma KeyLessTotal(kx: string, ix: string, ky: string, iy: string)
    requires ix != iy
    ensures KeyLess(kx, ix, ky, iy) || KeyLess(ky, iy, kx, ix)
  {
    if kx != ky {
      LessTotal(kx, ky);
    } else {
      LessTotal(ix, iy);
    }
  }

  /** "Not after" chains: what the sort keeps between neighbours holds across the whole run. */
  lemma KeyNotAfterTransitive(ka: string, ia: string, kb: string, ib: string, kc: string, ic: string)
    requires !KeyLess(kb, ib, ka, ia) && !KeyLess(kc, ic, kb, ib)
    ensures !KeyLess(kc, ic, ka, ia)
  {
    if KeyLess(kc, ic, ka, ia) && (ka != kb || ia != ib) {
      if ka != kb {
        LessTotal(ka, kb);
      } else {
        LessTotal(ia, ib);
      }
      KeyLessTransitive(kc, ic, ka, ia, kb, ib);
    }
  }

  /** tasksByTitle.Less. */
  predicate TitleLess(x: Task, y: Task)
    reads x, y
  {
    KeyLess(x.Title(), x.id, y.Title(), y.id)
  }

  /** tasksByHeader.Less, for its key. */
  predicate HeaderLess(key: string, x: Task, y: Task)
    reads x, y
  {
    KeyLess(x.Header(key), x.id, y.Header(key), y.id)
  }

  /** Sorting by title is sorting by the "title" header. */
  lemma TitleLessIsHeaderLess(x: Task, y: Task)
    ensures TitleLess(x, y) <==> HeaderLess("title", x, y)
  {
    assert ToLower("title") == "title";
  }

  /** The reserved key "id" orders by ID alone. */
  lemma HeaderLessById(x: Task, y: Task)
    ensures HeaderLess("id", x, y) <==> Less(x.id, y.id)
  {
  }

  /** tasksByTitle is a strict order, total on tasks with different IDs. */
  lemma TitleLessIsStrictOrder(x: Task, y: Task, z: Task)
    ensures !TitleLess(x, x)
    ensures TitleLess(x, y) ==> !TitleLess(y, x)
    ensures TitleLess(x, y) && TitleLess(y, z) ==> TitleLess(x, z)
    ensures x.id != y.id ==> TitleLess(x, y) || TitleLess(y, x)
  {
    KeyLessIrreflexive(x.Title(), x.id);
    if TitleLess(x, y) {
      KeyLessAsymmetric(x.Title(), x.id, y.Title(), y.id);
      if TitleLess(y, z) {
        KeyLessTransitive(x.Title(), x.id, y.Title(), y.id, z.Title(), z.id);
      }
    }
    if x.id != y.id {
      KeyLessTotal(x.Title(), x.id, y.Title(), y.id);
    }
  }

  /** tasksByHeader is a strict order, total on tasks with different IDs. */
  lemma HeaderLessIsStrictOrder(key: string, x: Task, y: Task, z: Task)
    ensures !HeaderLess(key, x, x)
    ensures HeaderLess(key, x, y) ==> !HeaderLess(key, y, x)
    ensures HeaderLess(key, x, y) && HeaderLess(key, y, z) ==> HeaderLess(key, x, z)
    ensures x.id != y.id ==> HeaderLess(key, x, y) || HeaderLess(key, y, x)
  {
    KeyLessIrreflexive(x.Header(key), x.id);
    if HeaderLess(key, x, y) {
      KeyLessAsymmetric(x.Header(key), x.id, y.Header(key), y.id);
      if HeaderLess(key, y, z) {
        KeyLessTransitive(x.Header(key), x.id, y.Header(key), y.id, z.Header(key), z.id);
      }
    }
    if x.id != y.id {
      KeyLessTotal(x.Header(key), x.id, y.Header(key), y.id);
    }
  }

  /** x may stand before y in title order. */
  predicate NotAfter(x: Task, y: Task)
    reads x, y
  {
    !TitleLess(y, x)
  }

  /** The first n tasks are in title order. */
  predicate SortedUpTo(s: seq<Task>, n: int)
    reads s
  {
    forall p, q :: 0 <= p < q < n && q < |s| ==> NotAfter(s[p], s[q])
  }

  /** In title order: no task comes after one that should follow it. */
  predicate TitleSorted(s: seq<Task>)
    reads s
  {
    SortedUpTo(s, |s|)
  }

  /**
   * Half-way through moving the task now at j down: the first i+1 tasks are
   * in order apart from it, and it may stand before every task after it.
   */
  predicate Sinking(s: seq<Task>, i: int, j: int)
    reads s
  {
    && 0 <= j <= i < |s|
    && (forall p, q :: 0 <= p < q <= i && p != j && q != j ==> NotAfter(s[p], s[q]))
    && (forall q :: j < q <= i ==> NotAfter(s[j], s[q]))
  }

  /** Swapping the moving task with a predecessor that should follow it keeps the pass going. */
  lemma SinkStep(s: seq<Task>, i: int, j: int)
    requires Sinking(s, i, j) && j > 0 && TitleLess(s[j], s[j - 1])
    ensures Sinking(s[j - 1 := s[j]][j := s[j - 1]], i, j - 1)
  {
    TitleLessIsStrictOrder(s[j], s[j - 1], s[j]);
  }

  /** The pass ends in order once the moving task has no predecessor that should follow it. */
  lemma SinkDone(s: seq<Task>, i: int, j: int)
    requires Sinking(s, i, j) && (j == 0 || !TitleLess(s[j], s[j - 1]))
    ensures SortedUpTo(s, i + 1)
  {
    forall p, q | 0 <= p < q < i + 1
      ensures NotAfter(s[p], s[q])
    {
      if q == j && p < j - 1 {
        var x, y, z := s[p], s[j - 1], s[j];
        assert NotAfter(x, y) && NotAfter(y, z);
        KeyNotAfterTransitive(x.Title(), x.id, y.Title(), y.id, z.Title(), z.id);
      }
    }
  }

  /** Swap: the tasks at i and j trade places. */
  method Swap(a: array<Task>, i: int, j: int)
    requires 0 <= i < a.Length && 0 <= j < a.Length
    modifies a
    ensures a[..] == old(a[..])[i := old(a[j])][j := old(a[i])]
    ensures multiset(a[..]) == multiset(old(a[..]))
  {
    a[i], a[j] := a[j], a[i];
  }

  /**
   * sort.Sort(tasksByTitle(all)): the tasks rearranged by Swap alone into
   * title order.
   */
  method SortByTitle(a: array<Task>)
    modifies a
    ensures TitleSorted(a[..])
    ensures multiset(a[..]) == multiset(old(a[..]))
  {
    var i := 0;
    while i < a.Length
      invariant 0 <= i <= a.Length
      invariant SortedUpTo(a[..], i)
      invariant multiset(a[..]) == multiset(old(a[..]))
    {
      SinkByTitle(a, i);
      i := i + 1;
    }
  }

  /** One pass of the sort: the task at i moves down past every task that should follow it. */
  method SinkByTitle(a: array<Task>, i: int)
    requires 0 <= i < a.Length && SortedUpTo(a[..], i)
    modifies a
    ensures SortedUpTo(a[..], i + 1)
    ensures multiset(a[..]) == multiset(old(a[..]))
  {
    var j := i;
    while j > 0 && TitleLess(a[j], a[j - 1])
      invariant Sinking(a[..], i, j)
      invariant multiset(a[..]) == multiset(old(a[..]))
    {
      SinkOnce(a, i, j);
      j := j - 1;
    }
    SinkDone(a[..], i, j);
  }

  /** One swap of that pass: the moving task trades places with the predecessor that should follow it. */
  method SinkOnce(a: array<Task>, i: int, j: int)
    requires Sinking(a[..], i, j) && j > 0 && TitleLess(a[j], a[j - 1])
    modifies a
    ensures Sinking(a[..], i, j - 1)
    ensures multiset(a[..]) == multiset(old(a[..]))
  {
    ghost var s := a[..];
    SinkStep(s, i, j);
    Swap(a, j - 1, j);
    assert a[..] == s[j - 1 := s[j]][j := s[j - 1]];
  }

  // ---------------------------------------------------------------------------
  // showQuery

  /** The line showQuery prints for a task. */
  function QueryLine(t: Task): string
    reads t
  {
    t.id + "\t" + t.Title()
  }

  /** Everything showQuery prints: one line per task, each ended by a newline. */
  function QueryText(ts: seq<Task>): string
    reads ts
  {
    if ts == [] then [] else QueryLine(ts[0]) + "\n" + QueryText(ts[1..])
  }

  /** The lines a list window holds for the tasks. */
  function WindowLines(ts: seq<Task>): (r: seq<string>)
    reads ts
    ensures |r| == |ts|
  {
    if ts == [] then [] else [QueryLine(ts[0])] + WindowLines(ts[1..])
  }

  predicate SingleLine(t: Task)
    reads t
  {
    '\n' !in t.id && '\n' !in t.Title()
  }

  /** Splitting the output at newlines gives back one line per task (and the empty tail). */
  lemma {:induction false} QueryTextLines(ts: seq<Task>)
    requires forall i :: 0 <= i < |ts| ==> SingleLine(ts[i])
    ensures Split(QueryText(ts), '\n') == WindowLines(ts) + [[]]
  {
    if ts == [] {
      SplitNoSep([], '\n');
    } else {
      var line := QueryLine(ts[0]);
      assert SingleLine(ts[0]);
      SplitCons(line, QueryText(ts[1..]), '\n');
      QueryTextLines(ts[1..]);
    }
  }

  /** Sort the search results by title and print them. */
  method Listing(found: seq<Task>) returns (out: string, shown: seq<Task>)
    ensures multiset(shown) == multiset(found)
    ensures TitleSorted(shown)
    ensures out == QueryText(shown)
  {
    var a := new Task[|found|](i requires 0 <= i < |found| => found[i]);
    assert a[..] == found;
    SortByTitle(a);
    shown := a[..];
    out := Print(a[..]);
  }

  /** The printing loop of showQuery: one line per task, in the order given. */
  method Print(ts: seq<Task>) returns (out: string)
    ensures out == QueryText(ts)
  {
    out := [];
    var j := 0;
    while j < |ts|
      invariant 0 <= j <= |ts|
      invariant out + QueryText(ts[j..]) == QueryText(ts)
    {
      var line := QueryLine(ts[j]) + "\n";
      assert QueryText(ts[j..]) == line + QueryText(ts[j + 1..]) by {
        assert ts[j..][1..] == ts[j + 1..];
      }
      AppendAssoc(out, line, QueryText(ts[j + 1..]));
      out := out + line;
      j := j + 1;
    }
  }

  /**
   * showQuery: the tasks Search finds (the matches among All's list, then
   * among Done's when the query needs it; `mid` is the cache between the two),
   * one "id\ttitle" line each, in title order.
   */
  method ShowQuery(l: List, q: string, today: string)
    returns (out: string, found: seq<Task>, shown: seq<Task>,
             ghost all: seq<Task>, ghost done: seq<Task>, ghost mid: map<string, Task>)
    requires l.Valid()
    modifies l`cache, l`cacheMade
    ensures l.Valid() && l.Covers(Compile(q, today).needDone, mid)
    ensures found == Selected(Compile(q, today), all + done) && ListedAs(all, mid, false)
    ensures Compile(q, today).needDone ==> ListedAs(done, l.cache, true)
    ensures !Compile(q, today).needDone ==> done == []
    ensures Grows(old(l.cache), mid) && Grows(mid, l.cache)
    ensures multiset(shown) == multiset(found) && TitleSorted(shown)
    ensures out == QueryText(shown)
  {
    found, all, done, mid := l.Search(q, today);
    ListedAsListed(all, mid, false);
    ListedAsListed(done, l.cache, true);
    out, shown := ListFound(Compile(q, today), found, l.cache, all, done, mid);
  }

  /** Listing after a search: sorting and printing leave the list and what the search found as they were. */
  method ListFound(ghost c: Compiled, found: seq<Task>, ghost cache: map<string, Task>,
                   ghost all: seq<Task>, ghost done: seq<Task>, ghost mid: map<string, Task>)
    returns (out: string, shown: seq<Task>)
    requires found == Selected(c, all + done) && ListedAs(all, mid, false)
    requires c.needDone ==> ListedAs(done, cache, true)
    ensures found == Selected(c, all + done) && ListedAs(all, mid, false)
    ensures c.needDone ==> ListedAs(done, cache, true)
    ensures multiset(shown) == multiset(found) && TitleSorted(shown)
    ensures out == QueryText(shown)
  {
    out, shown := Listing(found);
  }

  // ---------------------------------------------------------------------------
  // Marking tasks done

  /** The header written to mark a task done. */
  const DoneHeader: map<string, string> := map["todo" := "done"]

  /** Writing DoneHeader updates the todo header alone. */
  lemma DoneHeaderApplies(m: map<string, string>)
    ensures ApplyKeys(m, WriteKeys(m, DoneHeader), DoneHeader) == m["todo" := "done"]
  {
    var keys := WriteKeys(m, DoneHeader);
    assert DoneHeader.Keys == {"todo"};
    assert keys == ["todo"] by {
      assert |keys| == 1 && "todo" in keys;
    }
    assert keys[..0] == [];
  }

  /**
   * The mark-done rule for one task, on values: a task whose todo header
   * already says "done" is left alone; any other is written with DoneHeader
   * and no comment, which takes the task from `file`, `hdr`, `body` and the
   * directory `disk` to `file'`, `hdr'`, `body'` and `disk'`, reporting `err`.
   */
  predicate MarkedOne(disk: map<string, string>, disk': map<string, string>,
                      file: string, hdr: map<string, string>, body: string,
                      file': string, hdr': map<string, string>, body': string,
                      err: Option<Error>, now: string, io: Faults)
  {
    && '.' in file
    && if Lookup(hdr, "todo") == "done" then
         err == None && file' == file && hdr' == hdr && body' == body && disk' == disk
       else
         && (err, file', hdr', disk') == WriteEffect(disk, file, hdr, DoneHeader, now, "", io)
         && body' == if Appended(disk, file, io) then body + Block(now, WriteKeys(hdr, DoneHeader), DoneHeader, "")
                     else body
  }

  /**
   * What marking promises: the header is unchanged or has its todo set to
   * "done", a task reported without error ends up done, and the file keeps an
   * extension.
   */
  lemma MarkedOneIsDone(disk: map<string, string>, disk': map<string, string>,
                        file: string, hdr: map<string, string>, body: string,
                        file': string, hdr': map<string, string>, body': string,
                        err: Option<Error>, now: string, io: Faults)
    requires MarkedOne(disk, disk', file, hdr, body, file', hdr', body', err, now, io)
    ensures hdr' == hdr || hdr' == hdr["todo" := "done"]
    ensures err == None ==> Lookup(hdr', "todo") == "done"
    ensures '.' in file'
  {
    if Lookup(hdr, "todo") != "done" {
      DoneHeaderApplies(hdr);
      var keys := WriteKeys(hdr, DoneHeader);
      var hdr2 := ApplyKeys(hdr, keys, DoneHeader);
      assert hdr2 == hdr["todo" := "done"];
      if file in disk && !io.openFails && !io.writeFails && !io.closeFails {
        var m := Moved(disk[file := disk[file] + Block(now, keys, DoneHeader, "")], file, DoneStatus(hdr2), io);
        assert hdr' == hdr2;
        if err == None {
          assert Lookup(hdr', "todo") == "done";
        }
      }
    }
  }

  /** The mark-done rule for one task, as `todo -done` applies it to the task a query names. */
  method MarkOne(l: List, t: Task, now: string, io: Faults) returns (err: Option<Error>)
    requires '.' in t.file
    modifies l`disk, t`hdr, t`body, t`file
    ensures MarkedOne(old(l.disk), l.disk, old(t.file), old(t.hdr), old(t.body), t.file, t.hdr, t.body, err, now, io)
    ensures '.' in t.file
    ensures Lookup(old(t.hdr), "todo") == "done" ==>
      err == None && t.hdr == old(t.hdr) && t.body == old(t.body) && t.file == old(t.file) && l.disk == old(l.disk)
    ensures t.hdr == old(t.hdr) || t.hdr == old(t.hdr)["todo" := "done"]
    ensures err == None ==> Lookup(t.hdr, "todo") == "done"
  {
    ghost var disk, file, hdr, body := l.disk, t.file, t.hdr, t.body;
    DoneIff(t);
    err := None;
    if t.Header("todo") != "done" {
      err := l.Write(t, now, DoneHeader, "", io);
    }
    MarkedOneIsDone(disk, l.disk, file, hdr, body, t.file, t.hdr, t.body, err, now, io);
  }

  /** The errors among `errs`, in order: what the loop below logs. */
  function Logged(errs: seq<Option<Error>>): seq<Error> {
    if errs == [] then []
    else Logged(errs[..|errs| - 1]) + (if errs[|errs| - 1].Some? then [errs[|errs| - 1].value] else [])
  }

  /** No more errors are logged than writes were tried; none exactly when every write succeeded; every error is logged. */
  lemma {:induction false} LoggedMeaning(errs: seq<Option<Error>>)
    ensures |Logged(errs)| <= |errs|
    ensures Logged(errs) == [] <==> forall i :: 0 <= i < |errs| ==> errs[i] == None
    ensures forall i :: 0 <= i < |errs| && errs[i].Some? ==> errs[i].value in Logged(errs)
  {
    if errs != [] {
      var init := errs[..|errs| - 1];
      LoggedMeaning(init);
      assert forall i :: 0 <= i < |init| ==> init[i] == errs[i];
    }
  }

  /**
   * todo -done over the tasks a query found: each task in turn is marked done
   * as above, against the directory the previous one left (`disks[i]` before
   * task i), and each failed write is logged, the rest carrying on.
   */
  method MarkDone(l: List, tasks: seq<Task>, now: string, io: nat -> Faults)
    returns (logged: seq<Error>, ghost errs: seq<Option<Error>>, ghost disks: seq<map<string, string>>)
    requires forall i :: 0 <= i < |tasks| ==> '.' in tasks[i].file
    requires forall i, j :: 0 <= i < j < |tasks| ==> tasks[i] != tasks[j]
    modifies l`disk, tasks
    ensures |errs| == |tasks| && logged == Logged(errs)
    ensures |disks| == |tasks| + 1 && disks[0] == old(l.disk) && disks[|tasks|] == l.disk
    ensures forall i :: 0 <= i < |tasks| ==>
      MarkedOne(disks[i], disks[i + 1], old(tasks[i].file), old(tasks[i].hdr), old(tasks[i].body),
                tasks[i].file, tasks[i].hdr, tasks[i].body, errs[i], now, io(i))
  {
    logged, errs, disks := [], [], [l.disk];
    for j := 0 to |tasks|
      invariant |errs| == j && logged == Logged(errs)
      invariant |disks| == j + 1 && disks[0] == old(l.disk) && disks[j] == l.disk
      invariant forall i :: j <= i < |tasks| ==>
        tasks[i].file == old(tasks[i].file) && tasks[i].hdr == old(tasks[i].hdr) && tasks[i].body == old(tasks[i].body)
      invariant forall i :: 0 <= i < j ==>
        MarkedOne(disks[i], disks[i + 1], old(tasks[i].file), old(tasks[i].hdr), old(tasks[i].body),
                  tasks[i].file, tasks[i].hdr, tasks[i].body, errs[i], now, io(i))
    {
      var err := MarkAt(l, tasks, j, tasks[j], now, io(j));
      assert (errs + [err])[..j] == errs;
      errs := errs + [err];
      disks := disks + [l.disk];
      if err.Some? {
        logged := logged + [err.value];
      }
    }
  }

  /** One step of that loop: mark the j-th task; the other tasks are distinct from it and stay as they were. */
  method MarkAt(l: List, ghost tasks: seq<Task>, ghost j: nat, t: Task, now: string, io: Faults) returns (err: Option<Error>)
    requires j < |tasks| && t == tasks[j] && '.' in t.file
    requires forall i, k :: 0 <= i < k < |tasks| ==> tasks[i] != tasks[k]
    modifies l`disk, t`hdr, t`body, t`file
    ensures MarkedOne(old(l.disk), l.disk, old(t.file), old(t.hdr), old(t.body), t.file, t.hdr, t.body, err, now, io)
    ensures forall i :: 0 <= i < |tasks| && i != j ==>
      tasks[i].file == old(tasks[i].file) && tasks[i].hdr == old(tasks[i].hdr) && tasks[i].body == old(tasks[i].body)
  {
    err := MarkOne(l, t, now, io);
  }

}
