/**
 * A task as held in memory (the Task type of task/task.go): its file name,
 * ID, current header, the raw bytes of its file, its alternate IDs and the
 * times of its first and last block.  `write` updates the header, the body
 * and the file name in place, so a task is an object.
 */
module Tasks {
  import opened Text
  import opened Order
  import opened Record

  class Task {
    var file: string
    const id: string
    var hdr: map<string, string>
    var body: string
    var altIds: seq<string>
    var ctime: string
    var mtime: string

    constructor (file: string, id: string, hdr: map<string, string>, body: string,
                 altIds: seq<string>, ctime: string, mtime: string)
      ensures this.file == file && this.id == id && this.hdr == hdr && this.body == body
      ensures this.altIds == altIds && this.ctime == ctime && this.mtime == mtime
    {
      this.file := file;
      this.id := id;
      this.hdr := hdr;
      this.body := body;
      this.altIds := altIds;
      this.ctime := ctime;
      this.mtime := mtime;
    }

    /** Header: "id", "mtime" and "ctime" name the dedicated fields; any other key is looked up lower-cased. */
    function Header(key: string): string
      reads this
    {
      if key == "id" then id
      else if key == "mtime" then mtime
      else if key == "ctime" then ctime
      else Lookup(hdr, ToLower(key))
    }

    function Title(): string
      reads this
    {
      Lookup(hdr, "title")
    }

    /** Done: the todo header says "done" or "mute". */
    predicate Done()
      reads this
    {
      var s := Header("todo");
      s == "done" || s == "mute"
    }

    /** The task lives in `<id>.todo` or `<id>.done`. */
    predicate Named()
      reads this
    {
      file == id + ".todo" || file == id + ".done"
    }

    /** PrintTo: the current header (title first), then the blocks of the body, newest first. */
    method PrintTo() returns (out: string)
      ensures out == HeaderText(hdr) + Concat(Reverse(Pieces(body)))
    {
      var head := PrintHeader(hdr);
      var update := CutBlocks(body);
      var blocks := NewestFirst(update);
      out := head + blocks;
    }
  }

  /** The header part of PrintTo: the title line, the other keys in sorted order, a blank line. */
  method PrintHeader(hdr: map<string, string>) returns (out: string)
    ensures out == HeaderText(hdr)
  {
    var keys := SortedKeys(hdr.Keys - {"title"});
    out := "";
    if "title" in hdr {
      out := HeaderLine("title", hdr["title"]) + "\n";
    }
    var title := out;
    for j := 0 to |keys|
      invariant out == title + HeaderLines(keys[..j], hdr)
    {
      var line := HeaderLine(keys[j], Lookup(hdr, keys[j]));
      HeaderLinesPrefix(keys, hdr, j);
      AppendAssoc(title, HeaderLines(keys[..j], hdr) + line, "\n");
      AppendAssoc(title, HeaderLines(keys[..j], hdr), line);
      out := out + line + "\n";
    }
    assert keys[..|keys|] == keys;
    out := out + "\n";
  }

  /** The body cut before each "\n— ", as PrintTo's first loop does. */
  method CutBlocks(body: string) returns (update: seq<string>)
    ensures update == Pieces(body)
  {
    update := [];
    var start := 0;
    while true
      invariant 0 <= start <= |body|
      invariant update + Pieces(body[start..]) == Pieces(body)
      decreases |body| - start
    {
      var rest := body[start..];
      var i := IndexOf(rest, NlEmSpace);
      if i < 0 {
        break;
      }
      PiecesStep(rest, i);
      SliceOfSlice(body, start, i + 1);
      AppendAssoc(update, [rest[..i + 1]], Pieces(rest[i + 1..]));
      update := update + [body[start..start + i + 1]];
      start := start + i + 1;
    }
    PiecesLast(body[start..]);
    update := update + [body[start..]];
  }

  /** The pieces written from last to first, as PrintTo's second loop does. */
  method NewestFirst(update: seq<string>) returns (out: string)
    ensures out == Concat(Reverse(update))
  {
    out := "";
    var i := |update| - 1;
    while i >= 0
      invariant -1 <= i < |update|
      invariant out == Concat(Reverse(update[i + 1..]))
    {
      var done := Reverse(update[i + 1..]);
      ReverseFrom(update, i);
      ConcatAppend(done, [update[i]]);
      ConcatOne(update[i]);
      out := out + update[i];
      i := i - 1;
    }
    assert update[0..] == update;
  }

  /** "id", "ctime" and "mtime" are matched before lower-casing: "ID" reads the header map, not the ID. */
  lemma HeaderReservedIsCaseSensitive(t: Task)
    ensures t.Header("ID") == Lookup(t.hdr, "id")
    ensures t.Header("id") == t.id
  {
    assert ToLower("ID") == "id";
  }

  /** Apart from the three reserved names, a key and its lower-case form read the same header. */
  lemma HeaderIgnoresCase(t: Task, key: string)
    requires ToLower(key) !in {"id", "mtime", "ctime"}
    ensures t.Header(key) == t.Header(ToLower(key))
    ensures t.Header(key) == Lookup(t.hdr, ToLower(key))
  {
    ToLowerIdempotent(key);
    assert ToLower("id") == "id" && ToLower("mtime") == "mtime" && ToLower("ctime") == "ctime";
  }

  /** The done status as a property of the header map alone. */
  predicate DoneStatus(hdr: map<string, string>) {
    Lookup(hdr, "todo") in {"done", "mute"}
  }

  /** The done test looks at the todo header only. */
  lemma DoneIff(t: Task)
    ensures t.Header("todo") == Lookup(t.hdr, "todo")
    ensures t.Done() <==> Lookup(t.hdr, "todo") in {"done", "mute"}
    ensures t.Done() <==> DoneStatus(t.hdr)
  {
    assert ToLower("todo") == "todo";
  }

  // ---------------------------------------------------------------------------
  // Common

  function Headers(ts: seq<Task>): (r: seq<map<string, string>>)
    reads ts
    ensures |r| == |ts|
    ensures forall i :: 0 <= i < |ts| ==> r[i] == ts[i].hdr
  {
    if ts == [] then [] else Headers(ts[..|ts| - 1]) + [ts[|ts| - 1].hdr]
  }

  /** The entries of `acc` that `h` holds with the same value (a missing key reads as ""). */
  function Keep(acc: map<string, string>, h: map<string, string>): map<string, string> {
    map k | k in acc && Lookup(h, k) == acc[k] :: acc[k]
  }

  /** The header Common builds: the first header, narrowed by each later one in turn. */
  function CommonHeader(hs: seq<map<string, string>>): map<string, string> {
    if hs == [] then map[]
    else if |hs| == 1 then hs[0]
    else Keep(CommonHeader(hs[..|hs| - 1]), hs[|hs| - 1])
  }

  /**
   * Common keeps exactly the entries of the first header whose value every
   * header agrees on, and nothing when there are no headers.
   */
  lemma {:induction false} CommonHeaderSpec(hs: seq<map<string, string>>)
    ensures forall k :: k in CommonHeader(hs) <==>
      |hs| > 0 && k in hs[0] && forall i :: 0 <= i < |hs| ==> Lookup(hs[i], k) == hs[0][k]
    ensures forall k :: k in CommonHeader(hs) ==> CommonHeader(hs)[k] == hs[0][k]
  {
    if |hs| > 1 {
      var init := hs[..|hs| - 1];
      CommonHeaderSpec(init);
      forall k
        ensures k in CommonHeader(hs) <==>
          k in hs[0] && forall i :: 0 <= i < |hs| ==> Lookup(hs[i], k) == hs[0][k]
      {
        if k in CommonHeader(hs) {
          forall i | 0 <= i < |hs| ensures Lookup(hs[i], k) == hs[0][k] {
            if i < |hs| - 1 {
              assert init[i] == hs[i];
            }
          }
        }
        if k in hs[0] && forall i :: 0 <= i < |hs| ==> Lookup(hs[i], k) == hs[0][k] {
          assert forall i :: 0 <= i < |init| ==> Lookup(init[i], k) == init[0][k] by {
            forall i | 0 <= i < |init| ensures Lookup(init[i], k) == init[0][k] {
              assert init[i] == hs[i];
            }
          }
        }
      }
    }
  }

  /** The inner loop of Common: drop every entry of `acc` that `h` does not hold with the same value. */
  method Narrow(acc: map<string, string>, h: map<string, string>) returns (next: map<string, string>)
    ensures next == Keep(acc, h)
  {
    var todo := acc.Keys;
    next := acc;
    while todo != {}
      invariant todo <= acc.Keys
      invariant forall k :: k in next <==> k in acc && (k in todo || Lookup(h, k) == acc[k])
      invariant forall k :: k in next ==> next[k] == acc[k]
      decreases todo
    {
      var k :| k in todo;
      if Lookup(h, k) != acc[k] {
        next := next - {k};
      }
      todo := todo - {k};
    }
  }

  /** Common: a header-only task holding the entries all the tasks share. */
  method Common(tasks: seq<Task>) returns (c: Task)
    ensures fresh(c)
    ensures c.hdr == CommonHeader(Headers(tasks))
    ensures c.id == "" && c.file == "" && c.body == ""
  {
    ghost var hs := Headers(tasks);
    var hdr: map<string, string> := map[];
    for i := 0 to |tasks|
      invariant hdr == CommonHeader(hs[..i])
    {
      var t := tasks[i];
      assert hs[..i + 1][..i] == hs[..i];
      if i == 0 {
        // Copying every entry of the first task into the empty map gives its header.
        hdr := t.hdr;
      } else {
        hdr := Narrow(hdr, t.hdr);
      }
    }
    assert hs[..|tasks|] == hs;
    c := new Task("", "", hdr, "", [], "", "");
  }
}
