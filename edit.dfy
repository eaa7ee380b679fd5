/**
 * Editing tasks as text (edit.go): the summary lines at the top of an
 * edited task become header updates, the text after them becomes a
 * comment or the body of a new task, and a bulk edit carries a list of the
 * task IDs it applies to.
 */
module Edit {
  import opened Wrappers
  import opened Text
  import opened Record
  import opened Tasks
  import opened Store

  // ---------------------------------------------------------------------------
  // The summary section

  /**
   * What writeTask reads from the top of an edited text: the header updates,
   * the offset just past the blank line that ends the summary, and the
   * summary lines that have no colon.
   */
  datatype Summary = Summary(hdr: map<string, string>, off: nat, unknown: seq<string>)

  /** The key of a trimmed summary line whose first colon is at `i`. */
  function SummaryKey(line: string, i: nat): string
    requires i < |line|
  {
    TrimSpace(ToLower(line[..i]))
  }

  function SummaryValue(line: string, i: nat): string
    requires i < |line|
  {
    TrimSpace(line[i + 1..])
  }

  /**
   * The task being edited as the summary loop sees it: none for a new task,
   * otherwise what Task.Header reads (the ID, the two times, the header).
   */
  datatype Prior = New | Existing(id: string, mtime: string, ctime: string, hdr: map<string, string>)

  function Snapshot(t: Task?): Prior
    reads t
  {
    if t == null then New else Existing(t.id, t.mtime, t.ctime, t.hdr)
  }

  /** Task.Header on a snapshot. */
  function PriorHeader(p: Prior, key: string): string
    requires p.Existing?
  {
    if key == "id" then p.id
    else if key == "mtime" then p.mtime
    else if key == "ctime" then p.ctime
    else Lookup(p.hdr, ToLower(key))
  }

  lemma SnapshotHeader(t: Task, key: string)
    ensures PriorHeader(Snapshot(t), key) == t.Header(key)
  {
  }

  /** A new task takes every summary line; an existing task only the values that differ from its own. */
  predicate Changes(prev: Prior, k: string, v: string) {
    prev.New? || PriorHeader(prev, k) != v
  }

  /** One non-blank summary line, as it came from SplitAfter (line break included). */
  function Take(s: Summary, raw: string, prev: Prior): Summary
  {
    var line := TrimSpace(raw);
    Summary(Enter(s.hdr, line, prev), s.off + |raw|, s.unknown + LineUnknown(line))
  }

  /** The key and value of a trimmed summary line, or None for a line without a colon. */
  function Entry(line: string): Option<(string, string)> {
    var i := IndexChar(line, ':');
    if i < 0 then None else Some((SummaryKey(line, i), SummaryValue(line, i)))
  }

  /** The header after a summary line. */
  function Enter(hdr: map<string, string>, line: string, prev: Prior): map<string, string>
  {
    match Entry(line)
    case None => hdr
    case Some((k, v)) => Apply(hdr, k, v, prev)
  }

  function Apply(hdr: map<string, string>, k: string, v: string, prev: Prior): map<string, string>
  {
    if Changes(prev, k, v) then hdr[k := v] else hdr
  }

  /** A line, trimmed, if it has no colon. */
  function LineUnknown(line: string): seq<string> {
    if Entry(line).None? then [line] else []
  }

  /** The summary loop of writeTask: lines up to and including the first blank one. */
  function Scan(lines: seq<string>, prev: Prior, s: Summary): (r: Summary)
    ensures s.off <= r.off <= s.off + |Concat(lines)|
  {
    if lines == [] then s
    else if TrimSpace(lines[0]) == [] then s.(off := s.off + |lines[0]|)
    else Scan(lines[1..], prev, Take(s, lines[0], prev))
  }

  function Summarize(data: string, prev: Prior): (r: Summary)
    ensures r.off <= |data|
  {
    Scan(SplitAfter(data, '\n'), prev, Summary(map[], 0, []))
  }

  /** The summary loop of writeTask, over the lines of `data`. */
  method ReadSummary(data: string, prev: Task?) returns (s: Summary)
    ensures s == Summarize(data, Snapshot(prev))
  {
    ghost var p := Snapshot(prev);
    var lines := SplitAfter(data, '\n');
    s := Summary(map[], 0, []);
    ghost var goal := Summarize(data, p);
    var j := 0;
    while j < |lines|
      invariant 0 <= j <= |lines|
      invariant Scan(lines[j..], p, s) == goal
    {
      ScanAt(lines, j, p, s);
      var blank;
      blank, s := TakeLine(s, lines[j], prev);
      if blank {
        break;
      }
      j := j + 1;
    }
  }

  /** One line of the summary loop: a blank line ends it, any other is entered. */
  method TakeLine(s: Summary, raw: string, prev: Task?) returns (blank: bool, s': Summary)
    ensures blank == (TrimSpace(raw) == [])
    ensures s' == if blank then s.(off := s.off + |raw|) else Take(s, raw, Snapshot(prev))
  {
    var off := s.off + |raw|;
    var line := TrimSpace(raw);
    if line == [] {
      return true, s.(off := off);
    }
    var hdr, unknown := EnterLine(s.hdr, s.unknown, line, prev);
    return false, Summary(hdr, off, unknown);
  }

  /** One summary line with a colon sets its key (when it changes something); one without is unknown. */
  method EnterLine(hdr: map<string, string>, unknown: seq<string>, line: string, prev: Task?)
    returns (hdr': map<string, string>, unknown': seq<string>)
    ensures hdr' == Enter(hdr, line, Snapshot(prev))
    ensures unknown' == unknown + LineUnknown(line)
  {
    hdr', unknown' := hdr, unknown;
    var i := IndexChar(line, ':');
    if i < 0 {
      unknown' := unknown + [line];
    } else {
      var k := SummaryKey(line, i);
      var v := SummaryValue(line, i);
      hdr' := EnterKey(hdr, k, v, prev);
      assert unknown' == unknown + [];
    }
  }

  /** A summary value is kept when the task is new or the value differs from the task's own. */
  method EnterKey(hdr: map<string, string>, k: string, v: string, prev: Task?) returns (hdr': map<string, string>)
    ensures hdr' == Apply(hdr, k, v, Snapshot(prev))
  {
    hdr' := hdr;
    if prev != null {
      SnapshotHeader(prev, k);
    }
    if prev == null || prev.Header(k) != v {
      hdr' := hdr[k := v];
    }
  }

  lemma ScanAt(lines: seq<string>, j: nat, prev: Prior, s: Summary)
    requires j < |lines|
    ensures Scan(lines[j..], prev, s)
      == if TrimSpace(lines[j]) == [] then s.(off := s.off + |lines[j]|)
         else Scan(lines[j + 1..], prev, Take(s, lines[j], prev))
  {
    assert lines[j..][0] == lines[j] && lines[j..][1..] == lines[j + 1..];
  }

  /** The number of summary lines: those before the first blank one. */
  function SectionEnd(lines: seq<string>): (n: nat)
    ensures n <= |lines|
  {
    if lines == [] || TrimSpace(lines[0]) == [] then 0 else 1 + SectionEnd(lines[1..])
  }

  /** The summary is every line before the first blank one. */
  lemma {:induction false} SectionEndBlank(lines: seq<string>)
    ensures var n := SectionEnd(lines);
      && (forall i :: 0 <= i < n ==> TrimSpace(lines[i]) != [])
      && (n < |lines| ==> TrimSpace(lines[n]) == [])
  {
    if lines != [] && TrimSpace(lines[0]) != [] {
      SectionEndBlank(lines[1..]);
      var n := SectionEnd(lines);
      forall i | 1 <= i < n
        ensures TrimSpace(lines[i]) != []
      {
        assert lines[i] == lines[1..][i - 1];
      }
    }
  }

  /** The lines the summary loop consumes: the summary lines and the blank line after them, if any. */
  function Consumed(lines: seq<string>): nat {
    var n := SectionEnd(lines);
    if n < |lines| then n + 1 else n
  }

  /** The summary lines without a colon, trimmed, in order. */
  function NoColonLines(ls: seq<string>): seq<string> {
    if ls == [] then [] else LineUnknown(TrimSpace(ls[0])) + NoColonLines(ls[1..])
  }

  /** The keys of the summary lines that have a colon. */
  function ColonKeys(ls: seq<string>): set<string> {
    if ls == [] then {}
    else LineKeys(TrimSpace(ls[0])) + ColonKeys(ls[1..])
  }

  lemma UpdateChanges(hdr: map<string, string>, prev: Prior, k: string, v: string)
    requires AllChanges(hdr, prev) && Changes(prev, k, v)
    ensures AllChanges(hdr[k := v], prev)
  {
  }

  lemma EnterChanges(hdr: map<string, string>, line: string, prev: Prior)
    requires AllChanges(hdr, prev)
    ensures AllChanges(Enter(hdr, line, prev), prev)
  {
    match Entry(line)
    case None =>
    case Some((k, v)) =>
      if Changes(prev, k, v) {
        UpdateChanges(hdr, prev, k, v);
      }
  }

  /** The keys a single line contributes. */
  function LineKeys(line: string): set<string> {
    match Entry(line)
    case None => {}
    case Some((k, _)) => {k}
  }

  lemma ApplyGrows(hdr: map<string, string>, k: string, v: string, prev: Prior)
    ensures Apply(hdr, k, v, prev).Keys <= hdr.Keys + {k}
    ensures prev.New? ==> Apply(hdr, k, v, prev).Keys == hdr.Keys + {k}
  {
  }

  lemma EnterKeys(hdr: map<string, string>, line: string, prev: Prior)
    ensures Enter(hdr, line, prev).Keys <= hdr.Keys + LineKeys(line)
    ensures prev.New? ==> Enter(hdr, line, prev).Keys == hdr.Keys + LineKeys(line)
  {
    match Entry(line)
    case None =>
    case Some((k, v)) => ApplyGrows(hdr, k, v, prev);
  }

  lemma TakeFirst(lines: seq<string>)
    requires lines != [] && TrimSpace(lines[0]) != []
    ensures SectionEnd(lines) == 1 + SectionEnd(lines[1..])
    ensures lines[..SectionEnd(lines)] == [lines[0]] + lines[1..][..SectionEnd(lines[1..])]
    ensures Consumed(lines) == 1 + Consumed(lines[1..])
  {
  }

  lemma {:induction false} ScanUnknown(lines: seq<string>, prev: Prior, s: Summary)
    ensures Scan(lines, prev, s).unknown == s.unknown + NoColonLines(lines[..SectionEnd(lines)])
    decreases |lines|
  {
    if lines != [] && TrimSpace(lines[0]) != [] {
      TakeFirst(lines);
      var n := SectionEnd(lines[1..]);
      var ls := [lines[0]] + lines[1..][..n];
      assert ls[0] == lines[0] && ls[1..] == lines[1..][..n];
      ScanUnknown(lines[1..], prev, Take(s, lines[0], prev));
    }
  }

  lemma {:induction false} ScanOff(lines: seq<string>, prev: Prior, s: Summary)
    ensures Scan(lines, prev, s).off == s.off + |Concat(lines[..Consumed(lines)])|
    decreases |lines|
  {
    if lines == [] {
    } else if TrimSpace(lines[0]) == [] {
      assert lines[..Consumed(lines)] == [lines[0]];
      ConcatOne(lines[0]);
    } else {
      TakeFirst(lines);
      var m := Consumed(lines[1..]);
      assert lines[..1 + m] == [lines[0]] + lines[1..][..m];
      ConcatAppend([lines[0]], lines[1..][..m]);
      ConcatOne(lines[0]);
      ScanOff(lines[1..], prev, Take(s, lines[0], prev));
    }
  }

  /** Every entry the summary loop keeps is a change. */
  predicate AllChanges(hdr: map<string, string>, prev: Prior)
  {
    forall k :: k in hdr ==> Changes(prev, k, hdr[k])
  }

  lemma {:induction false} ScanChanges(lines: seq<string>, prev: Prior, s: Summary)
    requires AllChanges(s.hdr, prev)
    ensures AllChanges(Scan(lines, prev, s).hdr, prev)
    decreases |lines|
  {
    if lines != [] && TrimSpace(lines[0]) != [] {
      EnterChanges(s.hdr, TrimSpace(lines[0]), prev);
      ScanChanges(lines[1..], prev, Take(s, lines[0], prev));
    }
  }

  lemma {:induction false} ScanKeys(lines: seq<string>, prev: Prior, s: Summary)
    ensures Scan(lines, prev, s).hdr.Keys <= s.hdr.Keys + ColonKeys(lines[..SectionEnd(lines)])
    ensures prev.New? ==> Scan(lines, prev, s).hdr.Keys == s.hdr.Keys + ColonKeys(lines[..SectionEnd(lines)])
    decreases |lines|
  {
    if lines != [] && TrimSpace(lines[0]) != [] {
      TakeFirst(lines);
      var n := SectionEnd(lines[1..]);
      var ls := [lines[0]] + lines[1..][..n];
      assert ls[0] == lines[0] && ls[1..] == lines[1..][..n];
      EnterKeys(s.hdr, TrimSpace(lines[0]), prev);
      ScanKeys(lines[1..], prev, Take(s, lines[0], prev));
    }
  }

  /**
   * What the summary loop finds: the colon-less summary lines, the offset of
   * the text after the summary and its blank line, and header entries that
   * come from summary lines and, for an existing task, change it.
   */
  lemma SummaryMeaning(data: string, prev: Prior)
    ensures var lines := SplitAfter(data, '\n'); var n := SectionEnd(lines); var r := Summarize(data, prev);
      && r.unknown == NoColonLines(lines[..n])
      && data[..r.off] == Concat(lines[..Consumed(lines)])
      && AllChanges(r.hdr, prev)
      && r.hdr.Keys <= ColonKeys(lines[..n])
      && (prev.New? ==> r.hdr.Keys == ColonKeys(lines[..n]))
  {
    var lines := SplitAfter(data, '\n');
    var n := SectionEnd(lines);
    var s := Summary(map[], 0, []);
    var r := Summarize(data, prev);
    assert r == Scan(lines, prev, s);
    assert r.unknown == NoColonLines(lines[..n]) by {
      ScanUnknown(lines, prev, s);
      assert [] + NoColonLines(lines[..n]) == NoColonLines(lines[..n]);
    }
    assert data[..r.off] == Concat(lines[..Consumed(lines)]) by {
      ScanOff(lines, prev, s);
      ConcatPrefix(lines, Consumed(lines));
    }
    assert AllChanges(r.hdr, prev) by {
      ScanChanges(lines, prev, s);
    }
    assert r.hdr.Keys <= ColonKeys(lines[..n]) && (prev.New? ==> r.hdr.Keys == ColonKeys(lines[..n])) by {
      ScanKeys(lines, prev, s);
      assert s.hdr.Keys + ColonKeys(lines[..n]) == ColonKeys(lines[..n]);
    }
  }

  lemma ConcatPrefix(lines: seq<string>, m: nat)
    requires m <= |lines|
    ensures var c := Concat(lines[..m]); |c| <= |Concat(lines)| && Concat(lines)[..|c|] == c
  {
    assert lines == lines[..m] + lines[m..];
    ConcatAppend(lines[..m], lines[m..]);
  }

  // ---------------------------------------------------------------------------
  // The comment

  /** What a fresh update form holds where the comment goes; it stands for no comment. */
  const Placeholder: string := "<optional comment here>"

  /**
   * The comment of an update: the trimmed text from the end of the summary to
   * the first "\n— " of the whole text, provided that lies at or after the
   * summary's end; otherwise no comment.
   */
  function CommentOf(data: string, off: nat): (c: string)
    requires off <= |data|
    ensures c != Placeholder && TrimSpace(c) == c
  {
    var i := IndexOf(data, NlEmSpace);
    if i >= off then
      var c := TrimSpace(data[off..i]);
      TrimSpaceIdempotent(data[off..i]);
      if c == Placeholder then "" else c
    else ""
  }

  /** TrimSpace keeps a contiguous slice. */
  lemma TrimSpaceSlice(x: string) returns (a: nat)
    ensures a + |TrimSpace(x)| <= |x| && TrimSpace(x) == x[a..a + |TrimSpace(x)|]
  {
    var l := TrimLeft(x);
    TrimLeftSuffix(x);
    TrimRightPrefix(l);
    a := |x| - |l|;
  }

  lemma SliceWithin(s: string, i: nat, j: nat, m: nat, n: nat)
    requires i <= j <= |s| && m <= n <= j - i
    ensures s[i..j][m..n] == s[i + m..i + n]
  {
    assert forall q :: 0 <= q < n - m ==> s[i..j][m..n][q] == s[i + m + q];
  }

  /** A marker inside a slice is a marker of the whole text. */
  lemma MarkerWithin(data: string, lo: nat, hi: nat, k: int)
    requires lo <= hi <= |data| && OccursAt(data[lo..hi], NlEmSpace, k)
    ensures OccursAt(data, NlEmSpace, lo + k)
  {
    SliceWithin(data, lo, hi, k, k + |NlEmSpace|);
  }

  /** A comment never holds a block marker: it stops before the first one. */
  lemma CommentHasNoMarker(data: string, off: nat)
    requires off <= |data|
    ensures forall k :: !OccursAt(CommentOf(data, off), NlEmSpace, k)
  {
    var i := IndexOf(data, NlEmSpace);
    if i >= off {
      var x := data[off..i];
      var c := TrimSpace(x);
      var a := TrimSpaceSlice(x);
      assert c == data[off + a..off + a + |c|] by {
        SliceWithin(data, off, i, a, a + |c|);
      }
      forall k | OccursAt(c, NlEmSpace, k)
        ensures false
      {
        MarkerWithin(data, off + a, off + a + |c|, k);
      }
    }
  }

  // ---------------------------------------------------------------------------
  // writeTask

  /** The error buffer writeTask fills with the summary lines it does not understand. */
  function Report(unknown: seq<string>): string {
    if unknown == [] then "" else "unknown summary line: " + unknown[0] + "\n" + Report(unknown[1..])
  }

  /** The buffer is non-empty, even after trimming, exactly when some line was not understood. */
  lemma ReportEmpty(unknown: seq<string>)
    ensures TrimSpace(Report(unknown)) == [] <==> unknown == []
  {
    if unknown != [] {
      var r := Report(unknown);
      assert r[0] == 'u' && !IsSpace(r[0]);
    }
  }

  /** How writeTask fails: bad summary lines, or the Create or Write it issued failed. */
  datatype EditError =
    | Format(text: string)
    | Creating(cause: Error)
    | Updating(cause: Error)

  /** A task's fields as values; the ID is the key it is cached under. */
  datatype View = View(file: string, hdr: map<string, string>, body: string,
                       altIds: seq<string>, ctime: string, mtime: string)

  function ViewOf(t: Task): View
    reads t
  {
    View(t.file, t.hdr, t.body, t.altIds, t.ctime, t.mtime)
  }

  /** The task with ID `id` and fields `v`, as the summary loop sees it. */
  function PriorOf(id: string, v: View): Prior {
    Existing(id, v.mtime, v.ctime, v.hdr)
  }

  /**
   * writeTask on an existing task with ID `id` and fields `v`, in the
   * directory `disk`: the error, the task's new fields and the new directory.
   * Summary lines without a colon stop it before anything is written;
   * otherwise the summary's changes and the comment are written as one block.
   */
  function UpdateEffect(disk: map<string, string>, id: string, v: View, updated: string, now: string, io: Faults)
    : (Option<EditError>, View, map<string, string>)
    requires '.' in v.file
  {
    var s := Summarize(updated, PriorOf(id, v));
    if s.unknown != [] then (Some(Format(TrimSpace(Report(s.unknown)))), v, disk)
    else
      var comment := CommentOf(updated, s.off);
      var w := WriteEffect(disk, v.file, v.hdr, s.hdr, now, comment, io);
      var body := if Appended(disk, v.file, io) then v.body + Block(now, WriteKeys(v.hdr, s.hdr), s.hdr, comment)
                  else v.body;
      (if w.0.Some? then Some(Updating(w.0.value)) else None, v.(file := w.1, hdr := w.2, body := body), w.3)
  }

  /**
   * What an update does: it fails on a bad summary or a failed write; a bad
   * summary or a failed open leaves task and directory alone; a success
   * updates the header key by key and appends exactly one block; the
   * alternate IDs and the times are never touched and the file keeps an
   * extension.
   */
  lemma UpdateMeaning(disk: map<string, string>, id: string, v: View, updated: string, now: string, io: Faults)
    requires '.' in v.file
    ensures var r := UpdateEffect(disk, id, v, updated, now, io); var s := Summarize(updated, PriorOf(id, v));
      && '.' in r.1.file && r.1.altIds == v.altIds && r.1.ctime == v.ctime && r.1.mtime == v.mtime
      && (r.0.Some? ==> r.0.value.Format? || r.0.value.Updating?)
      && (r.0.Some? && r.0.value.Format? <==> s.unknown != [])
      && (s.unknown != [] || v.file !in disk || io.openFails ==> r.1 == v && r.2 == disk)
      && (r.0 == None ==>
            var keys := WriteKeys(v.hdr, s.hdr);
            && r.1.hdr == ApplyKeys(v.hdr, keys, s.hdr)
            && r.1.body == v.body + Block(now, keys, s.hdr, CommentOf(updated, s.off)))
  {
    var s := Summarize(updated, PriorOf(id, v));
    if s.unknown == [] {
      var comment := CommentOf(updated, s.off);
      var keys := WriteKeys(v.hdr, s.hdr);
      var buf := Block(now, keys, s.hdr, comment);
      if Appended(disk, v.file, io) {
        var hdr' := ApplyKeys(v.hdr, keys, s.hdr);
        var m := Moved(disk[v.file := disk[v.file] + buf], v.file, DoneStatus(hdr'), io);
        assert '.' in m.1;
      }
    }
  }

  /**
   * writeTask: read the summary, stop on lines without a colon, then either
   * create the task (no previous task; only a check when `isBulk`) or append
   * one update to the previous task.
   */
  method WriteTask(l: List, prev: Task?, updated: string, isBulk: bool, now: string, io: Faults)
    returns (t: Task?, err: Option<EditError>)
    requires prev == null && !isBulk ==> l.Valid() && l.cacheMade
    requires prev != null ==> '.' in prev.file
    modifies l`disk, l`cache, prev
    ensures var s := old(Summarize(updated, Snapshot(prev)));
      s.unknown != [] ==>
        && t == null && err == Some(Format(TrimSpace(Report(s.unknown))))
        && l.disk == old(l.disk) && l.cache == old(l.cache)
        && (prev != null ==> unchanged(prev))
    ensures var s := old(Summarize(updated, Snapshot(prev)));
      s.unknown == [] && prev == null && isBulk ==>
        t == null && err == None && l.disk == old(l.disk) && l.cache == old(l.cache)
    ensures var s := old(Summarize(updated, Snapshot(prev))); var id := Lookup(s.hdr, "id");
      s.unknown == [] && prev == null && !isBulk ==>
        && l.Valid()
        && (err.Some? ==> t == null && err.value.Creating? && l.disk == old(l.disk))
        && (id != "" && !ValidName(id) ==> err == Some(Creating(InvalidName(id))))
        && (id != "" && id in old(l.cache) ==> err.Some?)
        && (err.None? ==>
              && t != null && fresh(t) && l.cache == old(l.cache)[t.id := t]
              && (id != "" ==> t.id == id)
              && Created(t, now, s.hdr, TrimSpace(updated[s.off..]))
              && t.file in l.disk && l.disk[t.file] == t.body)
    ensures prev != null ==>
      && (old(Summarize(updated, Snapshot(prev))).unknown == [] ==> t == prev)
      && l.cache == old(l.cache) && '.' in prev.file
      && (err, ViewOf(prev), l.disk) == old(UpdateEffect(l.disk, prev.id, ViewOf(prev), updated, now, io))
  {
    if prev != null {
      t, err := Revise(l, prev, updated, now, io);
      return;
    }
    var s := ReadSummary(updated, prev);
    if s.unknown != [] {
      return null, Some(Format(TrimSpace(Report(s.unknown))));
    }
    if isBulk {
      return null, None;
    }
    t, err := NewTask(l, s, updated, now, io);
  }

  /** writeTask with a previous task: read the summary against it, then append one update, or stop on a bad summary. */
  method Revise(l: List, prev: Task, updated: string, now: string, io: Faults) returns (t: Task?, err: Option<EditError>)
    requires '.' in prev.file
    modifies l`disk, prev`hdr, prev`body, prev`file
    ensures var s := old(Summarize(updated, Snapshot(prev)));
      t == if s.unknown == [] then prev else null
    ensures '.' in prev.file
    ensures (err, ViewOf(prev), l.disk) == old(UpdateEffect(l.disk, prev.id, ViewOf(prev), updated, now, io))
  {
    var s := ReadSummary(updated, prev);
    if s.unknown != [] {
      assert Snapshot(prev) == PriorOf(prev.id, ViewOf(prev));
      return null, Some(Format(TrimSpace(Report(s.unknown))));
    }
    err := Amend(l, prev, s, updated, now, io);
    t := prev;
  }

  /** The end of writeTask for a new task whose summary was understood: Create, with the text after the summary as its comment. */
  method NewTask(l: List, s: Summary, updated: string, now: string, io: Faults) returns (t: Task?, err: Option<EditError>)
    requires l.Valid() && l.cacheMade && s == Summarize(updated, New) && s.unknown == []
    modifies l`disk, l`cache
    ensures var id := Lookup(s.hdr, "id");
      && l.Valid()
      && (err.Some? ==> t == null && err.value.Creating? && l.disk == old(l.disk))
      && (id != "" && !ValidName(id) ==> err == Some(Creating(InvalidName(id))))
      && (id != "" && id in old(l.cache) ==> err.Some?)
      && (err.None? ==>
            && t != null && fresh(t) && l.cache == old(l.cache)[t.id := t]
            && (id != "" ==> t.id == id)
            && Created(t, now, s.hdr, TrimSpace(updated[s.off..]))
            && t.file in l.disk && l.disk[t.file] == t.body)
  {
    var body := TrimSpace(updated[s.off..]);
    var r := l.Create(Lookup(s.hdr, "id"), now, s.hdr, body, io);
    if r.Err? {
      return null, Some(Creating(r.error));
    }
    return r.value, None;
  }

  /** The end of writeTask for an existing task whose summary was understood: one write. */
  method Amend(l: List, prev: Task, s: Summary, updated: string, now: string, io: Faults) returns (err: Option<EditError>)
    requires '.' in prev.file && s == Summarize(updated, Snapshot(prev)) && s.unknown == []
    modifies l`disk, prev`hdr, prev`body, prev`file
    ensures '.' in prev.file
    ensures (err, ViewOf(prev), l.disk) == old(UpdateEffect(l.disk, prev.id, ViewOf(prev), updated, now, io))
  {
    var comment := CommentOf(updated, s.off);
    var e := l.Write(prev, now, s.hdr, comment, io);
    err := if e.Some? then Some(Updating(e.value)) else None;
  }

  // ---------------------------------------------------------------------------
  // Bulk edits

  /** The line that opens the list of tasks a bulk edit applies to. */
  const BulkTitle: string := "— Bulk editing these tasks:"

  /** What bulkWriteTask searches for: a line break and the bulk title. */
  const BulkHeader: string := "\n" + BulkTitle

  /** Tab and space end the first word of a bulk line. */
  predicate Stop(c: char) {
    c == '\t' || c == ' '
  }

  /** The ID readBulkIDs takes from a line: its longest prefix without a tab or a space. */
  function LineId(line: string): (id: string)
    ensures '\t' !in id && ' ' !in id
  {
    if line == [] || Stop(line[0]) then [] else [line[0]] + LineId(line[1..])
  }

  /** Cutting a line where a tab or space stands, or at its end, leaves its ID alone. */
  lemma {:induction false} LineIdCut(s: string, i: nat)
    requires i <= |s| && (i < |s| ==> Stop(s[i]))
    ensures LineId(s) == LineId(s[..i])
  {
    if i > 0 && !Stop(s[0]) {
      assert s[..i][1..] == s[1..][..i - 1];
      LineIdCut(s[1..], i - 1);
    }
  }

  /** A prefix free of tabs and spaces, ended by one or by the line's end, is the ID. */
  lemma {:induction false} LineIdWord(s: string, i: nat)
    requires i <= |s| && (i < |s| ==> Stop(s[i]))
    requires forall k :: 0 <= k < i ==> !Stop(s[k])
    ensures LineId(s) == s[..i]
  {
    if i > 0 {
      assert s[..i] == [s[0]] + s[1..][..i - 1];
      LineIdWord(s[1..], i - 1);
    }
  }

  /** The IDs of the lines that name a task the list knows, in order, repeats kept. */
  function BulkIds(cache: map<string, Task>, disk: map<string, string>, lines: seq<string>): seq<string> {
    if lines == [] then []
    else (if Known(cache, disk, LineId(lines[0])) then [LineId(lines[0])] else []) + BulkIds(cache, disk, lines[1..])
  }

  /** readBulkIDs */
  method ReadBulkIds(l: List, text: string) returns (ids: seq<string>)
    ensures ids == BulkIds(l.cache, l.disk, Split(text, '\n'))
  {
    var lines := Split(text, '\n');
    ghost var cache, disk := l.cache, l.disk;
    ids := [];
    for j := 0 to |lines|
      invariant ids + BulkIds(cache, disk, lines[j..]) == BulkIds(cache, disk, lines)
    {
      var id := FirstWord(lines[j]);
      ghost var later := BulkIds(cache, disk, lines[j + 1..]);
      BulkIdsAt(cache, disk, lines, j);
      if l.Exists(id) {
        assert (ids + [id]) + later == ids + ([id] + later);
        ids := ids + [id];
      } else {
        assert [] + later == later;
      }
    }
    assert lines[|lines|..] == [];
  }

  /** The body of readBulkIDs' loop: cut the line at its first tab, then at its first space. */
  method FirstWord(line: string) returns (id: string)
    ensures id == LineId(line)
  {
    id := line;
    var i := IndexChar(id, '\t');
    if i >= 0 {
      LineIdCut(id, i);
      id := id[..i];
    }
    assert LineId(id) == LineId(line);
    assert forall k :: 0 <= k < |id| ==> id[k] != '\t';
    i := IndexChar(id, ' ');
    if i >= 0 {
      LineIdWord(id, i);
      id := id[..i];
    } else {
      LineIdWord(id, |id|);
      assert id[..|id|] == id;
    }
  }

  lemma BulkIdsAt(cache: map<string, Task>, disk: map<string, string>, lines: seq<string>, j: nat)
    requires j < |lines|
    ensures BulkIds(cache, disk, lines[j..])
      == (if Known(cache, disk, LineId(lines[j])) then [LineId(lines[j])] else []) + BulkIds(cache, disk, lines[j + 1..])
  {
    assert lines[j..][0] == lines[j] && lines[j..][1..] == lines[j + 1..];
  }

  lemma BulkIdsCons(cache: map<string, Task>, disk: map<string, string>, line: string, rest: seq<string>)
    ensures BulkIds(cache, disk, [line] + rest)
      == (if Known(cache, disk, LineId(line)) then [LineId(line)] else []) + BulkIds(cache, disk, rest)
  {
    assert ([line] + rest)[1..] == rest;
  }

  lemma BulkIdsSkip(cache: map<string, Task>, disk: map<string, string>, line: string, rest: seq<string>)
    requires !Known(cache, disk, LineId(line))
    ensures BulkIds(cache, disk, [line] + rest) == BulkIds(cache, disk, rest)
  {
    assert ([line] + rest)[1..] == rest;
  }

  /** Exactly the IDs of lines naming a known task are kept. */
  lemma {:induction false} BulkIdsMeaning(cache: map<string, Task>, disk: map<string, string>, lines: seq<string>)
    ensures forall id :: id in BulkIds(cache, disk, lines) <==>
      Known(cache, disk, id) && exists j :: 0 <= j < |lines| && LineId(lines[j]) == id
  {
    if lines != [] {
      BulkIdsMeaning(cache, disk, lines[1..]);
      forall id | Known(cache, disk, id) && (exists j :: 0 <= j < |lines| && LineId(lines[j]) == id)
        ensures id in BulkIds(cache, disk, lines)
      {
        var j :| 0 <= j < |lines| && LineId(lines[j]) == id;
        if j > 0 {
          assert LineId(lines[1..][j - 1]) == id;
        }
      }
      forall id | id in BulkIds(cache, disk, lines[1..])
        ensures exists j :: 0 <= j < |lines| && LineId(lines[j]) == id
      {
        var j :| 0 <= j < |lines| - 1 && LineId(lines[1..][j]) == id;
        assert LineId(lines[j + 1]) == id;
      }
    }
  }

  /** What a bulk document lists of each task: its ID and its title. */
  function Listing(ts: seq<Task>): (r: seq<(string, string)>)
    reads ts
    ensures |r| == |ts|
    ensures forall j :: 0 <= j < |ts| ==> r[j] == (ts[j].id, ts[j].Title())
  {
    seq(|ts|, j requires 0 <= j < |ts| reads ts => (ts[j].id, ts[j].Title()))
  }

  /** One manifest line: the task's ID, a tab, its title. */
  function ManifestLine(e: (string, string)): string {
    e.0 + "\t" + e.1 + "\n"
  }

  function Manifest(es: seq<(string, string)>): string {
    if es == [] then "" else ManifestLine(es[0]) + Manifest(es[1..])
  }

  lemma {:induction false} ManifestSnoc(es: seq<(string, string)>, e: (string, string))
    ensures Manifest(es + [e]) == Manifest(es) + ManifestLine(e)
  {
    if es == [] {
      assert ([e])[1..] == [];
    } else {
      assert (es + [e])[1..] == es[1..] + [e];
      ManifestSnoc(es[1..], e);
    }
  }

  lemma ManifestTake(es: seq<(string, string)>, j: nat)
    requires j < |es|
    ensures Manifest(es[..j + 1]) == Manifest(es[..j]) + ManifestLine(es[j])
  {
    assert es[..j + 1] == es[..j] + [es[j]];
    ManifestSnoc(es[..j], es[j]);
  }

  /** A task with an empty body prints as its header alone. */
  lemma PrintsNoBody(out: string, head: string)
    requires out == head + Concat(Reverse(Pieces("")))
    ensures out == head
  {
    assert IndexOf("", NlEmSpace) < 0;
    PiecesLast("");
    assert Reverse([""]) == [""];
    ConcatOne("");
    assert head + "" == head;
  }

  /** Printing a task whose body is empty. */
  method PrintBare(t: Task) returns (out: string)
    requires t.body == ""
    ensures out == HeaderText(t.hdr)
  {
    out := t.PrintTo();
    PrintsNoBody(out, HeaderText(t.hdr));
  }

  /** The listed IDs the list knows, in order. */
  function KnownIds(cache: map<string, Task>, disk: map<string, string>, es: seq<(string, string)>): seq<string> {
    if es == [] then []
    else (if Known(cache, disk, es[0].0) then [es[0].0] else []) + KnownIds(cache, disk, es[1..])
  }

  /** The bulk document of some tasks: their common header, the bulk header, one line per task. */
  function BulkText(tasks: seq<Task>): string
    reads tasks
  {
    HeaderText(CommonHeader(Headers(tasks))) + "\n" + BulkHeader + "\n\n" + Manifest(Listing(tasks))
  }

  /**
   * bulkEditStart: the common header of the tasks, then the bulk header,
   * then one line per task.
   */
  method BulkEditStart(tasks: seq<Task>) returns (base: Task, text: string)
    ensures fresh(base) && base.hdr == CommonHeader(Headers(tasks))
    ensures text == BulkText(tasks)
  {
    base := Common(tasks);
    text := PrintBare(base);
    text := text + "\n" + BulkHeader + "\n\n";
    var m := WriteManifest(tasks);
    text := text + m;
  }

  /** The loop of bulkEditStart: one line per task, in order. */
  method WriteManifest(tasks: seq<Task>) returns (m: string)
    ensures m == Manifest(Listing(tasks))
  {
    m := "";
    ghost var es := Listing(tasks);
    for j := 0 to |tasks|
      invariant m == Manifest(es[..j])
    {
      var t := tasks[j];
      ManifestTake(es, j);
      assert es[j] == (t.id, t.Title());
      m := m + ManifestLine((t.id, t.Title()));
    }
    assert es[..|tasks|] == es;
  }

  /** A task ID that stands alone as the first word of a manifest line. */
  predicate PlainId(id: string) {
    '\t' !in id && ' ' !in id && '\n' !in id
  }

  /** A manifest line, split off: its ID stands first, the rest of the manifest follows. */
  lemma ManifestHead(es: seq<(string, string)>)
    requires es != [] && PlainId(es[0].0) && '\n' !in es[0].1
    ensures Split(Manifest(es), '\n') == [es[0].0 + "\t" + es[0].1] + Split(Manifest(es[1..]), '\n')
    ensures LineId(es[0].0 + "\t" + es[0].1) == es[0].0
  {
    var id, title := es[0].0, es[0].1;
    var x := id + "\t" + title;
    assert '\n' !in x by {
      assert x == id + ("\t" + title);
    }
    assert Manifest(es) == x + ['\n'] + Manifest(es[1..]);
    SplitCons(x, Manifest(es[1..]), '\n');
    assert x[|id|] == '\t' && x[..|id|] == id;
    LineIdWord(x, |id|);
  }

  /** The manifest's lines give back the known IDs when no ID breaks a line and the list has no task "". */
  lemma {:induction false} ManifestIds(cache: map<string, Task>, disk: map<string, string>, es: seq<(string, string)>)
    requires !Known(cache, disk, "")
    requires forall j :: 0 <= j < |es| ==> PlainId(es[j].0) && '\n' !in es[j].1
    ensures BulkIds(cache, disk, Split(Manifest(es), '\n')) == KnownIds(cache, disk, es)
  {
    if es == [] {
      assert Split("", '\n') == [""] by {
        assert IndexChar("", '\n') < 0;
      }
      assert LineId("") == "";
    } else {
      ManifestHead(es);
      BulkIdsCons(cache, disk, es[0].0 + "\t" + es[0].1, Split(Manifest(es[1..]), '\n'));
      ManifestIds(cache, disk, es[1..]);
    }
  }

  /** The lines of a header line break, a title line and a blank line. */
  lemma SplitBlock(title: string, m: string)
    requires '\n' !in title
    ensures Split("\n" + title + "\n\n" + m, '\n') == ["", title, ""] + Split(m, '\n')
  {
    var y := "" + ['\n'] + m;
    var z := title + ['\n'] + y;
    assert "\n" + title + "\n\n" + m == "" + ['\n'] + z;
    SplitCons("", z, '\n');
    SplitCons(title, y, '\n');
    SplitCons("", m, '\n');
  }

  /** The lines of the bulk header: an empty line, the title, an empty line, then the manifest's. */
  lemma BulkLines(m: string)
    ensures Split(BulkHeader + "\n\n" + m, '\n') == [""] + ([BulkTitle] + ([""] + Split(m, '\n')))
  {
    assert '\n' !in BulkTitle;
    SplitBlock(BulkTitle, m);
    assert ["", BulkTitle, ""] + Split(m, '\n') == [""] + ([BulkTitle] + ([""] + Split(m, '\n')));
  }

  /** The bulk title's first word is "—"; an empty line's is "". */
  lemma TitleId()
    ensures LineId(BulkTitle) == "—" && LineId("") == ""
  {
    assert BulkTitle[1..][0] == ' ';
  }

  /**
   * A bulk document, read from its bulk header on, names exactly the known
   * tasks it was made from, in order, when no task is named "" or "—".
   */
  lemma BulkRoundTrip(cache: map<string, Task>, disk: map<string, string>, es: seq<(string, string)>)
    requires !Known(cache, disk, "") && !Known(cache, disk, "—")
    requires forall j :: 0 <= j < |es| ==> PlainId(es[j].0) && '\n' !in es[j].1
    ensures BulkIds(cache, disk, Split(BulkHeader + "\n\n" + Manifest(es), '\n')) == KnownIds(cache, disk, es)
  {
    var rest := Split(Manifest(es), '\n');
    BulkLines(Manifest(es));
    TitleId();
    BulkIdsSkip(cache, disk, "", [BulkTitle] + ([""] + rest));
    BulkIdsSkip(cache, disk, BulkTitle, [""] + rest);
    BulkIdsSkip(cache, disk, "", rest);
    ManifestIds(cache, disk, es);
  }

  /** How bulkWriteTask fails. */
  datatype BulkError =
    | NoList                  // the text has no bulk header
    | NoTasks                 // the lines after it name no task the list knows
    | Invalid(text: string)   // the summary section has lines writeTask does not understand
    | NotAllUpdated           // some task could not be read or written

  /** Task files are named <id>.todo or <id>.done. */
  lemma TaskFileDot(id: string)
    ensures '.' in id + ".todo" && '.' in id + ".done"
  {
    assert (id + ".todo")[|id|] == '.' && (id + ".done")[|id|] == '.';
  }

  /** The directory and the fields of every cached task, by ID. */
  datatype World = World(disk: map<string, string>, views: map<string, View>)

  /** The cached tasks have the fields `views` gives them, and no other task is cached. */
  predicate Shows(cache: map<string, Task>, views: map<string, View>)
    reads cache.Values
  {
    cache.Keys == views.Keys && forall k :: k in cache ==> ViewOf(cache[k]) == views[k]
  }

  /** Every task's file name has an extension. */
  predicate FiledViews(views: map<string, View>) {
    forall id :: id in views ==> '.' in views[id].file
  }

  /** The fields `read` gives a task it parses from <id>.todo, else <id>.done. */
  function LoadView(disk: map<string, string>, id: string): View
    requires id + ".todo" in disk || id + ".done" in disk
  {
    var file := if id + ".todo" in disk then id + ".todo" else id + ".done";
    var st := ReadState(disk[file], HasSuffix(file, ".done"));
    View(file, st.hdr, disk[file], st.altIds, st.ctime, st.mtime)
  }

  /** `read` on values: the cached task, else the parsed file when it is readable, else nothing. */
  function ReadView(w: World, id: string): Option<View> {
    if id in w.views then Some(w.views[id])
    else if ReadableIn(w.disk, id) then Some(LoadView(w.disk, id))
    else None
  }

  /**
   * One task of a bulk edit on values: read it (caching it), then apply the
   * edit to it; whether both went well, and the world afterwards.
   */
  function BulkStep(w: World, id: string, updated: string, now: string, io: Faults): (r: (bool, World))
    requires FiledViews(w.views)
    ensures FiledViews(r.1.views)
  {
    match ReadView(w, id)
    case None => (false, w)
    case Some(v) =>
      TaskFileDot(id);
      UpdateMeaning(w.disk, id, v, updated, now, io);
      var u := UpdateEffect(w.disk, id, v, updated, now, io);
      (u.0 == None, World(u.2, w.views[id := u.1]))
  }

  /** The loop of bulkWriteTask on values: each ID in turn, the k-th meeting the faults `io(k)`. */
  function BulkRun(w: World, ids: seq<string>, updated: string, now: string, io: nat -> Faults): (r: (seq<bool>, World))
    requires FiledViews(w.views)
    ensures |r.0| == |ids| && FiledViews(r.1.views)
    decreases |ids|
  {
    if ids == [] then ([], w)
    else
      var n := |ids| - 1;
      var p := BulkRun(w, ids[..n], updated, now, io);
      var q := BulkStep(p.1, ids[n], updated, now, io(n));
      (p.0 + [q.0], q.1)
  }

  /** The IDs whose step failed, in order. */
  function FailedIds(ids: seq<string>, oks: seq<bool>): seq<string>
    requires |oks| == |ids|
  {
    if ids == [] then []
    else
      var n := |ids| - 1;
      FailedIds(ids[..n], oks[..n]) + (if oks[n] then [] else [ids[n]])
  }

  /** Only listed IDs fail, and none does exactly when every step succeeded. */
  lemma {:induction false} FailedIdsMeaning(ids: seq<string>, oks: seq<bool>)
    requires |oks| == |ids|
    ensures forall x :: x in FailedIds(ids, oks) ==> x in ids
    ensures FailedIds(ids, oks) == [] <==> forall k :: 0 <= k < |oks| ==> oks[k]
  {
    if ids != [] {
      var n := |ids| - 1;
      FailedIdsMeaning(ids[..n], oks[..n]);
      assert forall k :: 0 <= k < n ==> oks[..n][k] == oks[k];
      assert forall x :: x in ids[..n] ==> x in ids;
    }
  }

  /** What bulkWriteTask returns and leaves behind. */
  datatype BulkResult = BulkResult(ids: seq<string>, err: Option<BulkError>, failed: seq<string>, after: World)

  /**
   * bulkWriteTask on values, from the cache `cache` whose tasks have the
   * fields `w.views`: no bulk header, no known ID after it, or summary lines
   * without a colon stop it with nothing written; otherwise every listed ID
   * is read and edited in turn, and the error says whether some failed.
   */
  function BulkOutcome(cache: map<string, Task>, w: World, updated: string, now: string, io: nat -> Faults): BulkResult
    requires FiledViews(w.views)
  {
    var i := IndexOf(updated, BulkHeader);
    if i < 0 then BulkResult([], Some(NoList), [], w)
    else
      var listed := BulkIds(cache, w.disk, Split(updated[i..], '\n'));
      var s := Summarize(updated, New);
      if listed == [] then BulkResult([], Some(NoTasks), [], w)
      else if s.unknown != [] then BulkResult([], Some(Invalid(TrimSpace(Report(s.unknown)))), [], w)
      else
        var r := BulkRun(w, listed, updated, now, io);
        var failed := FailedIds(listed, r.0);
        BulkResult(listed, if failed == [] then None else Some(NotAllUpdated), failed, r.1)
  }

  /** A bulk step touches the directory and the task it names, and no other task. */
  lemma BulkStepLocal(w: World, id: string, updated: string, now: string, io: Faults)
    requires FiledViews(w.views)
    ensures var r := BulkStep(w, id, updated, now, io);
      && r.1.views.Keys == w.views.Keys + (if r.0 || ReadableIn(w.disk, id) then {id} else {})
      && (forall k :: k in w.views && k != id ==> r.1.views[k] == w.views[k])
      && (r.0 ==> id in r.1.views && (id in w.views || ReadableIn(w.disk, id)))
      && (ReadView(w, id).None? ==> r == (false, w))
  {
  }

  /**
   * The bulk edit's promises: the ways it stops before writing, and
   * otherwise that it returns the listed IDs, fails exactly when some step
   * failed, and names only listed IDs as failed.
   */
  lemma BulkOutcomeMeaning(cache: map<string, Task>, w: World, updated: string, now: string, io: nat -> Faults)
    requires FiledViews(w.views)
    ensures var r := BulkOutcome(cache, w, updated, now, io); var i := IndexOf(updated, BulkHeader);
      && (i < 0 ==> r.ids == [] && r.err == Some(NoList))
      && (i >= 0 ==> var listed := BulkIds(cache, w.disk, Split(updated[i..], '\n')); var s := Summarize(updated, New);
            && (listed == [] ==> r.ids == [] && r.err == Some(NoTasks))
            && (listed != [] && s.unknown != [] ==> r.ids == [] && r.err == Some(Invalid(TrimSpace(Report(s.unknown)))))
            && (listed != [] && s.unknown == [] ==>
                  && r.ids == listed
                  && (forall x :: x in r.failed ==> x in listed)
                  && (r.err == None <==> r.failed == [])))
      && (r.err.Some? && !r.err.value.NotAllUpdated? ==> r.after == w && r.failed == [])
  {
    var i := IndexOf(updated, BulkHeader);
    if i >= 0 {
      var listed := BulkIds(cache, w.disk, Split(updated[i..], '\n'));
      if listed != [] && Summarize(updated, New).unknown == [] {
        var run := BulkRun(w, listed, updated, now, io);
        var failed := FailedIds(listed, run.0);
        FailedIdsMeaning(listed, run.0);
        assert BulkOutcome(cache, w, updated, now, io)
          == BulkResult(listed, if failed == [] then None else Some(NotAllUpdated), failed, run.1);
      }
    }
  }

  /** Every task of a list whose tasks are filed is shown with an extension. */
  lemma ShowsFiled(l: List, views: map<string, View>)
    requires l.Filed() && Shows(l.cache, views)
    ensures FiledViews(views)
  {
    forall id | id in views
      ensures '.' in views[id].file
    {
      assert ViewOf(l.cache[id]) == views[id];
    }
  }

  /**
   * bulkWriteTask: find the bulk header, read the IDs after it, check the
   * summary section once, then apply the edit to every listed task, going on
   * past the ones that fail.  The k-th task's write meets the faults `io(k)`;
   * `views` are the fields of the cached tasks before.
   */
  method BulkWriteTask(l: List, updated: string, now: string, io: nat -> Faults, ghost views: map<string, View>)
    returns (ids: seq<string>, err: Option<BulkError>, failed: seq<string>)
    requires l.Valid() && l.Filed() && Shows(l.cache, views)
    modifies l`disk, l`cache, l`cacheMade, l.cache.Values
    ensures l.Valid() && l.Filed()
    ensures FiledViews(views) && var r := BulkOutcome(old(l.cache), World(old(l.disk), views), updated, now, io);
      && ids == r.ids && err == r.err && failed == r.failed
      && l.disk == r.after.disk && Shows(l.cache, r.after.views)
    ensures err.Some? && !err.value.NotAllUpdated? ==> l.disk == old(l.disk) && l.cache == old(l.cache)
  {
    ShowsFiled(l, views);
    failed := [];
    var i := IndexOf(updated, BulkHeader);
    if i < 0 {
      return [], Some(NoList), failed;
    }
    ids := ReadBulkIds(l, updated[i..]);
    if ids == [] {
      return [], Some(NoTasks), failed;
    }
    var e := CheckSummary(updated);
    if e.Some? {
      return [], Some(Invalid(e.value)), failed;
    }
    failed := WriteEach(l, ids, updated, now, io, views);
    err := if failed != [] then Some(NotAllUpdated) else None;
  }

  /**
   * The summary check of bulkWriteTask, writeTask with no task and isBulk
   * set: read the summary as for a new task, report its unknown lines, and
   * write nothing.
   */
  method CheckSummary(updated: string) returns (e: Option<string>)
    ensures var s := Summarize(updated, New);
      e == (if s.unknown != [] then Some(TrimSpace(Report(s.unknown))) else None)
  {
    var s := ReadSummary(updated, null);
    e := if s.unknown != [] then Some(TrimSpace(Report(s.unknown))) else None;
  }

  /** The loop of bulkWriteTask: every listed task in turn, whatever happened to the ones before. */
  method WriteEach(l: List, ids: seq<string>, updated: string, now: string, io: nat -> Faults, ghost views: map<string, View>)
    returns (failed: seq<string>)
    requires l.Valid() && l.Filed() && Shows(l.cache, views) && FiledViews(views)
    modifies l`disk, l`cache, l`cacheMade, l.cache.Values
    ensures l.Valid() && l.Filed()
    ensures var r := BulkRun(World(old(l.disk), views), ids, updated, now, io);
      l.disk == r.1.disk && Shows(l.cache, r.1.views) && failed == FailedIds(ids, r.0)
  {
    ghost var w := World(l.disk, views);
    ghost var oks: seq<bool> := [];
    ghost var now' := w;
    failed := [];
    for j := 0 to |ids|
      invariant l.Valid() && l.Filed()
      invariant forall t :: t in l.cache.Values ==> t in old(l.cache.Values) || fresh(t)
      invariant (oks, now') == BulkRun(w, ids[..j], updated, now, io)
      invariant l.disk == now'.disk && Shows(l.cache, now'.views)
      invariant failed == FailedIds(ids[..j], oks)
    {
      assert ids[..j + 1][..j] == ids[..j];
      var ok;
      ghost var next;
      ok, next := WriteOne(l, ids[j], updated, now, io(j), now'.views);
      assert (oks + [ok])[..j] == oks;
      oks, now' := oks + [ok], next;
      if !ok {
        failed := failed + [ids[j]];
      }
    }
    assert ids[..|ids|] == ids;
  }

  /** One task of a bulk edit: read it, then write the edit to it. */
  method WriteOne(l: List, id: string, updated: string, now: string, io: Faults, ghost views: map<string, View>)
    returns (ok: bool, ghost after: World)
    requires l.Valid() && l.Filed() && Shows(l.cache, views) && FiledViews(views)
    modifies l`disk, l`cache, l`cacheMade, l.cache.Values
    ensures l.Valid() && l.Filed()
    ensures forall t :: t in l.cache.Values ==> t in old(l.cache.Values) || fresh(t)
    ensures (ok, after) == BulkStep(World(old(l.disk), views), id, updated, now, io)
    ensures l.disk == after.disk && Shows(l.cache, after.views)
  {
    ghost var w := World(l.disk, views);
    var r := Fetch(l, id, views);
    ok := false;
    after := w;
    if r.Ok? {
      var t := r.value;
      assert t.id == id;
      TaskFileDot(id);
      ghost var v := ReadView(w, id).value;
      ghost var u := UpdateEffect(w.disk, id, v, updated, now, io);
      assert BulkStep(w, id, updated, now, io) == (u.0 == None, World(u.2, views[id := u.1]));
      ok := Update(l, t, updated, now, io, views[id := v]);
      Overwrite(views, id, v, u.1);
      after := World(u.2, views[id := u.1]);
    }
  }

  /** Overwriting a key twice keeps the second value. */
  lemma Overwrite(views: map<string, View>, id: string, a: View, b: View)
    ensures views[id := a][id := b] == views[id := b]
  {
  }

  /** `read` as a bulk edit issues it, on the world of values. */
  method Fetch(l: List, id: string, ghost views: map<string, View>) returns (r: Result<Task, Error>)
    requires l.Valid() && l.Filed() && Shows(l.cache, views)
    modifies l`cache, l`cacheMade
    ensures l.Valid() && l.Filed()
    ensures forall t :: t in l.cache.Values ==> t in old(l.cache.Values) || fresh(t)
    ensures var v := ReadView(World(l.disk, views), id);
      && (r.Ok? <==> v.Some?)
      && (r.Ok? ==> id in l.cache && l.cache[id] == r.value && ViewOf(r.value) == v.value
                    && Shows(l.cache, views[id := v.value]))
      && (r.Err? ==> l.cache == old(l.cache) && Shows(l.cache, views))
  {
    ghost var cache := l.cache;
    r := l.Read(id);
    assert Shows(cache, views);
    if r.Ok? && id !in cache {
      TaskFileDot(id);
      assert '.' in r.value.file;
      ShowsUpdate(cache, views, r.value);
    } else if r.Ok? {
      assert views[id := views[id]] == views;
    }
  }

  /** Caching a task under its ID adds its fields to what the cache shows. */
  lemma ShowsUpdate(cache: map<string, Task>, views: map<string, View>, t: Task)
    requires Shows(cache, views)
    ensures Shows(cache[t.id := t], views[t.id := ViewOf(t)])
  {
  }

  /** writeTask on a cached task of the list, as a bulk edit issues it. */
  method Update(l: List, t: Task, updated: string, now: string, io: Faults, ghost views: map<string, View>)
    returns (ok: bool)
    requires l.Valid() && l.Filed() && Shows(l.cache, views) && t.id in l.cache && l.cache[t.id] == t
    modifies l`disk, t`hdr, t`body, t`file
    ensures l.cache == old(l.cache) && l.Valid() && l.Filed()
    ensures var u := UpdateEffect(old(l.disk), t.id, views[t.id], updated, now, io);
      && ok == (u.0 == None) && ViewOf(t) == u.1 && l.disk == u.2
      && Shows(l.cache, views[t.id := u.1])
  {
    ghost var cache := l.cache;
    assert ViewOf(t) == views[t.id] && '.' in t.file;
    assert ShowsBut(cache, views, t);
    var _, e := Revise(l, t, updated, now, io);
    assert l.Valid();
    ok := e.None?;
    ShowsAgain(cache, views, t);
  }

  /** What the cache shows, except for the task `t`. */
  predicate ShowsBut(cache: map<string, Task>, views: map<string, View>, t: Task)
    reads cache.Values - {t}
  {
    cache.Keys == views.Keys && forall k :: k in cache && cache[k] != t ==> ViewOf(cache[k]) == views[k]
  }

  /** The cache shows the new fields of `t`, cached under its own ID, and those of the rest. */
  lemma ShowsAgain(cache: map<string, Task>, views: map<string, View>, t: Task)
    requires ShowsBut(cache, views, t) && t.id in cache && cache[t.id] == t
    requires forall k :: k in cache ==> cache[k].id == k
    ensures Shows(cache, views[t.id := ViewOf(t)])
  {
  }

  /**
   * editTask, once the editor is done: an unchanged document writes nothing;
   * a changed one goes to writeTask, whose outcome it returns.
   */
  method EditTask(l: List, original: string, updated: string, prev: Task?, now: string, io: Faults)
    returns (changed: bool, t: Task?, err: Option<EditError>)
    requires prev == null ==> l.Valid() && l.cacheMade
    requires prev != null ==> '.' in prev.file
    modifies l`disk, l`cache, prev
    ensures changed <==> updated != original
    ensures !changed ==>
      && t == null && err == None && l.disk == old(l.disk) && l.cache == old(l.cache)
      && (prev != null ==> unchanged(prev))
    ensures changed && prev != null ==>
      && l.cache == old(l.cache)
      && (err, ViewOf(prev), l.disk) == old(UpdateEffect(l.disk, prev.id, ViewOf(prev), updated, now, io))
    ensures var s := Summarize(updated, New);
      changed && prev == null ==>
        && (s.unknown != [] ==>
              t == null && err == Some(Format(TrimSpace(Report(s.unknown)))) && l.disk == old(l.disk) && l.cache == old(l.cache))
        && (s.unknown == [] && err.Some? ==> t == null && err.value.Creating? && l.disk == old(l.disk))
        && (s.unknown == [] && err.None? ==>
              && t != null && fresh(t) && l.cache == old(l.cache)[t.id := t]
              && Created(t, now, s.hdr, TrimSpace(updated[s.off..]))
              && t.file in l.disk && l.disk[t.file] == t.body)
  {
    if updated == original {
      return false, null, None;
    }
    t, err := WriteTask(l, prev, updated, false, now, io);
    changed := true;
  }

  /**
   * bulkEditTasks: render the bulk document, let `edit` (the editor) change
   * it; an unchanged document writes nothing, a changed one goes to
   * bulkWriteTask, whose outcome it returns.  `views` are the fields of the
   * cached tasks before.
   */
  method BulkEditTasks(l: List, tasks: seq<Task>, edit: string -> string, now: string, io: nat -> Faults,
                       ghost views: map<string, View>)
    returns (changed: bool, ids: seq<string>, err: Option<BulkError>)
    requires l.Valid() && l.Filed() && Shows(l.cache, views)
    modifies l`disk, l`cache, l`cacheMade, l.cache.Values
    ensures var original := old(BulkText(tasks));
      changed <==> edit(original) != original
    ensures !changed ==> ids == [] && err == None && l.disk == old(l.disk) && l.cache == old(l.cache)
    ensures changed ==>
      && FiledViews(views)
      && var r := BulkOutcome(old(l.cache), World(old(l.disk), views), edit(old(BulkText(tasks))), now, io);
      && ids == r.ids && err == r.err && l.disk == r.after.disk && Shows(l.cache, r.after.views)
  {
    var base, original := BulkEditStart(tasks);
    var updated := edit(original);
    if updated == original {
      return false, [], None;
    }
    var failed;
    ids, err, failed := BulkWriteTask(l, updated, now, io, views);
    changed := true;
  }

  /** Why bulkEditStartFromText returns no document. */
  datatype StartError =
    | NoneSelected            // the text names no task the list knows
    | Unreadable(cause: Error) // every named task failed to read; the last error

  /** The IDs `read` finds a task for, in order, repeats kept: those cached, and those whose file is readable. */
  function ReadIds(cache: map<string, Task>, disk: map<string, string>, ids: seq<string>): (r: seq<string>)
    ensures |r| <= |ids|
    ensures forall x :: x in r ==> x in ids && (x in cache || ReadableIn(disk, x))
    ensures forall x :: x in ids && (x in cache || ReadableIn(disk, x)) ==> x in r
  {
    if ids == [] then []
    else
      var n := |ids| - 1;
      var x := ids[n];
      assert forall y :: y in ids ==> y in ids[..n] || y == x;
      ReadIds(cache, disk, ids[..n]) + (if x in cache || ReadableIn(disk, x) then [x] else [])
  }

  /** The error `read` reports for an ID it finds no task for: no file at all, or a file that is not a task. */
  function ReadError(disk: map<string, string>, id: string): Error {
    if id + ".todo" in disk || id + ".done" in disk then Malformed else NotFound(id + ".todo")
  }

  /**
   * bulkEditStartFromText: the tasks named by the lines of `content`, those
   * that can be read, in order, rendered as a bulk document.  When none can
   * be read, the error is that of the last read.
   */
  method BulkEditStartFromText(l: List, content: string)
    returns (base: Task?, original: string, err: Option<StartError>, ghost all: seq<Task>)
    requires l.Valid()
    modifies l`cache, l`cacheMade
    ensures l.Valid()
    ensures var ids := BulkIds(old(l.cache), l.disk, Split(content, '\n')); var named := ReadIds(old(l.cache), l.disk, ids);
      && (ids == [] ==> base == null && err == Some(NoneSelected) && l.cache == old(l.cache))
      && Picked(all, named, l.cache)
      && (ids != [] && all == [] ==> base == null && err == Some(Unreadable(ReadError(l.disk, ids[|ids| - 1]))))
      && (all != [] ==>
            && err == None && base != null && fresh(base)
            && base.hdr == CommonHeader(Headers(all)) && original == BulkText(all))
    ensures Gathered(old(l.cache), l.cache, l.disk)
  {
    all := [];
    var ids := ReadBulkIds(l, content);
    if ids == [] {
      return null, "", Some(NoneSelected), all;
    }
    base, original, err, all := StartFromIds(l, ids);
  }

  /** The rest of bulkEditStartFromText, once some IDs were found: read them all, then render the ones read. */
  method StartFromIds(l: List, ids: seq<string>)
    returns (base: Task?, original: string, err: Option<StartError>, ghost all: seq<Task>)
    requires l.Valid() && ids != []
    modifies l`cache, l`cacheMade
    ensures l.Valid() && Gathered(old(l.cache), l.cache, l.disk)
    ensures var named := ReadIds(old(l.cache), l.disk, ids);
      && Picked(all, named, l.cache)
      && (all == [] ==> base == null && err == Some(Unreadable(ReadError(l.disk, ids[|ids| - 1]))))
      && (all != [] ==>
            && err == None && base != null && fresh(base)
            && base.hdr == CommonHeader(Headers(all)) && original == BulkText(all))
  {
    var tasks, last := ReadEach(l, ids);
    all := tasks;
    if tasks == [] {
      return null, "", Some(Unreadable(last.value)), all;
    }
    base, original := BulkEditStart(tasks);
    err := None;
  }

  /** The cache `now` holds every task of `start`, and the tasks it adds are parsed from readable files. */
  predicate Gathered(start: map<string, Task>, now: map<string, Task>, disk: map<string, string>)
    reads now.Values
  {
    && Grows(start, now)
    && forall x :: x in now && x !in start ==> ReadableIn(disk, x) && ViewOf(now[x]) == LoadView(disk, x)
  }

  /** Adding to the cache a task parsed from a readable file keeps it gathered. */
  lemma GatheredAdd(start: map<string, Task>, now: map<string, Task>, disk: map<string, string>, id: string, t: Task)
    requires Gathered(start, now, disk) && id !in now
    requires ReadableIn(disk, id) && ViewOf(t) == LoadView(disk, id)
    ensures Gathered(start, now[id := t], disk)
  {
    forall x | x in now[id := t] && x !in start
      ensures ReadableIn(disk, x) && ViewOf(now[id := t][x]) == LoadView(disk, x)
    {
      if x != id {
        assert now[id := t][x] == now[x];
      }
    }
  }

  /** `all` are the tasks the cache `c` holds under the IDs `named`, in order. */
  predicate Picked(all: seq<Task>, named: seq<string>, c: map<string, Task>) {
    |all| == |named| && forall k :: 0 <= k < |all| ==> named[k] in c && all[k] == c[named[k]]
  }

  lemma PickedGrows(all: seq<Task>, named: seq<string>, a: map<string, Task>, b: map<string, Task>, id: string)
    requires Picked(all, named, a) && Grows(a, b)
    ensures Picked(all, named, b)
    ensures id in b ==> Picked(all + [b[id]], named + [id], b)
  {
    assert forall k :: 0 <= k < |all| ==> named[k] in a;
  }

  /** The loop of bulkEditStartFromText: read every ID in turn, keeping the tasks found and the last error. */
  method ReadEach(l: List, ids: seq<string>) returns (all: seq<Task>, last: Option<Error>)
    requires l.Valid() && ids != []
    modifies l`cache, l`cacheMade
    ensures l.Valid() && Gathered(old(l.cache), l.cache, l.disk)
    ensures var named := ReadIds(old(l.cache), l.disk, ids);
      && Picked(all, named, l.cache)
      && (all == [] ==> last == Some(ReadError(l.disk, ids[|ids| - 1])))
  {
    ghost var cache := l.cache;
    all, last := [], None;
    for j := 0 to |ids|
      invariant l.Valid() && Gathered(cache, l.cache, l.disk)
      invariant Picked(all, ReadIds(cache, l.disk, ids[..j]), l.cache)
      invariant j > 0 && ReadIds(cache, l.disk, ids[..j]) == [] ==> last == Some(ReadError(l.disk, ids[j - 1]))
    {
      ghost var named := ReadIds(cache, l.disk, ids[..j]);
      ghost var before := l.cache;
      assert ids[..j + 1][..j] == ids[..j];
      var r := ReadOne(l, ids[j], cache);
      assert ReadIds(cache, l.disk, ids[..j + 1]) == named + (if r.Ok? then [ids[j]] else []);
      if r.Ok? {
        PickedGrows(all, named, before, l.cache, ids[j]);
        all := all + [r.value];
      } else {
        PickedGrows(all, named, before, l.cache, ids[j]);
        last := Some(r.error);
      }
    }
    assert ids[..|ids|] == ids;
  }

  /**
   * One read of that loop: it finds the task exactly when the ID was cached
   * at the start (`cache`) or its file is readable, and otherwise reports
   * the error for the ID; the cache only grows, by readable tasks.
   */
  method ReadOne(l: List, id: string, ghost cache: map<string, Task>) returns (r: Result<Task, Error>)
    requires l.Valid() && Gathered(cache, l.cache, l.disk)
    modifies l`cache, l`cacheMade
    ensures l.Valid() && Gathered(cache, l.cache, l.disk) && Grows(old(l.cache), l.cache)
    ensures r.Ok? <==> id in cache || ReadableIn(l.disk, id)
    ensures r.Ok? ==> id in l.cache && l.cache[id] == r.value
    ensures r.Err? ==> r.error == ReadError(l.disk, id) && l.cache == old(l.cache)
  {
    ghost var before := l.cache;
    r := ReadFrom(l, id, cache);
    if l.cache != before {
      GatheredAdd(cache, before, l.disk, id, r.value);
    }
  }

  /** `read` itself: the cache either stays or gains the task parsed from the readable file. */
  method ReadFrom(l: List, id: string, ghost cache: map<string, Task>) returns (r: Result<Task, Error>)
    requires l.Valid() && Gathered(cache, l.cache, l.disk)
    modifies l`cache, l`cacheMade
    ensures l.Valid() && Gathered(cache, old(l.cache), l.disk)
    ensures r.Ok? <==> id in cache || ReadableIn(l.disk, id)
    ensures r.Ok? ==> id in l.cache && l.cache[id] == r.value
    ensures r.Err? ==> r.error == ReadError(l.disk, id)
    ensures l.cache == old(l.cache) || (
      && id !in old(l.cache) && r.Ok? && l.cache == old(l.cache)[id := r.value]
      && ReadableIn(l.disk, id) && ViewOf(r.value) == LoadView(l.disk, id))
  {
    r := l.Read(id);
  }



}
