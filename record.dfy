/**
 * The on-disk record format of a task file (task/task.go).
 *
 * A task file is a sequence of blocks.  Each block is a marker line
 * `— <timestamp> —`, then `key: value` header lines, then a blank line, then
 * free comment text.  Reading a file replays its lines in order; writing a
 * task appends one block.
 */
module Record {
  import opened Text
  import opened Order

  const EmSpace: string := "— "
  const SpaceEm: string := " —"
  const NlEmSpace: string := "\n— "

  /** isMarker: starts with "— ", ends with " —", and the two do not overlap. */
  predicate IsMarker(line: string) {
    HasPrefix(line, EmSpace) && HasSuffix(line, SpaceEm) && |line| >= 2 * |EmSpace|
  }

  /** The trimmed timestamp between the dashes of a marker line. */
  function Stamp(line: string): string
    requires IsMarker(line)
  {
    TrimSpace(line[|EmSpace|..|line| - |EmSpace|])
  }

  // ---------------------------------------------------------------------------
  // Reading

  /** What `read` accumulates while it walks the lines of a file. */
  datatype ParseState = ParseState(
    hdr: map<string, string>,
    altIds: seq<string>,
    ctime: string,
    mtime: string,
    inHeader: bool)

  /** The state before the first line: a `.done` file starts with done: done. */
  function Seed(isDone: bool): ParseState {
    ParseState(if isDone then map["done" := "done"] else map[], [], "", "", false)
  }

  /** The header key of a `key: value` line whose first colon is at `i`. */
  function LineKey(line: string, i: nat): string
    requires i < |line|
  {
    ToLower(TrimSpace(line[..i]))
  }

  function LineValue(line: string, i: nat): string
    requires i < |line|
  {
    TrimSpace(line[i + 1..])
  }

  /** How the line loop in `read` sees one line, before it looks at its own state. */
  datatype LineKind =
    | Marker(ts: string)
    | Blank
    | NoColon
    | Field(key: string, value: string)

  function Classify(line: string): LineKind {
    if IsMarker(line) then Marker(Stamp(line))
    else if TrimSpace(line) == [] then Blank
    else
      var i := IndexChar(line, ':');
      if i < 0 then NoColon else Field(LineKey(line, i), LineValue(line, i))
  }

  /** A header field inside a header: `#id` is an alternate ID, other `#` keys are skipped, "" deletes. */
  function SetField(st: ParseState, k: string, v: string): (r: ParseState)
    ensures r.ctime == st.ctime && r.mtime == st.mtime && r.inHeader == st.inHeader
    ensures r.altIds == (if k == "#id" then st.altIds + [v] else st.altIds)
    ensures k == "#id" || HasPrefix(k, "#") ==> r.hdr == st.hdr
  {
    if k == "#id" then st.(altIds := st.altIds + [v])
    else if HasPrefix(k, "#") then st
    else if v == "" then st.(hdr := st.hdr - {k})
    else st.(hdr := st.hdr[k := v])
  }

  /** One iteration of the line loop in `read`. */
  function Step(st: ParseState, line: string): ParseState {
    match Classify(line)
    case Marker(ts) => st.(ctime := if st.ctime == "" then ts else st.ctime, mtime := ts, inHeader := true)
    case Blank => st.(inHeader := false)
    case NoColon => if st.inHeader then st.(inHeader := false) else st
    case Field(k, v) => if st.inHeader then SetField(st, k, v) else st
  }

  /** A marker line sets the times and opens a header. */
  lemma StepMarker(st: ParseState, line: string)
    requires IsMarker(line)
    ensures Step(st, line) == st.(
      ctime := if st.ctime == "" then Stamp(line) else st.ctime, mtime := Stamp(line), inHeader := true)
  {
  }

  /** Any other line keeps the times. */
  lemma StepKeepsTimes(st: ParseState, line: string)
    requires !IsMarker(line)
    ensures Step(st, line).ctime == st.ctime && Step(st, line).mtime == st.mtime
  {
    assert !Classify(line).Marker?;
  }

  /** A line adds at most one alternate ID, at the end. */
  lemma StepAltIds(st: ParseState, line: string)
    ensures var a := Step(st, line).altIds; a == st.altIds || exists v :: a == st.altIds + [v]
  {
    var c := Classify(line);
    if c.Field? {
      StepField(st, line, c.key, c.value);
    }
  }

  /** The state after the loop has seen `lines`, in order. */
  function Replay(lines: seq<string>, st: ParseState): ParseState {
    if lines == [] then st
    else Step(Replay(lines[..|lines| - 1], st), lines[|lines| - 1])
  }

  /** The task state `read` builds from the contents `d` of a file. */
  function ReadState(d: string, isDone: bool): ParseState {
    Replay(Split(d, '\n'), Seed(isDone))
  }

  lemma {:induction false} ReplayAppend(a: seq<string>, b: seq<string>, st: ParseState)
    ensures Replay(a + b, st) == Replay(b, Replay(a, st))
    decreases |b|
  {
    if b == [] {
      assert a + b == a;
    } else {
      assert (a + b)[..|a + b| - 1] == a + b[..|b| - 1];
      ReplayAppend(a, b[..|b| - 1], st);
    }
  }

  /**
   * `a` is `b` with the done: done a `.done` file is seeded with, and `b` has
   * no "done" key of its own.
   */
  predicate SeededApart(a: ParseState, b: ParseState) {
    a == b || ("done" !in b.hdr && a == b.(hdr := b.hdr["done" := "done"]))
  }

  /** A line sets or deletes "done" in both states, or leaves the difference as it was. */
  lemma StepSeededApart(a: ParseState, b: ParseState, line: string)
    requires SeededApart(a, b)
    ensures SeededApart(Step(a, line), Step(b, line))
  {
    var c := Classify(line);
    if c.Field? && b.inHeader {
      SetFieldSeededApart(a, b, c.key, c.value);
    }
  }

  /** A header field keeps two states seeded apart, or makes them agree when it is "done". */
  lemma SetFieldSeededApart(a: ParseState, b: ParseState, k: string, v: string)
    requires SeededApart(a, b)
    ensures SeededApart(SetField(a, k, v), SetField(b, k, v))
  {
    if a != b && k != "#id" && !HasPrefix(k, "#") {
      if k == "done" {
        if v == "" {
          assert a.hdr - {k} == b.hdr;
        } else {
          assert a.hdr[k := v] == b.hdr[k := v];
        }
      } else if v == "" {
        assert a.hdr - {k} == (b.hdr - {k})["done" := "done"];
      } else {
        assert a.hdr[k := v] == b.hdr[k := v]["done" := "done"];
      }
    }
  }

  lemma {:induction false} ReplaySeededApart(lines: seq<string>, a: ParseState, b: ParseState)
    requires SeededApart(a, b)
    ensures SeededApart(Replay(lines, a), Replay(lines, b))
  {
    if lines != [] {
      var init := lines[..|lines| - 1];
      ReplaySeededApart(init, a, b);
      StepSeededApart(Replay(init, a), Replay(init, b), lines[|lines| - 1]);
    }
  }

  /**
   * The done seed: reading contents as a `.done` file gives what reading them
   * as a `.todo` file gives, plus done: done when no header line of the file
   * has set or deleted "done" (then nothing else differs).
   */
  lemma ReadStateSeed(d: string)
    ensures SeededApart(ReadState(d, true), ReadState(d, false))
  {
    assert Seed(true) == Seed(false).(hdr := map[]["done" := "done"]);
    ReplaySeededApart(Split(d, '\n'), Seed(true), Seed(false));
  }

  /** The timestamps of the marker lines, in file order. */
  function Stamps(lines: seq<string>): seq<string> {
    if lines == [] then []
    else
      var last := lines[|lines| - 1];
      Stamps(lines[..|lines| - 1]) + (if IsMarker(last) then [Stamp(last)] else [])
  }

  /** The first non-empty string of `ss`, or "" when there is none. */
  function FirstNonEmpty(ss: seq<string>): (r: string)
    ensures r == "" <==> forall i :: 0 <= i < |ss| ==> ss[i] == ""
  {
    if ss == [] then ""
    else if ss[0] != "" then ss[0]
    else FirstNonEmpty(ss[1..])
  }

  /** A non-empty result is an element of `ss`, preceded only by empty ones. */
  lemma {:induction false} FirstNonEmptyIsFirst(ss: seq<string>)
    requires FirstNonEmpty(ss) != ""
    ensures exists i :: 0 <= i < |ss| && ss[i] == FirstNonEmpty(ss) && forall j :: 0 <= j < i ==> ss[j] == ""
  {
    if ss[0] != "" {
      assert ss[0] == FirstNonEmpty(ss);
    } else {
      FirstNonEmptyIsFirst(ss[1..]);
      var i :| 0 <= i < |ss[1..]| && ss[1..][i] == FirstNonEmpty(ss[1..]) && forall j :: 0 <= j < i ==> ss[1..][j] == "";
      assert ss[i + 1] == FirstNonEmpty(ss) && forall j :: 0 <= j < i + 1 ==> ss[j] == "";
    }
  }

  lemma {:induction false} FirstNonEmptySnoc(ss: seq<string>, x: string)
    ensures FirstNonEmpty(ss + [x]) == if FirstNonEmpty(ss) != "" then FirstNonEmpty(ss) else x
  {
    if ss == [] {
    } else {
      assert (ss + [x])[1..] == ss[1..] + [x];
      FirstNonEmptySnoc(ss[1..], x);
    }
  }

  /**
   * `mtime` is the timestamp of the last marker and `ctime` the first
   * non-empty one (a marker with an empty timestamp leaves ctime unset).
   */
  lemma {:induction false} ReplayTimes(lines: seq<string>, st: ParseState)
    requires st.ctime == ""
    ensures var r := Replay(lines, st);
      && r.ctime == FirstNonEmpty(Stamps(lines))
      && r.mtime == (if Stamps(lines) == [] then st.mtime else Stamps(lines)[|Stamps(lines)| - 1])
  {
    if lines != [] {
      var init := lines[..|lines| - 1];
      ReplayTimes(init, st);
      var last := lines[|lines| - 1];
      assert Replay(lines, st) == Step(Replay(init, st), last);
      if IsMarker(last) {
        StepMarker(Replay(init, st), last);
        assert Stamps(lines) == Stamps(init) + [Stamp(last)];
        FirstNonEmptySnoc(Stamps(init), Stamp(last));
      } else {
        StepKeepsTimes(Replay(init, st), last);
        assert Stamps(lines) == Stamps(init) + [];
        assert Stamps(lines) == Stamps(init);
      }
    }
  }

  /** Header keys are lower case, trimmed and never `#` keys; values are trimmed and non-empty. */
  predicate WellFormedHeader(hdr: map<string, string>) {
    forall k :: k in hdr ==>
      && IsLower(k) && TrimSpace(k) == k && !HasPrefix(k, "#")
      && hdr[k] != "" && TrimSpace(hdr[k]) == hdr[k]
  }

  lemma ToLowerIdempotent(s: string)
    ensures IsLower(ToLower(s))
  {
  }

  /** Lower-casing ASCII letters does not move the space characters. */
  lemma TrimSpaceOfLower(s: string)
    requires TrimSpace(s) == s
    ensures TrimSpace(ToLower(s)) == ToLower(s)
  {
    var l := ToLower(s);
    if s != [] {
      assert !IsSpace(s[0]) && !IsSpace(s[|s| - 1]);
      assert !IsSpace(l[0]) && !IsSpace(l[|l| - 1]);
      TrimSpaceOfTrimmed(l);
    }
  }

  lemma KeyIsLowerAndTrimmed(x: string)
    ensures IsLower(ToLower(TrimSpace(x)))
    ensures TrimSpace(ToLower(TrimSpace(x))) == ToLower(TrimSpace(x))
  {
    ToLowerIdempotent(TrimSpace(x));
    TrimSpaceIdempotent(x);
    TrimSpaceOfLower(TrimSpace(x));
  }

  lemma UpdateWellFormed(m: map<string, string>, k: string, v: string)
    requires WellFormedHeader(m)
    requires IsLower(k) && TrimSpace(k) == k && !HasPrefix(k, "#")
    requires v != "" && TrimSpace(v) == v
    ensures WellFormedHeader(m[k := v])
  {
  }

  lemma StepWellFormed(st: ParseState, line: string)
    requires WellFormedHeader(st.hdr)
    ensures WellFormedHeader(Step(st, line).hdr)
  {
    match Classify(line)
    case Field(k, v) =>
      var i := IndexChar(line, ':');
      assert k == LineKey(line, i) && v == LineValue(line, i);
      KeyIsLowerAndTrimmed(line[..i]);
      TrimSpaceIdempotent(line[i + 1..]);
      if k != "#id" && !HasPrefix(k, "#") && v != "" {
        UpdateWellFormed(st.hdr, k, v);
      }
    case _ =>
  }

  /** Replaying any lines keeps the header well formed. */
  lemma {:induction false} ReplayWellFormed(lines: seq<string>, st: ParseState)
    requires WellFormedHeader(st.hdr)
    ensures WellFormedHeader(Replay(lines, st).hdr)
  {
    if lines != [] {
      ReplayWellFormed(lines[..|lines| - 1], st);
      StepWellFormed(Replay(lines[..|lines| - 1], st), lines[|lines| - 1]);
    }
  }

  lemma SeedWellFormed(isDone: bool)
    ensures WellFormedHeader(Seed(isDone).hdr)
  {
    if isDone {
      assert IsLower("done") by {
        assert ToLower("done") == "done";
      }
      assert !HasPrefix("done", "#") by {
        assert "done"[..1][0] == 'd';
      }
      TrimSpaceOfTrimmed("done");
      var empty: map<string, string> := map[];
      UpdateWellFormed(empty, "done", "done");
      assert Seed(isDone).hdr == empty["done" := "done"];
    }
  }

  /** A freshly read task has a well-formed header. */
  lemma ReadStateWellFormed(d: string, isDone: bool)
    ensures WellFormedHeader(ReadState(d, isDone).hdr)
  {
    SeedWellFormed(isDone);
    ReplayWellFormed(Split(d, '\n'), Seed(isDone));
  }

  /** Alternate IDs are only ever appended: earlier ones keep their place. */
  lemma {:induction false} ReplayAltIdsGrow(lines: seq<string>, st: ParseState)
    ensures var r := Replay(lines, st).altIds; |st.altIds| <= |r| && r[..|st.altIds|] == st.altIds
  {
    if lines != [] {
      var init := lines[..|lines| - 1];
      ReplayAltIdsGrow(init, st);
      var a := Replay(init, st).altIds;
      var b := Replay(lines, st).altIds;
      assert Replay(lines, st) == Step(Replay(init, st), lines[|lines| - 1]);
      StepAltIds(Replay(init, st), lines[|lines| - 1]);
      if b != a {
        var v :| b == a + [v];
        assert b[..|st.altIds|] == a[..|st.altIds|];
      }
    }
  }

  predicate NoMarkers(lines: seq<string>) {
    forall i :: 0 <= i < |lines| ==> !IsMarker(lines[i])
  }

  lemma NoMarkersPrefix(lines: seq<string>, n: nat)
    requires NoMarkers(lines) && n <= |lines|
    ensures NoMarkers(lines[..n])
  {
    forall i | 0 <= i < n ensures !IsMarker(lines[..n][i]) {
      assert lines[..n][i] == lines[i];
    }
  }

  lemma NoMarkersAppend(a: seq<string>, b: seq<string>)
    requires NoMarkers(a) && NoMarkers(b)
    ensures NoMarkers(a + b)
  {
    forall i | 0 <= i < |a + b| ensures !IsMarker((a + b)[i]) {
      if i < |a| {
        assert (a + b)[i] == a[i];
      } else {
        assert (a + b)[i] == b[i - |a|];
      }
    }
  }

  /** Outside a header, lines that are not markers change nothing. */
  lemma {:induction false} ReplayQuiet(lines: seq<string>, st: ParseState)
    requires !st.inHeader
    requires NoMarkers(lines)
    ensures Replay(lines, st) == st
  {
    if lines != [] {
      ReplayQuiet(lines[..|lines| - 1], st);
    }
  }

  // ---------------------------------------------------------------------------
  // Writing

  /** The header update of `write`: each key in turn is set to hdr[k], or deleted when that is "". */
  function ApplyKeys(m: map<string, string>, keys: seq<string>, hdr: map<string, string>): map<string, string> {
    if keys == [] then m
    else
      var k := keys[|keys| - 1];
      var prev := ApplyKeys(m, keys[..|keys| - 1], hdr);
      if Lookup(hdr, k) == "" then prev - {k} else prev[k := hdr[k]]
  }

  /** After the update, a listed key holds its new value (or is gone) and every other key is untouched. */
  lemma {:induction false} ApplyKeysSpec(m: map<string, string>, keys: seq<string>, hdr: map<string, string>)
    ensures var r := ApplyKeys(m, keys, hdr);
      && (forall k :: k in keys ==> (k in r <==> Lookup(hdr, k) != "") && (k in r ==> r[k] == hdr[k]))
      && (forall k :: k !in keys ==> (k in r <==> k in m) && (k in r ==> r[k] == m[k]))
  {
    if keys != [] {
      ApplyKeysSpec(m, keys[..|keys| - 1], hdr);
      assert keys == keys[..|keys| - 1] + [keys[|keys| - 1]];
    }
  }

  /** The header update after key j is the one before it, with key j applied. */
  lemma ApplyKeysTake(m: map<string, string>, keys: seq<string>, hdr: map<string, string>, j: nat)
    requires j < |keys|
    ensures ApplyKeys(m, keys[..j + 1], hdr)
      == var prev := ApplyKeys(m, keys[..j], hdr);
         if Lookup(hdr, keys[j]) == "" then prev - {keys[j]} else prev[keys[j] := hdr[keys[j]]]
  {
    assert keys[..j + 1][..j] == keys[..j];
  }

  function MarkerLine(now: string): string {
    EmSpace + now + SpaceEm
  }

  function HeaderLine(k: string, v: string): string {
    k + ": " + v
  }

  /** The `key: value` lines of a block, one per key, values taken from hdr (missing means ""). */
  function HeaderLines(keys: seq<string>, hdr: map<string, string>): string {
    if keys == [] then ""
    else
      var k := keys[|keys| - 1];
      HeaderLines(keys[..|keys| - 1], hdr) + HeaderLine(k, Lookup(hdr, k)) + "\n"
  }

  function HeaderLineSeq(keys: seq<string>, hdr: map<string, string>): (r: seq<string>)
    ensures |r| == |keys|
    ensures forall i :: 0 <= i < |keys| ==> r[i] == HeaderLine(keys[i], Lookup(hdr, keys[i]))
  {
    seq(|keys|, i requires 0 <= i < |keys| => HeaderLine(keys[i], Lookup(hdr, keys[i])))
  }

  /** A comment as appended: a non-empty one ends in a newline and is followed by one blank line. */
  function CommentText(comment: string): (r: string)
    ensures comment == [] ==> r == []
    ensures comment != [] ==> HasPrefix(r, comment) && HasSuffix(r, "\n\n")
    ensures comment != [] && comment[|comment| - 1] == '\n' ==> r == comment + "\n"
    ensures comment != [] && comment[|comment| - 1] != '\n' ==> r == comment + "\n\n"
  {
    if comment == [] then []
    else if comment[|comment| - 1] != '\n' then comment + "\n" + "\n"
    else comment + "\n"
  }

  /** The block `write` appends for one update. */
  function Block(now: string, keys: seq<string>, hdr: map<string, string>, comment: string): string {
    MarkerLine(now) + "\n" + HeaderLines(keys, hdr) + "\n" + CommentText(comment)
  }

  lemma BlockEndsInNewline(now: string, keys: seq<string>, hdr: map<string, string>, comment: string)
    ensures HasSuffix(Block(now, keys, hdr, comment), "\n")
  {
    var b := Block(now, keys, hdr, comment);
    assert b[|b| - 1] == '\n';
  }

  /** The keys `write` can emit so that `read` finds them again. */
  predicate WritableKey(k: string) {
    && k != [] && TrimSpace(k) == k && IsLower(k)
    && ':' !in k && '\n' !in k
    && !HasPrefix(k, "#") && !HasPrefix(k, EmSpace)
  }

  predicate WritableValue(v: string) {
    TrimSpace(v) == v && '\n' !in v
  }

  /** A comment none of whose lines would be taken for a marker. */
  predicate QuietComment(comment: string) {
    NoMarkers(Split(comment, '\n'))
  }

  predicate BlockArgs(now: string, keys: seq<string>, hdr: map<string, string>, comment: string) {
    '\n' !in now && WritableHeader(keys, hdr) && QuietComment(comment)
  }

  lemma HeaderLineSeqSnoc(keys: seq<string>, hdr: map<string, string>)
    requires keys != []
    ensures HeaderLineSeq(keys, hdr)
      == HeaderLineSeq(keys[..|keys| - 1], hdr) + [HeaderLine(keys[|keys| - 1], Lookup(hdr, keys[|keys| - 1]))]
  {
  }

  /** Neither the keys nor their values hold a newline. */
  predicate OneLineEntries(keys: seq<string>, hdr: map<string, string>) {
    forall i :: 0 <= i < |keys| ==> '\n' !in keys[i] && '\n' !in Lookup(hdr, keys[i])
  }

  lemma OneLineEntriesInit(keys: seq<string>, hdr: map<string, string>)
    requires keys != [] && OneLineEntries(keys, hdr)
    ensures OneLineEntries(keys[..|keys| - 1], hdr)
    ensures '\n' !in HeaderLine(keys[|keys| - 1], Lookup(hdr, keys[|keys| - 1]))
  {
    var init := keys[..|keys| - 1];
    forall i | 0 <= i < |init| ensures '\n' !in init[i] && '\n' !in Lookup(hdr, init[i]) {
      assert init[i] == keys[i];
    }
  }

  lemma {:induction false} SplitHeaderLines(keys: seq<string>, hdr: map<string, string>, rest: string)
    requires OneLineEntries(keys, hdr)
    ensures Split(HeaderLines(keys, hdr) + rest, '\n') == HeaderLineSeq(keys, hdr) + Split(rest, '\n')
  {
    if keys == [] {
      assert HeaderLines(keys, hdr) + rest == rest;
    } else {
      var init := keys[..|keys| - 1];
      var k := keys[|keys| - 1];
      var line := HeaderLine(k, Lookup(hdr, k));
      OneLineEntriesInit(keys, hdr);
      SplitHeaderLines(init, hdr, line + "\n" + rest);
      SplitLineAfter(HeaderLines(init, hdr), line, rest, HeaderLineSeq(init, hdr));
      HeaderLineSeqSnoc(keys, hdr);
    }
  }

  lemma SplitLineAfter(a: string, line: string, rest: string, pre: seq<string>)
    requires '\n' !in line
    requires Split(a + (line + "\n" + rest), '\n') == pre + Split(line + "\n" + rest, '\n')
    ensures Split(a + line + "\n" + rest, '\n') == pre + [line] + Split(rest, '\n')
  {
    AppendAssoc(a, line + "\n", rest);
    AppendAssoc(a, line, "\n");
    SplitCons(line, rest, '\n');
    AppendAssoc(pre, [line], Split(rest, '\n'));
  }

  lemma BlockLines(now: string, keys: seq<string>, hdr: map<string, string>, comment: string)
    requires '\n' !in now
    requires OneLineEntries(keys, hdr)
    ensures Split(Block(now, keys, hdr, comment), '\n')
      == [MarkerLine(now)] + HeaderLineSeq(keys, hdr) + [""] + Split(CommentText(comment), '\n')
  {
    var m := MarkerLine(now);
    var c := CommentText(comment);
    var hl := HeaderLines(keys, hdr);
    var hs := HeaderLineSeq(keys, hdr);
    var sc := Split(c, '\n');
    AppendAssoc(m + "\n", hl + "\n", c);
    AppendAssoc(m + "\n", hl, "\n");
    AppendAssoc(hl, "\n", c);
    MarkerLineOneLine(now);
    SplitCons(m, hl + ("\n" + c), '\n');
    SplitHeaderLines(keys, hdr, "\n" + c);
    SplitCons("", c, '\n');
    assert "" + "\n" + c == "\n" + c;
    AppendAssoc(hs, [""], sc);
    AppendAssoc([m], hs + [""], sc);
    AppendAssoc([m], hs, [""]);
  }

  lemma MarkerLineOneLine(now: string)
    requires '\n' !in now
    ensures '\n' !in MarkerLine(now)
  {
  }

  /** A comment without its one trailing newline, if it has one. */
  function Chomp(comment: string): string {
    if comment != [] && comment[|comment| - 1] == '\n' then comment[..|comment| - 1] else comment
  }

  lemma SplitTwoBlankLines(body: string)
    ensures Split(body + "\n" + ("" + "\n" + ""), '\n') == Split(body, '\n') + ["", ""]
  {
    SplitSep(body, "" + "\n" + "", '\n');
    SplitSep("", "", '\n');
    SplitNoSep("", '\n');
  }

  lemma SplitChomp(comment: string)
    ensures var c := Split(Chomp(comment), '\n'); var d := Split(comment, '\n');
      |c| <= |d| && c == d[..|c|]
  {
    if comment != [] && comment[|comment| - 1] == '\n' {
      var body := comment[..|comment| - 1];
      assert comment == body + "\n" + "";
      SplitSep(body, "", '\n');
      SplitNoSep("", '\n');
    }
  }

  lemma CommentTextLines(comment: string)
    ensures Split(CommentText(comment), '\n')
      == if comment == [] then [""] else Split(Chomp(comment), '\n') + ["", ""]
  {
    if comment == [] {
      SplitNoSep("", '\n');
    } else {
      assert CommentText(comment) == Chomp(comment) + "\n" + ("" + "\n" + "");
      SplitTwoBlankLines(Chomp(comment));
    }
  }

  lemma CommentLinesQuiet(comment: string)
    requires QuietComment(comment)
    ensures NoMarkers(Split(CommentText(comment), '\n'))
  {
    CommentTextLines(comment);
    assert !IsMarker("");
    if comment != [] {
      SplitChomp(comment);
      var c := Split(Chomp(comment), '\n');
      NoMarkersPrefix(Split(comment, '\n'), |c|);
      NoMarkersAppend(c, ["", ""]);
    }
  }

  lemma TrimSpaceAfterSpace(v: string)
    requires TrimSpace(v) == v
    ensures TrimSpace(" " + v) == v
  {
    var t := " " + v;
    assert t[1..] == v;
    assert TrimLeft(t) == TrimLeft(v) by {
      assert IsSpace(t[0]);
    }
    assert TrimLeft(v) == v by {
      if v != [] {
        assert !IsSpace(v[0]);
      }
    }
    assert TrimSpace(t) == TrimRight(TrimLeft(t));
    assert TrimSpace(v) == TrimRight(TrimLeft(v));
  }

  lemma HeaderLineNotMarker(k: string, v: string)
    requires k != [] && !HasPrefix(k, EmSpace)
    ensures !IsMarker(HeaderLine(k, v))
  {
    var line := HeaderLine(k, v);
    if |k| >= 2 {
      assert line[..2] == k[..2];
    } else {
      assert line[1] == ':';
    }
  }

  lemma HeaderLineColon(k: string, v: string)
    requires ':' !in k
    ensures IndexChar(HeaderLine(k, v), ':') == |k|
  {
    var line := HeaderLine(k, v);
    assert line[|k|] == ':';
    forall j | 0 <= j < |k| ensures line[j] != ':' {
      assert line[j] == k[j];
    }
  }

  lemma HeaderLineKey(k: string, v: string)
    requires TrimSpace(k) == k && IsLower(k)
    ensures |k| < |HeaderLine(k, v)|
    ensures LineKey(HeaderLine(k, v), |k|) == k
  {
    assert HeaderLine(k, v)[..|k|] == k;
  }

  lemma HeaderLineValue(k: string, v: string)
    requires TrimSpace(v) == v
    ensures |k| < |HeaderLine(k, v)|
    ensures LineValue(HeaderLine(k, v), |k|) == v
  {
    HeaderLineTail(k, v);
    TrimSpaceAfterSpace(v);
  }

  lemma HeaderLineTail(k: string, v: string)
    ensures HeaderLine(k, v)[|k| + 1..] == " " + v
  {
  }

  lemma HeaderLineNotBlank(k: string, v: string)
    requires k != [] && !IsSpace(k[0])
    ensures TrimSpace(HeaderLine(k, v)) != []
  {
    assert HeaderLine(k, v)[0] == k[0];
  }

  lemma ClassifyField(line: string, k: string, v: string)
    requires !IsMarker(line) && TrimSpace(line) != []
    requires IndexChar(line, ':') >= 0
    requires LineKey(line, IndexChar(line, ':')) == k && LineValue(line, IndexChar(line, ':')) == v
    ensures Classify(line) == Field(k, v)
  {
  }

  lemma StepField(st: ParseState, line: string, k: string, v: string)
    requires Classify(line) == Field(k, v)
    ensures Step(st, line) == if st.inHeader then SetField(st, k, v) else st
  {
  }

  /** Replaying one written header line applies that key's update. */
  lemma StepHeaderLine(st: ParseState, k: string, hdr: map<string, string>)
    requires st.inHeader && WritableKey(k) && WritableValue(Lookup(hdr, k))
    ensures var r := Step(st, HeaderLine(k, Lookup(hdr, k)));
      && r == st.(hdr := if Lookup(hdr, k) == "" then st.hdr - {k} else st.hdr[k := hdr[k]])
  {
    var v := Lookup(hdr, k);
    HeaderLineClassify(k, v);
    NotHashId(k);
    StepField(st, HeaderLine(k, v), k, v);
  }

  /** A written header line reads back as the field it was written from. */
  lemma HeaderLineClassify(k: string, v: string)
    requires WritableKey(k) && WritableValue(v)
    ensures Classify(HeaderLine(k, v)) == Field(k, v)
  {
    var line := HeaderLine(k, v);
    HeaderLineNotMarker(k, v);
    HeaderLineColon(k, v);
    HeaderLineKey(k, v);
    HeaderLineValue(k, v);
    HeaderLineNotBlank(k, v);
    ClassifyField(line, k, v);
  }

  lemma NotHashId(k: string)
    requires !HasPrefix(k, "#")
    ensures k != "#id"
  {
    assert "#id"[..1] == "#";
  }

  /** The keys and values a block can carry so that reading it back finds them. */
  predicate WritableHeader(keys: seq<string>, hdr: map<string, string>) {
    forall i :: 0 <= i < |keys| ==> WritableKey(keys[i]) && WritableValue(Lookup(hdr, keys[i]))
  }

  lemma WritableHeaderInit(keys: seq<string>, hdr: map<string, string>)
    requires keys != [] && WritableHeader(keys, hdr)
    ensures WritableHeader(keys[..|keys| - 1], hdr)
    ensures WritableKey(keys[|keys| - 1]) && WritableValue(Lookup(hdr, keys[|keys| - 1]))
  {
    var init := keys[..|keys| - 1];
    forall i | 0 <= i < |init| ensures WritableKey(init[i]) && WritableValue(Lookup(hdr, init[i])) {
      assert init[i] == keys[i];
    }
  }

  lemma {:induction false} ReplayHeaderLines(st: ParseState, keys: seq<string>, hdr: map<string, string>)
    requires st.inHeader
    requires WritableHeader(keys, hdr)
    ensures Replay(HeaderLineSeq(keys, hdr), st) == st.(hdr := ApplyKeys(st.hdr, keys, hdr))
  {
    if keys != [] {
      var init := keys[..|keys| - 1];
      var k := keys[|keys| - 1];
      var line := HeaderLine(k, Lookup(hdr, k));
      var mid := st.(hdr := ApplyKeys(st.hdr, init, hdr));
      WritableHeaderInit(keys, hdr);
      ReplayHeaderLines(st, init, hdr);
      HeaderLineSeqSnoc(keys, hdr);
      ReplaySnoc(HeaderLineSeq(init, hdr), line, st);
      StepHeaderLine(mid, k, hdr);
    }
  }

  lemma ReplaySnoc(lines: seq<string>, line: string, st: ParseState)
    ensures Replay(lines + [line], st) == Step(Replay(lines, st), line)
  {
    assert (lines + [line])[..|lines|] == lines;
  }

  /** The loop state after line j is one step on from the state before it. */
  lemma ReplayTake(lines: seq<string>, j: nat, st: ParseState)
    requires j < |lines|
    ensures Replay(lines[..j + 1], st) == Step(Replay(lines[..j], st), lines[j])
  {
    assert lines[..j + 1][..j] == lines[..j];
  }

  /** A blank line ends the header. */
  lemma StepBlankLine(st: ParseState, line: string)
    requires !IsMarker(line) && TrimSpace(line) == []
    ensures Step(st, line) == st.(inHeader := false)
  {
  }

  /** Outside a header, other lines are comment text. */
  lemma StepComment(st: ParseState, line: string)
    requires !IsMarker(line) && TrimSpace(line) != [] && !st.inHeader
    ensures Step(st, line) == st
  {
  }

  /** Inside a header, a line without a colon ends it. */
  lemma StepNoColon(st: ParseState, line: string)
    requires !IsMarker(line) && TrimSpace(line) != [] && IndexChar(line, ':') < 0 && st.inHeader
    ensures Step(st, line) == st.(inHeader := false)
  {
  }

  lemma ReplayOne(st: ParseState, line: string)
    ensures Replay([line], st) == Step(st, line)
  {
    assert [line][..0] == [];
  }

  lemma StepBlank(st: ParseState)
    ensures Step(st, "") == st.(inHeader := false)
  {
    assert !IsMarker("");
    assert TrimSpace("") == [];
  }

  lemma MarkerStamp(now: string)
    ensures IsMarker(MarkerLine(now)) && Stamp(MarkerLine(now)) == TrimSpace(now)
  {
    var m := MarkerLine(now);
    assert m[|EmSpace|..|m| - |EmSpace|] == now;
  }

  /**
   * Reading back one appended block: whatever state the earlier lines left,
   * the block's header lines update it exactly as `write` updates the task in
   * memory, and its marker becomes the new modification time.
   */
  lemma ReplayBlock(st: ParseState, now: string, keys: seq<string>, hdr: map<string, string>, comment: string)
    requires BlockArgs(now, keys, hdr, comment)
    ensures Replay(Split(Block(now, keys, hdr, comment), '\n'), st) == st.(
      hdr := ApplyKeys(st.hdr, keys, hdr),
      ctime := if st.ctime == "" then TrimSpace(now) else st.ctime,
      mtime := TrimSpace(now),
      inHeader := false)
  {
    var lines := Split(Block(now, keys, hdr, comment), '\n');
    var m := MarkerLine(now);
    var hs := HeaderLineSeq(keys, hdr);
    var head := [m] + hs + [""];
    var tail := Split(CommentText(comment), '\n');
    BlockLines(now, keys, hdr, comment);
    CommentLinesQuiet(comment);
    var s1 := st.(ctime := if st.ctime == "" then TrimSpace(now) else st.ctime, mtime := TrimSpace(now), inHeader := true);
    var s2 := s1.(hdr := ApplyKeys(st.hdr, keys, hdr));
    var s3 := s2.(inHeader := false);
    assert Replay([m], st) == s1 by {
      MarkerStamp(now);
      StepMarker(st, m);
      ReplayOne(st, m);
    }
    assert Replay([m] + hs, st) == s2 by {
      ReplayHeaderLines(s1, keys, hdr);
      ReplayAppend([m], hs, st);
    }
    assert Replay(head, st) == s3 by {
      ReplayOne(s2, "");
      StepBlank(s2);
      ReplayAppend([m] + hs, [""], st);
    }
    assert Replay(lines, st) == s3 by {
      ReplayAppend(head, tail, st);
      ReplayQuiet(tail, s3);
    }
  }

  /**
   * Appending a block to a file and reading it back gives the header that
   * `write` computes in memory: the file as read before, updated key by key.
   */
  lemma AppendBlockThenRead(d: string, isDone: bool, now: string, keys: seq<string>, hdr: map<string, string>, comment: string)
    requires d == "" || HasSuffix(d, "\n")
    requires BlockArgs(now, keys, hdr, comment)
    ensures var before := ReadState(d, isDone);
      var after := ReadState(d + Block(now, keys, hdr, comment), isDone);
      && after.hdr == ApplyKeys(before.hdr, keys, hdr)
      && after.altIds == before.altIds
      && after.mtime == TrimSpace(now)
      && after.ctime == (if before.ctime == "" then TrimSpace(now) else before.ctime)
  {
    if d == "" {
      AppendBlockToEmpty(isDone, now, keys, hdr, comment);
    } else {
      var x := d[..|d| - 1];
      assert d == x + "\n";
      AppendBlockToLines(x, isDone, now, keys, hdr, comment);
    }
  }

  lemma AppendBlockToEmpty(isDone: bool, now: string, keys: seq<string>, hdr: map<string, string>, comment: string)
    requires BlockArgs(now, keys, hdr, comment)
    ensures var before := ReadState("", isDone);
      var after := ReadState("" + Block(now, keys, hdr, comment), isDone);
      && after.hdr == ApplyKeys(before.hdr, keys, hdr)
      && after.altIds == before.altIds
      && after.mtime == TrimSpace(now)
      && after.ctime == (if before.ctime == "" then TrimSpace(now) else before.ctime)
  {
    var b := Block(now, keys, hdr, comment);
    ReadStateOfEmpty(isDone);
    assert "" + b == b;
    ReplayBlock(Seed(isDone), now, keys, hdr, comment);
  }

  lemma AppendBlockToLines(x: string, isDone: bool, now: string, keys: seq<string>, hdr: map<string, string>, comment: string)
    requires BlockArgs(now, keys, hdr, comment)
    ensures var before := ReadState(x + "\n", isDone);
      var after := ReadState(x + "\n" + Block(now, keys, hdr, comment), isDone);
      && after.hdr == ApplyKeys(before.hdr, keys, hdr)
      && after.altIds == before.altIds
      && after.mtime == TrimSpace(now)
      && after.ctime == (if before.ctime == "" then TrimSpace(now) else before.ctime)
  {
    var b := Block(now, keys, hdr, comment);
    ReadStateOfLines(x, isDone);
    ReadStateAppend(x, b, isDone);
    ReplayBlock(Replay(Split(x, '\n'), Seed(isDone)), now, keys, hdr, comment);
  }

  lemma ReadStateOfEmpty(isDone: bool)
    ensures ReadState("", isDone) == Seed(isDone)
  {
    SplitNoSep("", '\n');
    ReplayOne(Seed(isDone), "");
    StepBlank(Seed(isDone));
  }

  /** A final newline only closes the header. */
  lemma ReadStateOfLines(x: string, isDone: bool)
    ensures ReadState(x + "\n", isDone) == Replay(Split(x, '\n'), Seed(isDone)).(inHeader := false)
  {
    var seed := Seed(isDone);
    var pre := Replay(Split(x, '\n'), seed);
    assert x + "\n" == x + "\n" + "";
    SplitSep(x, "", '\n');
    SplitNoSep("", '\n');
    ReplayAppend(Split(x, '\n'), [""], seed);
    ReplayOne(pre, "");
    StepBlank(pre);
  }

  lemma ReadStateAppend(x: string, b: string, isDone: bool)
    ensures ReadState(x + "\n" + b, isDone) == Replay(Split(b, '\n'), Replay(Split(x, '\n'), Seed(isDone)))
  {
    SplitSep(x, b, '\n');
    ReplayAppend(Split(x, '\n'), Split(b, '\n'), Seed(isDone));
  }

  // ---------------------------------------------------------------------------
  // Printing

  /** The body cut before every "\n— ": each piece keeps its trailing newline. */
  function Pieces(body: string): (r: seq<string>)
    ensures |r| >= 1
    decreases |body|
  {
    var i := IndexOf(body, NlEmSpace);
    if i < 0 then [body] else [body[..i + 1]] + Pieces(body[i + 1..])
  }

  lemma PiecesStep(body: string, i: int)
    requires i == IndexOf(body, NlEmSpace) && i >= 0
    ensures Pieces(body) == [body[..i + 1]] + Pieces(body[i + 1..])
  {
  }

  lemma PiecesLast(body: string)
    requires IndexOf(body, NlEmSpace) < 0
    ensures Pieces(body) == [body]
  {
  }

  /** The pieces put back together are the body. */
  lemma {:induction false} PiecesConcat(body: string)
    ensures Concat(Pieces(body)) == body
    decreases |body|
  {
    var i := IndexOf(body, NlEmSpace);
    if i >= 0 {
      PiecesConcat(body[i + 1..]);
      assert body == body[..i + 1] + body[i + 1..];
    }
  }

  /** Every piece after the first starts a block: it begins with "— ". */
  lemma {:induction false} PiecesStartWithMarker(body: string)
    ensures forall j :: 1 <= j < |Pieces(body)| ==> HasPrefix(Pieces(body)[j], EmSpace)
    decreases |body|
  {
    var i := IndexOf(body, NlEmSpace);
    if i >= 0 {
      var rest := body[i + 1..];
      PiecesStep(body, i);
      assert HasPrefix(rest, EmSpace) by {
        assert body[i..i + 3] == NlEmSpace;
        assert rest[..2] == body[i..i + 3][1..];
      }
      FirstPieceMarked(rest);
      PiecesStartWithMarker(rest);
      var ps, pr := Pieces(body), Pieces(rest);
      forall j | 1 <= j < |ps|
        ensures HasPrefix(ps[j], EmSpace)
      {
        assert ps[j] == pr[j - 1];
      }
    }
  }

  /** A text that starts with "— " keeps it at the head of its first piece. */
  lemma FirstPieceMarked(rest: string)
    requires HasPrefix(rest, EmSpace)
    ensures HasPrefix(Pieces(rest)[0], EmSpace)
  {
    var k := IndexOf(rest, NlEmSpace);
    if k >= 0 {
      assert k != 0 by {
        assert rest[0] == '—';
      }
      PiecesStep(rest, k);
      assert Pieces(rest)[0][..2] == rest[..2];
    } else {
      PiecesLast(rest);
    }
  }

  function Reverse(ss: seq<string>): (r: seq<string>)
    ensures |r| == |ss|
    ensures forall i :: 0 <= i < |ss| ==> r[i] == ss[|ss| - 1 - i]
  {
    if ss == [] then [] else Reverse(ss[1..]) + [ss[0]]
  }

  /** Reversing a suffix that starts one element earlier puts that element last. */
  lemma ReverseFrom(ss: seq<string>, i: nat)
    requires i < |ss|
    ensures Reverse(ss[i..]) == Reverse(ss[i + 1..]) + [ss[i]]
  {
    assert ss[i..][1..] == ss[i + 1..];
  }

  lemma HeaderLinesPrefix(keys: seq<string>, hdr: map<string, string>, j: nat)
    requires j < |keys|
    ensures HeaderLines(keys[..j + 1], hdr) == HeaderLines(keys[..j], hdr) + HeaderLine(keys[j], Lookup(hdr, keys[j])) + "\n"
  {
    assert keys[..j + 1][..j] == keys[..j];
  }

  /** The header section PrintTo writes: title first, then the other keys sorted, then a blank line. */
  function HeaderText(hdr: map<string, string>): string {
    (if "title" in hdr then HeaderLine("title", hdr["title"]) + "\n" else "")
    + HeaderLines(SortedKeys(hdr.Keys - {"title"}), hdr) + "\n"
  }
}
