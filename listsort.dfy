/**
 * The orderings of a task-list window (sort.go). A list window shows one
 * "id\ttitle" line per task; Sort reorders those lines by line number, by
 * title or by a header of the tasks, ascending or (with a leading "-") in
 * reverse, and toggles between "title" and "id" when given no argument.
 */
module ListSort {
  import opened Wrappers
  import opened Text
  import opened Order
  import opened Tasks
  import opened Store

  // ---------------------------------------------------------------------------
  // lineNumber

  /** What lineNumber gives a line whose leading digits run into another character. */
  const Unnumbered: int := 999999999

  const IntMin: int := -0x8000_0000_0000_0000
  const IntRange: int := 0x1_0000_0000_0000_0000

  /** Go's 64-bit int: the value congruent to x modulo 2^64 in [-2^63, 2^63). */
  function Wrap(x: int): (r: int)
    ensures IntMin <= r < -IntMin
    ensures (x - r) % IntRange == 0
  {
    (x - IntMin) % IntRange + IntMin
  }

  /** The number of decimal digits at the front of s. */
  function DigitRun(s: string): (n: nat)
    ensures n <= |s|
    ensures forall i :: 0 <= i < n ==> IsDigit(s[i])
    ensures n == |s| || !IsDigit(s[n])
  {
    if s == [] || !IsDigit(s[0]) then 0 else 1 + DigitRun(s[1..])
  }

  /** The value `n = n*10 + digit` accumulates over d in a 64-bit int. */
  function Accumulate(d: string): int
    requires AllDigits(d)
  {
    if d == [] then 0 else Wrap(Accumulate(d[..|d| - 1]) * 10 + DigitValue(d[|d| - 1]))
  }

  /** lineNumber: the leading number of a line, 0 for none, Unnumbered when it runs into text. */
  function LineNumberOf(s: string): (r: int)
    ensures s == [] || s[0] == ' ' || s[0] == '\t' ==> r == 0
    ensures s != [] && !IsDigit(s[0]) && s[0] != ' ' && s[0] != '\t' ==> r == Unnumbered
    ensures IntMin <= r < -IntMin
  {
    var j := DigitRun(s);
    if j < |s| && s[j] != ' ' && s[j] != '\t' then Unnumbered else Accumulate(s[..j])
  }

  /** lineNumber, digit by digit. */
  method LineNumber(s: string) returns (n: int)
    ensures n == LineNumberOf(s)
  {
    n := 0;
    var j := 0;
    while j < |s| && '0' <= s[j] <= '9'
      invariant 0 <= j <= DigitRun(s)
      invariant AllDigits(s[..j]) && n == Accumulate(s[..j])
    {
      assert s[..j + 1][..j] == s[..j];
      n := Wrap(n * 10 + (s[j] as int - '0' as int));
      j := j + 1;
    }
    if j < |s| && s[j] != ' ' && s[j] != '\t' {
      return Unnumbered;
    }
  }

  lemma WrapSmall(x: int)
    requires IntMin <= x < -IntMin
    ensures Wrap(x) == x
  {
  }

  lemma WrapShift(x: int, m: int)
    ensures Wrap(x + m * IntRange) == Wrap(x)
  {
    var a := x - IntMin;
    assert (a + m * IntRange) % IntRange == a % IntRange;
  }

  /** Wrapping part-way through the accumulation changes nothing in the end. */
  lemma WrapStep(a: int, v: int)
    ensures Wrap(Wrap(a) * 10 + v) == Wrap(a * 10 + v)
  {
    var m := (a - IntMin) / IntRange;
    assert Wrap(a) == a - m * IntRange;
    assert Wrap(a) * 10 + v == a * 10 + v + (-10 * m) * IntRange;
    WrapShift(a * 10 + v, -10 * m);
  }

  /** The accumulated value is the digits' value reduced to 64 bits. */
  lemma {:induction false} AccumulateWraps(d: string)
    requires AllDigits(d)
    ensures Accumulate(d) == Wrap(DigitsValue(d))
  {
    if d != [] {
      var p := d[..|d| - 1];
      AccumulateWraps(p);
      WrapStep(DigitsValue(p), DigitValue(d[|d| - 1]));
    }
  }

  /** A task's line "id\ttitle" is numbered by its ID when that fits in an int. */
  lemma LineNumberOfTaskLine(id: string, title: string)
    requires id != [] && AllDigits(id) && DigitsValue(id) < -IntMin
    ensures LineNumberOf(id + "\t" + title) == DigitsValue(id)
  {
    var s := id + "\t" + title;
    assert s[|id|] == '\t';
    assert DigitRun(s) == |id| by {
      DigitRunAt(s, |id|);
    }
    assert s[..|id|] == id;
    AccumulateWraps(id);
    WrapSmall(DigitsValue(id));
  }

  lemma DigitRunAt(s: string, n: nat)
    requires n <= |s| && (n == |s| || !IsDigit(s[n]))
    requires forall i :: 0 <= i < n ==> IsDigit(s[i])
    ensures DigitRun(s) == n
  {
    if n > 0 {
      DigitRunAt(s[1..], n - 1);
    }
  }

  // ---------------------------------------------------------------------------
  // lineID and skipField

  /** lineID: the line up to its first tab. */
  function IdField(s: string): (r: string)
    ensures |r| <= |s| && r == s[..|r|]
    ensures '\t' !in r
    ensures r == s || s[|r|] == '\t'
  {
    var i := IndexChar(s, '\t');
    if i < 0 then s else s[..i]
  }

  /** The ID field of a task's line is its ID. */
  lemma IdFieldOfTaskLine(id: string, title: string)
    requires '\t' !in id
    ensures IdField(id + "\t" + title) == id
  {
    var s := id + "\t" + title;
    FirstTab(id, title);
    assert s[..|id|] == id;
  }

  /** The first tab of a task's line ends its ID. */
  lemma FirstTab(id: string, title: string)
    requires '\t' !in id
    ensures IndexChar(id + "\t" + title, '\t') == |id|
  {
    var s := id + "\t" + title;
    assert s[|id|] == '\t';
    assert forall k :: 0 <= k < |id| ==> s[k] == id[k];
  }

  /** The number of tabs in the run starting at i. */
  function TabRun(s: string, i: nat): (n: nat)
    requires i <= |s|
    ensures i + n <= |s|
    ensures forall k :: i <= k < i + n ==> s[k] == '\t'
    ensures i + n == |s| || s[i + n] != '\t'
    decreases |s| - i
  {
    if i < |s| && s[i] == '\t' then 1 + TabRun(s, i + 1) else 0
  }

  /** What skipField returns: the line from the last tab of its first run of tabs on. */
  function TitleField(s: string): string {
    var i := IndexChar(s, '\t');
    if i < 0 then s else s[i + TabRun(s, i) - 1..]
  }

  /** The lines skipField reads without indexing past the end: the first run of tabs stops before it. */
  predicate FieldEndsInside(s: string) {
    var i := IndexChar(s, '\t');
    i < 0 || i + TabRun(s, i) < |s|
  }

  /** skipField as written: the loop tests s[i+1] with no bound on i+1. */
  method SkipFieldAsWritten(s: string) returns (r: string)
    requires FieldEndsInside(s)
    ensures r == TitleField(s)
  {
    var i := IndexChar(s, '\t');
    if i < 0 {
      return s;
    }
    ghost var first := i;
    while i < |s| && s[i + 1] == '\t'
      invariant first <= i < first + TabRun(s, first)
    {
      i := i + 1;
    }
    r := s[i..];
  }

  /** A line that ends in its first tab (an untitled task's line without its newline) is out of reach. */
  lemma UntitledLineRunsOff(id: string)
    requires '\t' !in id
    ensures !FieldEndsInside(id + "\t")
  {
    var s := id + "\t";
    FirstTab(id, []);
    assert s == id + "\t" + [];
    assert TabRun(s, |id| + 1) == 0;
  }

  /** skipField with the bound the loop needs: a run of tabs reaching the end stops at the last tab. */
  method SkipField(s: string) returns (r: string)
    ensures r == TitleField(s)
  {
    var i := IndexChar(s, '\t');
    if i < 0 {
      return s;
    }
    ghost var first := i;
    while i + 1 < |s| && s[i + 1] == '\t'
      invariant first <= i < first + TabRun(s, first)
    {
      i := i + 1;
    }
    r := s[i..];
  }

  /** The title field of a task's line is its title behind one tab. */
  lemma TitleFieldOfTaskLine(id: string, title: string)
    requires '\t' !in id && (title == [] || title[0] != '\t')
    ensures TitleField(id + "\t" + title) == "\t" + title
  {
    var s := id + "\t" + title;
    FirstTab(id, title);
    assert TabRun(s, |id| + 1) == 0 by {
      assert |id| + 1 == |s| || s[|id| + 1] == title[0];
    }
    assert s[|id|..] == "\t" + title;
  }

  /** Lines compare by their title fields as their titles compare. */
  lemma LessBehindTab(a: string, b: string)
    ensures Less("\t" + a, "\t" + b) <==> Less(a, b)
  {
    assert ("\t" + a)[1..] == a && ("\t" + b)[1..] == b;
  }

  // ---------------------------------------------------------------------------
  // The comparators

  /** The "id" comparator: by line number, then by the whole line. */
  function CompareById(x: string, y: string): (r: int)
    ensures r == 0 <==> x == y
    ensures -1 <= r <= 1
  {
    var nx, ny := LineNumberOf(x), LineNumberOf(y);
    if nx < ny then -1 else if nx > ny then 1 else Compare(x, y)
  }

  /** The "title" comparator: by what follows the ID field. */
  function CompareByTitle(x: string, y: string): int {
    Compare(TitleField(x), TitleField(y))
  }

  /**
   * The comparator for any other key, over `found`: the key's value for the
   * ID of every line whose task could be read. A line whose task is missing
   * sorts before one whose task is found; equal values and two missing tasks
   * fall back to the whole line.
   */
  function CompareByHeader(found: map<string, string>, x: string, y: string): (r: int)
    ensures r == 0 <==> x == y
    ensures -1 <= r <= 1
  {
    var ix, iy := IdField(x), IdField(y);
    if ix in found && iy in found && found[ix] != found[iy] then Compare(found[ix], found[iy])
    else if ix in found && iy !in found then 1
    else if ix !in found && iy in found then -1
    else Compare(x, y)
  }

  lemma CompareByIdAntisymmetric(x: string, y: string)
    ensures CompareById(x, y) == -CompareById(y, x)
  {
    LessIsStrictTotalOrder();
  }

  lemma CompareByIdTransitive(x: string, y: string, z: string)
    requires CompareById(x, y) < 0 && CompareById(y, z) < 0
    ensures CompareById(x, z) < 0
  {
    if LineNumberOf(x) == LineNumberOf(y) == LineNumberOf(z) {
      LessTransitive(x, y, z);
    }
  }

  /** Tasks' lines sort by ID as numbers, not as strings: line 9 comes before line 10. */
  lemma CompareByIdNumeric(ix: string, tx: string, iy: string, ty: string)
    requires ix != [] && AllDigits(ix) && DigitsValue(ix) < -IntMin
    requires iy != [] && AllDigits(iy) && DigitsValue(iy) < -IntMin
    requires DigitsValue(ix) < DigitsValue(iy)
    ensures CompareById(ix + "\t" + tx, iy + "\t" + ty) < 0
  {
    LineNumberOfTaskLine(ix, tx);
    LineNumberOfTaskLine(iy, ty);
  }

  /** Tasks' lines sort by title as their titles do. */
  lemma CompareByTitleOfTaskLines(ix: string, tx: string, iy: string, ty: string)
    requires '\t' !in ix && (tx == [] || tx[0] != '\t')
    requires '\t' !in iy && (ty == [] || ty[0] != '\t')
    ensures CompareByTitle(ix + "\t" + tx, iy + "\t" + ty) == Compare(tx, ty)
  {
    TitleFieldOfTaskLine(ix, tx);
    TitleFieldOfTaskLine(iy, ty);
    LessBehindTab(tx, ty);
    LessBehindTab(ty, tx);
  }

  lemma CompareByTitleAntisymmetric(x: string, y: string)
    ensures CompareByTitle(x, y) == -CompareByTitle(y, x)
  {
    LessIsStrictTotalOrder();
  }

  lemma CompareByHeaderAntisymmetric(found: map<string, string>, x: string, y: string)
    ensures CompareByHeader(found, x, y) == -CompareByHeader(found, y, x)
  {
    LessIsStrictTotalOrder();
  }

  /** A line whose task is missing sorts before a line whose task is found. */
  lemma CompareByHeaderMissingFirst(found: map<string, string>, x: string, y: string)
    requires IdField(x) !in found && IdField(y) in found
    ensures CompareByHeader(found, x, y) < 0
  {
  }

  /** The rank CompareByHeader orders lines by: found or not, then the key's value, then the line. */
  predicate HeaderBefore(found: map<string, string>, x: string, y: string) {
    var ix, iy := IdField(x), IdField(y);
    if (ix in found) != (iy in found) then iy in found
    else if ix in found && found[ix] != found[iy] then Less(found[ix], found[iy])
    else Less(x, y)
  }

  lemma CompareByHeaderRank(found: map<string, string>, x: string, y: string)
    ensures CompareByHeader(found, x, y) < 0 <==> HeaderBefore(found, x, y)
  {
  }

  lemma CompareByHeaderTransitive(found: map<string, string>, x: string, y: string, z: string)
    requires CompareByHeader(found, x, y) < 0 && CompareByHeader(found, y, z) < 0
    ensures CompareByHeader(found, x, z) < 0
  {
    CompareByHeaderRank(found, x, y);
    CompareByHeaderRank(found, y, z);
    CompareByHeaderRank(found, x, z);
    var ix, iy, iz := IdField(x), IdField(y), IdField(z);
    if ix in found && iy in found && iz in found {
      var a, b, c := found[ix], found[iy], found[iz];
      if a != b && b != c {
        LessTransitive(a, b, c);
        LessIrreflexive(a);
      } else if a != b || b != c {
      } else {
        LessTransitive(x, y, z);
      }
    } else if ix !in found && iy !in found && iz !in found {
      LessTransitive(x, y, z);
    }
  }

  // ---------------------------------------------------------------------------
  // The memo of tasks the header comparator reads

  /**
   * The comparator's memo, filled for the given lines: each line's ID is read
   * from the list once, and the key's value is kept for every task that reads.
   */
  method HeaderValues(l: List, lines: seq<string>, field: string) returns (found: map<string, string>)
    requires l.Valid()
    modifies l`cache, l`cacheMade
    ensures l.Valid()
    ensures forall id :: id in old(l.cache) ==> id in l.cache && l.cache[id] == old(l.cache)[id]
    ensures forall i :: 0 <= i < |lines| ==>
      (IdField(lines[i]) in found <==> IdField(lines[i]) in old(l.cache) || l.Readable(IdField(lines[i])))
    ensures forall id :: id in found ==> id in l.cache && found[id] == l.cache[id].Header(field)
  {
    ghost var cache0, disk := l.cache, l.disk;
    var tried: set<string> := {};
    found := map[];
    var j := 0;
    while j < |lines|
      invariant 0 <= j <= |lines|
      invariant Memo(l, field, cache0, disk, tried, found)
      invariant forall k :: 0 <= k < j ==> IdField(lines[k]) in tried
    {
      var id := IdField(lines[j]);
      if id !in tried {
        found := Remember(l, id, field, cache0, disk, tried, found);
        tried := tried + {id};
      }
      j := j + 1;
    }
  }

  /**
   * The memo after trying the IDs in `tried`: the list still holds what it
   * held (`cache0`), an ID has a value exactly when its task was cached or
   * reads from `disk`, and the value is the key's value in the cached task.
   */
  predicate Memo(l: List, field: string, cache0: map<string, Task>, disk: map<string, string>,
                 tried: set<string>, found: map<string, string>)
    reads l, l.cache.Values
  {
    && l.Valid() && l.disk == disk
    && (forall id :: id in cache0 ==> id in l.cache && l.cache[id] == cache0[id])
    && (forall id :: id in l.cache ==> id in cache0 || id in tried)
    && (forall id :: id in tried ==> (id in found <==> id in cache0 || ReadableIn(disk, id)))
    && (forall id :: id in found ==> id in tried && id in l.cache && found[id] == l.cache[id].Header(field))
  }

  /** One call of the memoised lookup: read the task of an ID not tried before. */
  method Remember(l: List, id: string, field: string, ghost cache0: map<string, Task>,
                  ghost disk: map<string, string>, ghost tried: set<string>, found: map<string, string>)
    returns (found': map<string, string>)
    requires id !in tried && Memo(l, field, cache0, disk, tried, found)
    modifies l`cache, l`cacheMade
    ensures Memo(l, field, cache0, disk, tried + {id}, found')
  {
    var r := l.Read(id);
    found' := found;
    if r.Ok? {
      found' := found[id := r.value.Header(field)];
    }
  }

  // ---------------------------------------------------------------------------
  // The sort key of a window

  datatype Key = ById | ByTitle | ByHeader(name: string)

  datatype SortOrder = SortOrder(key: Key, reverse: bool)

  /** The key Sort uses next: the argument if any, else "title" after any key but "title", else "id". */
  function NextSortBy(sortBy: string, arg: string): string {
    if arg != "" then arg
    else if sortBy != "" && sortBy != "title" then "title"
    else "id"
  }

  /** With no argument, Sort alternates between "title" and "id" whatever the key was. */
  lemma NextSortByToggles(sortBy: string)
    ensures {NextSortBy(sortBy, ""), NextSortBy(NextSortBy(sortBy, ""), "")} == {"title", "id"}
    ensures NextSortBy(NextSortBy(NextSortBy(sortBy, ""), ""), "") == NextSortBy(sortBy, "")
  {
  }

  /** The order a sort key names: a leading "-" reverses it; "" means "title". */
  function OrderOf(sortBy: string): (o: SortOrder)
    ensures o.reverse <==> HasPrefix(sortBy, "-")
  {
    var rev := HasPrefix(sortBy, "-");
    var field := if rev then sortBy[1..] else sortBy;
    SortOrder(if field == "id" then ById else if field == "title" || field == "" then ByTitle else ByHeader(field), rev)
  }

  /** "-k" is k reversed. */
  lemma OrderOfReversed(field: string)
    requires !HasPrefix(field, "-")
    ensures OrderOf("-" + field) == OrderOf(field).(reverse := true)
  {
    var s := "-" + field;
    assert HasPrefix(s, "-") && s[1..] == field;
  }

  /** The comparator a key selects. */
  function CompareBy(key: Key, found: map<string, string>, x: string, y: string): int {
    match key
    case ById => CompareById(x, y)
    case ByTitle => CompareByTitle(x, y)
    case ByHeader(_) => CompareByHeader(found, x, y)
  }

  /** The less function handed to the window's sort. */
  predicate Before(o: SortOrder, found: map<string, string>, x: string, y: string) {
    if o.reverse then CompareBy(o.key, found, x, y) > 0 else CompareBy(o.key, found, x, y) < 0
  }

  lemma CompareByAntisymmetric(key: Key, found: map<string, string>, x: string, y: string)
    ensures CompareBy(key, found, x, y) == -CompareBy(key, found, y, x)
  {
    match key
    case ById => CompareByIdAntisymmetric(x, y);
    case ByTitle => CompareByTitleAntisymmetric(x, y);
    case ByHeader(_) => CompareByHeaderAntisymmetric(found, x, y);
  }

  /** The reversed order puts y before x exactly when the plain one puts x before y. */
  lemma BeforeReversed(key: Key, found: map<string, string>, x: string, y: string)
    ensures Before(SortOrder(key, true), found, x, y) <==> Before(SortOrder(key, false), found, y, x)
  {
    CompareByAntisymmetric(key, found, x, y);
  }

  /** No line sorts before itself, and two lines never sort before each other. */
  lemma BeforeAsymmetric(o: SortOrder, found: map<string, string>, x: string, y: string)
    ensures !Before(o, found, x, x)
    ensures Before(o, found, x, y) ==> !Before(o, found, y, x)
  {
    CompareByAntisymmetric(o.key, found, x, x);
    CompareByAntisymmetric(o.key, found, x, y);
  }

  /** A task-list window: its mode and the key of its last sort. */
  class Window {
    var mode: Mode
    var sortBy: string

    constructor (mode: Mode)
      ensures this.mode == mode && sortBy == ""
    {
      this.mode := mode;
      sortBy := "";
    }

    /**
     * ExecSort: only a list window sorts. It sets the window's key and gives
     * the order its lines are sorted in.
     */
    method ExecSort(arg: string) returns (order: Option<SortOrder>)
      modifies this`sortBy
      ensures mode != ListMode ==> order == None && sortBy == old(sortBy)
      ensures mode == ListMode ==> sortBy == NextSortBy(old(sortBy), arg) && order == Some(OrderOf(sortBy))
    {
      if mode != ListMode {
        return None;
      }
      if arg != "" {
        sortBy := arg;
      } else if sortBy != "" && sortBy != "title" {
        sortBy := "title";
      } else {
        sortBy := "id";
      }
      var rev := false;
      var field := sortBy;
      if |field| > 0 && field[0] == '-' {
        rev := true;
        field := field[1..];
      }
      var key := if field == "id" then ById else if field == "title" || field == "" then ByTitle else ByHeader(field);
      order := Some(SortOrder(key, rev));
    }
  }

  /** The kinds of window the acme front end opens. */
  datatype Mode = SingleMode | ListMode | CreateMode | BulkMode
}
