/**
 * The query language of Search (parseQuery in task/task.go): a query is a
 * list of space-separated words, each compiled to one test on a task, all of
 * which must hold.  An implicit snooze filter is added at the end unless a
 * `todo:` word mentions "snooze".
 */
module Query {
  import opened Text
  import opened Order
  import opened Tasks

  /** What one query word tests. */
  datatype Test =
    | AllTodo                            // "all": the todo header is not "done"
    | Below(key: string, bound: string)  // "k:<v": header k is set and sorts before v
    | Above(key: string, bound: string)  // "k:>v": header k is set and sorts after v
    | Equals(key: string, value: string) // "k:=v": header k is v ("" when missing)
    | HeaderHas(key: string, sub: string) // "k:v": header k contains v
    | BodyHas(sub: string)               // a bare word: the file contents contain it
    | NotSnoozed(limit: string)          // the implicit filter, limit = "snooze " + today

  datatype Term = Term(negated: bool, test: Test)

  /** A compiled query: the tests in order and whether done tasks must be searched too. */
  datatype Compiled = Compiled(terms: seq<Term>, needDone: bool)

  /** A word without its leading "-", if it has one. */
  function Unsigned(f: string): string {
    if HasPrefix(f, "-") then f[1..] else f
  }

  function TestOf(g: string): Test {
    if g == "all" then AllTodo
    else
      var i := IndexChar(g, ':');
      if i < 0 then BodyHas(g)
      else KeyTest(g[..i], g[i + 1..])
  }

  /** The test of a `key:value` word, by the value's first character. */
  function KeyTest(k: string, v: string): Test {
    if HasPrefix(v, "<") then Below(k, v[1..])
    else if HasPrefix(v, ">") then Above(k, v[1..])
    else if HasPrefix(v, "=") then Equals(k, v[1..])
    else HeaderHas(k, v)
  }

  /** The term one word compiles to. */
  function TermOf(f: string): Term {
    Term(HasPrefix(f, "-"), TestOf(Unsigned(f)))
  }

  /** A `todo:` word whose value mentions "done" or "mute" asks for done tasks too. */
  predicate AsksForDone(f: string) {
    var g := Unsigned(f);
    var i := IndexChar(g, ':');
    g != "all" && i >= 0 && KeyAsksForDone(g[..i], g[i + 1..])
  }

  predicate KeyAsksForDone(k: string, v: string) {
    k == "todo" && (Contains(v, "done") || Contains(v, "mute"))
  }

  /** A `todo:` word whose value mentions "snooze" turns the implicit filter off. */
  predicate StopsSnooze(f: string) {
    var g := Unsigned(f);
    var i := IndexChar(g, ':');
    g != "all" && i >= 0 && KeyStopsSnooze(g[..i], g[i + 1..])
  }

  predicate KeyStopsSnooze(k: string, v: string) {
    k == "todo" && Contains(v, "snooze")
  }

  function TermsOf(fields: seq<string>): (r: seq<Term>)
    ensures |r| == |fields|
    ensures forall j :: 0 <= j < |fields| ==> r[j] == TermOf(fields[j])
  {
    if fields == [] then [] else TermsOf(fields[..|fields| - 1]) + [TermOf(fields[|fields| - 1])]
  }

  /** Some word satisfies p. */
  predicate SomeWord(fields: seq<string>, p: string -> bool) {
    exists j :: 0 <= j < |fields| && p(fields[j])
  }

  /** Some word satisfies p, as a flag set while scanning the words in order. */
  predicate AnyOf(fields: seq<string>, p: string -> bool) {
    fields != [] && (AnyOf(fields[..|fields| - 1], p) || p(fields[|fields| - 1]))
  }

  /** The meaning of parseQuery: one term per word, then the snooze filter unless a word turned it off. */
  function Compile(q: string, today: string): Compiled {
    var fields := Fields(q);
    var snooze := if AnyOf(fields, StopsSnooze) then [] else [Term(false, NotSnoozed("snooze " + today))];
    Compiled(TermsOf(fields) + snooze, AnyOf(fields, AsksForDone))
  }

  // ---------------------------------------------------------------------------
  // Evaluation

  predicate TestHolds(x: Test, t: Task)
    reads t
  {
    match x
    case AllTodo => t.Header("todo") != "done"
    case Below(k, b) => Lookup(t.hdr, k) != "" && Less(Lookup(t.hdr, k), b)
    case Above(k, b) => Lookup(t.hdr, k) != "" && Less(b, Lookup(t.hdr, k))
    case Equals(k, v) => Lookup(t.hdr, k) == v
    case HeaderHas(k, v) => Contains(Lookup(t.hdr, k), v)
    case BodyHas(b) => Contains(t.body, b)
    case NotSnoozed(limit) =>
      var s := t.Header("todo");
      !(HasPrefix(s, "snooze ") && Less(limit, s))
  }

  predicate Holds(term: Term, t: Task)
    reads t
  {
    if term.negated then !TestHolds(term.test, t) else TestHolds(term.test, t)
  }

  /** Every term of ts holds for t. */
  predicate AllHold(ts: seq<Term>, t: Task)
    reads t
  {
    forall j :: 0 <= j < |ts| ==> Holds(ts[j], t)
  }

  /** The compiled matcher: every term holds. */
  predicate Matches(c: Compiled, t: Task)
    reads t
  {
    AllHold(c.terms, t)
  }

  // ---------------------------------------------------------------------------
  // The compiler

  /** parseQuery: the words of q compiled in order, then the snooze filter unless disabled. */
  method ParseQuery(q: string, today: string) returns (c: Compiled)
    ensures c == Compile(q, today)
  {
    var fields := Fields(q);
    var ms: seq<Term> := [];
    var needDone := false;
    var applySnooze := true;
    for j := 0 to |fields|
      invariant ms == TermsOf(fields[..j])
      invariant needDone == AnyOf(fields[..j], AsksForDone)
      invariant applySnooze == !AnyOf(fields[..j], StopsSnooze)
    {
      WordsStep(fields, j);
      var term, asksDone, stopsSnooze := CompileWord(fields[j]);
      needDone := needDone || asksDone;
      applySnooze := applySnooze && !stopsSnooze;
      ms := ms + [term];
    }
    assert fields[..|fields|] == fields;
    if applySnooze {
      ms := ms + [Term(false, NotSnoozed("snooze " + today))];
    }
    c := Compiled(ms, needDone);
  }

  lemma WordsStep(fields: seq<string>, j: nat)
    requires j < |fields|
    ensures TermsOf(fields[..j + 1]) == TermsOf(fields[..j]) + [TermOf(fields[j])]
    ensures AnyOf(fields[..j + 1], AsksForDone) == (AnyOf(fields[..j], AsksForDone) || AsksForDone(fields[j]))
    ensures AnyOf(fields[..j + 1], StopsSnooze) == (AnyOf(fields[..j], StopsSnooze) || StopsSnooze(fields[j]))
  {
    assert fields[..j + 1][..j] == fields[..j];
  }

  /** The body of parseQuery's loop for one word: its term, and how it sets needDone and applySnooze. */
  method CompileWord(word: string) returns (term: Term, asksDone: bool, stopsSnooze: bool)
    ensures term == TermOf(word)
    ensures asksDone == AsksForDone(word) && stopsSnooze == StopsSnooze(word)
  {
    var f := word;
    var neg := false;
    if HasPrefix(f, "-") {
      neg := true;
      f := f[1..];
    }
    assert f == Unsigned(word) && neg == HasPrefix(word, "-");
    asksDone, stopsSnooze := false, false;
    var m: Test;
    if f == "all" {
      m := AllTodo;
    } else {
      var i := IndexChar(f, ':');
      if i >= 0 {
        m, asksDone, stopsSnooze := CompileKey(f[..i], f[i + 1..]);
      } else {
        m := BodyHas(f);
      }
    }
    assert m == TestOf(f);
    assert asksDone == AsksForDone(word);
    assert stopsSnooze == StopsSnooze(word);
    term := Term(neg, m);
  }

  /** The `key:value` branch of parseQuery's loop. */
  method CompileKey(k: string, v: string) returns (m: Test, asksDone: bool, stopsSnooze: bool)
    ensures m == KeyTest(k, v)
    ensures asksDone == KeyAsksForDone(k, v) && stopsSnooze == KeyStopsSnooze(k, v)
  {
    asksDone, stopsSnooze := false, false;
    if k == "todo" && (Contains(v, "done") || Contains(v, "mute")) {
      asksDone := true;
    }
    if k == "todo" && Contains(v, "snooze") {
      stopsSnooze := true;
    }
    if HasPrefix(v, "<") {
      m := Below(k, v[1..]);
    } else if HasPrefix(v, ">") {
      m := Above(k, v[1..]);
    } else if HasPrefix(v, "=") {
      m := Equals(k, v[1..]);
    } else {
      m := HeaderHas(k, v);
    }
  }

  // ---------------------------------------------------------------------------
  // What a compiled query means

  lemma {:induction false} AnyOfIff(fields: seq<string>, p: string -> bool)
    ensures AnyOf(fields, p) == SomeWord(fields, p)
  {
    if fields != [] {
      var init := fields[..|fields| - 1];
      AnyOfIff(init, p);
      if exists j :: 0 <= j < |fields| && p(fields[j]) {
        var j :| 0 <= j < |fields| && p(fields[j]);
        if j < |init| {
          assert init[j] == fields[j];
        }
      }
      if exists j :: 0 <= j < |init| && p(init[j]) {
        var j :| 0 <= j < |init| && p(init[j]);
        assert fields[j] == init[j];
      }
    }
  }

  /** needDone is set exactly when some word is a `todo:` word mentioning "done" or "mute". */
  lemma NeedDoneIff(q: string, today: string)
    ensures Compile(q, today).needDone == SomeWord(Fields(q), AsksForDone)
  {
    AnyOfIff(Fields(q), AsksForDone);
  }

  /** A snoozed task: its todo header starts with "snooze " and sorts after "snooze <today>". */
  predicate Snoozed(t: Task, today: string)
    reads t
  {
    var s := t.Header("todo");
    HasPrefix(s, "snooze ") && Less("snooze " + today, s)
  }

  /**
   * A compiled query matches a task iff every word's term holds and, unless
   * some word turned the filter off, the task is not snoozed.
   */
  lemma CompileMeaning(q: string, today: string, t: Task)
    ensures Matches(Compile(q, today), t) <==>
      AllHold(TermsOf(Fields(q)), t) && (SomeWord(Fields(q), StopsSnooze) || !Snoozed(t, today))
  {
    var fields := Fields(q);
    var stops := AnyOf(fields, StopsSnooze);
    var snooze := if stops then [] else [Term(false, NotSnoozed("snooze " + today))];
    assert Compile(q, today).terms == TermsOf(fields) + snooze;
    AllHoldAppend(TermsOf(fields), snooze, t);
    SnoozeHolds(snooze, stops, today, t);
    AnyOfIff(fields, StopsSnooze);
  }

  lemma SnoozeHolds(snooze: seq<Term>, stops: bool, today: string, t: Task)
    requires snooze == if stops then [] else [Term(false, NotSnoozed("snooze " + today))]
    ensures AllHold(snooze, t) <==> stops || !Snoozed(t, today)
  {
    if !stops {
      assert snooze[0] == Term(false, NotSnoozed("snooze " + today));
    }
  }

  /** The terms of two lists all hold exactly when those of their concatenation do. */
  lemma AllHoldAppend(ts: seq<Term>, extra: seq<Term>, t: Task)
    ensures AllHold(ts + extra, t) <==> AllHold(ts, t) && AllHold(extra, t)
  {
    var all := ts + extra;
    if AllHold(ts, t) && AllHold(extra, t) {
      forall j | 0 <= j < |all| ensures Holds(all[j], t) {
        if j < |ts| {
          assert all[j] == ts[j];
        } else {
          assert all[j] == extra[j - |ts|];
        }
      }
    }
    if AllHold(all, t) {
      forall j | 0 <= j < |ts| ensures Holds(ts[j], t) {
        assert all[j] == ts[j];
      }
      forall j | 0 <= j < |extra| ensures Holds(extra[j], t) {
        assert all[|ts| + j] == extra[j];
      }
    }
  }

  /** A leading "-" negates exactly the test the rest of the word compiles to. */
  lemma NegatedWord(g: string, t: Task)
    ensures TermOf("-" + g) == Term(true, TestOf(g))
    ensures !HasPrefix(g, "-") ==> (Holds(TermOf("-" + g), t) <==> !Holds(TermOf(g), t))
  {
    var f := "-" + g;
    assert f[..1] == "-";
    assert f[1..] == g;
  }

  /** "all" only tests todo != "done": it neither asks for done tasks nor turns the snooze filter off. */
  lemma AllWord(q: string, today: string)
    requires q == "all"
    ensures Compile(q, today) == Compiled([Term(false, AllTodo), Term(false, NotSnoozed("snooze " + today))], false)
  {
    assert q[0] == 'a' && q[1] == 'l' && q[2] == 'l';
    assert !HasPrefix(q, "-");
    FieldsOfWord(q);
    assert [q][..0] == [];
    assert Unsigned(q) == "all";
    assert !StopsSnooze(q) && !AsksForDone(q);
    assert !AnyOf([q], StopsSnooze);
    assert !AnyOf([q], AsksForDone);
    assert TermsOf([q]) == [Term(false, AllTodo)];
  }

  /** The "all" test passes muted tasks, although Done counts them as done. */
  lemma AllTodoPassesMuted(t: Task)
    requires Lookup(t.hdr, "todo") == "mute"
    ensures TestHolds(AllTodo, t) && t.Done()
  {
    DoneIff(t);
    assert ToLower("todo") == "todo";
  }

  /** The snooze filter is strict: a task snoozed until today itself still matches. */
  lemma SnoozeIsStrict(today: string, t: Task)
    requires t.Header("todo") == "snooze " + today
    ensures !Snoozed(t, today)
  {
    LessIrreflexive("snooze " + today);
  }

  /** `k:<v` and `k:>v` never match a task without header k, even negated the other way round. */
  lemma CompareNeedsHeader(k: string, b: string, t: Task)
    requires Lookup(t.hdr, k) == ""
    ensures !TestHolds(Below(k, b), t) && !TestHolds(Above(k, b), t)
    ensures TestHolds(Equals(k, ""), t)
  {
  }

  /** Query keys are used as written: `Title:x` looks up the key "Title", which read never stores. */
  lemma QueryKeyIsNotLowered(v: string, t: Task)
    requires forall k :: k in t.hdr ==> IsLower(k)
    requires !HasPrefix(v, "<") && !HasPrefix(v, ">") && !HasPrefix(v, "=")
    ensures TestOf("Title:" + v) == HeaderHas("Title", v)
    ensures TestHolds(TestOf("Title:" + v), t) <==> v == ""
  {
    var g := "Title:" + v;
    assert g[5] == ':';
    assert IndexChar(g, ':') == 5;
    assert g[..5] == "Title" && g[6..] == v;
    assert "Title" !in t.hdr by {
      assert ToLower("Title")[0] == 't';
    }
  }
}
