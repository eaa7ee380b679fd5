// The registry of open task lists kept by the todo command (taskList in
// edit.go), keyed by the directory name after filepath.Clean.

module TaskLists {
  import opened Text
  import opened Store

  // ---------------------------------------------------------------------------
  // filepath.Clean, for slash-separated paths

  /** A path element Clean keeps as it is. */
  predicate Element(e: string) {
    e != "" && e != "." && '/' !in e
  }

  predicate AllDotDot(s: seq<string>) {
    forall i :: 0 <= i < |s| ==> s[i] == ".."
  }

  /**
   * The elements of a clean path: no empty or "." element, and a ".." only
   * in a relative path and only after other ".." elements.
   */
  predicate CleanElements(st: seq<string>, rooted: bool) {
    && (forall i :: 0 <= i < |st| ==> Element(st[i]))
    && (forall k :: 0 <= k < |st| && st[k] == ".." ==> !rooted && AllDotDot(st[..k]))
  }

  /**
   * Clean's scan over the elements: empty and "." elements vanish, ".."
   * removes the element before it, is dropped at the root, and is kept at
   * the front of a relative path.
   */
  function Walk(elems: seq<string>, rooted: bool, stack: seq<string>): seq<string>
    decreases |elems|
  {
    if elems == [] then stack
    else
      var e := elems[0];
      if e == "" || e == "." then Walk(elems[1..], rooted, stack)
      else if e == ".." then
        if stack != [] && stack[|stack| - 1] != ".." then Walk(elems[1..], rooted, stack[..|stack| - 1])
        else if rooted then Walk(elems[1..], rooted, stack)
        else Walk(elems[1..], rooted, stack + [".."])
      else Walk(elems[1..], rooted, stack + [e])
  }

  /** The path Clean writes for its elements: "/" in front of a rooted one, "." for nothing. */
  function Render(st: seq<string>, rooted: bool): string {
    var out := (if rooted then ['/'] else []) + Join(st, '/');
    if out == [] then "." else out
  }

  /** filepath.Clean on a system whose separator is '/'. */
  function Clean(path: string): string {
    var rooted := path != [] && path[0] == '/';
    Render(Walk(Split(path, '/'), rooted, []), rooted)
  }

  /** The scan only ever holds the elements of a clean path. */
  lemma {:induction false} WalkClean(elems: seq<string>, rooted: bool, stack: seq<string>)
    requires CleanElements(stack, rooted)
    requires forall i :: 0 <= i < |elems| ==> '/' !in elems[i]
    ensures CleanElements(Walk(elems, rooted, stack), rooted)
    decreases |elems|
  {
    if elems != [] {
      var e, rest := elems[0], elems[1..];
      assert forall i :: 0 <= i < |rest| ==> '/' !in rest[i] by {
        forall i | 0 <= i < |rest| ensures '/' !in rest[i] {
          assert rest[i] == elems[i + 1];
        }
      }
      if e == "" || e == "." {
        WalkClean(rest, rooted, stack);
      } else if e == ".." {
        if stack != [] && stack[|stack| - 1] != ".." {
          var shorter := stack[..|stack| - 1];
          assert forall k :: 0 <= k < |shorter| ==> shorter[k] == stack[k] && shorter[..k] == stack[..k];
          WalkClean(rest, rooted, shorter);
        } else if rooted {
          WalkClean(rest, rooted, stack);
        } else {
          var longer := stack + [".."];
          assert AllDotDot(stack) by {
            if stack != [] {
              var n := |stack| - 1;
              assert stack[n] == ".." && AllDotDot(stack[..n]);
              forall i | 0 <= i < |stack| ensures stack[i] == ".." {
                if i < n {
                  assert stack[i] == stack[..n][i];
                }
              }
            }
          }
          assert forall k :: 0 <= k < |stack| ==> longer[k] == stack[k] && longer[..k] == stack[..k];
          assert longer[..|stack|] == stack;
          WalkClean(rest, rooted, longer);
        }
      } else {
        var longer := stack + [e];
        assert forall k :: 0 <= k < |stack| ==> longer[k] == stack[k] && longer[..k] == stack[..k];
        WalkClean(rest, rooted, longer);
      }
    }
  }

  /** The scan passes the elements of a clean path through unchanged. */
  lemma {:induction false} WalkOfClean(st: seq<string>, rooted: bool, stack: seq<string>)
    requires CleanElements(stack + st, rooted)
    ensures Walk(st, rooted, stack) == stack + st
    decreases |st|
  {
    if st != [] {
      var all := stack + st;
      var e := st[0];
      assert all[|stack|] == e && Element(e);
      if e == ".." {
        assert !rooted && AllDotDot(all[..|stack|]);
        assert all[..|stack|] == stack;
        assert stack != [] ==> stack[|stack| - 1] == "..";
      }
      assert (stack + [e]) + st[1..] == all;
      WalkOfClean(st[1..], rooted, stack + [e]);
    }
  }

  /** A joined path starts with its first element. */
  lemma JoinStart(st: seq<string>)
    requires st != []
    ensures HasPrefix(Join(st, '/'), st[0])
  {
  }

  /** Clean leaves a path it wrote alone. */
  lemma CleanOfRendered(st: seq<string>, rooted: bool)
    requires CleanElements(st, rooted)
    ensures Clean(Render(st, rooted)) == Render(st, rooted)
  {
    if rooted {
      CleanOfRooted(st);
    } else if st == [] {
      SplitNoSep(".", '/');
      assert Walk(["."], false, []) == [];
    } else {
      CleanOfRelative(st);
    }
  }

  lemma CleanOfRooted(st: seq<string>)
    requires CleanElements(st, true)
    ensures Clean(Render(st, true)) == Render(st, true)
  {
    var j := Join(st, '/');
    var q := ['/'] + j;
    assert Render(st, true) == q;
    var elems := Split(q, '/');
    assert elems == [[]] + Split(j, '/') by {
      assert q == [] + ['/'] + j;
      SplitCons([], j, '/');
    }
    assert Walk(elems, true, []) == Walk(Split(j, '/'), true, []) by {
      assert elems[0] == [] && elems[1..] == Split(j, '/');
    }
    assert Walk(Split(j, '/'), true, []) == st by {
      if st == [] {
        SplitNoSep([], '/');
        assert Walk([[]], true, []) == [];
      } else {
        SplitJoin(st, '/');
        assert [] + st == st;
        WalkOfClean(st, true, []);
      }
    }
    assert q != [] && q[0] == '/';
  }

  lemma CleanOfRelative(st: seq<string>)
    requires CleanElements(st, false) && st != []
    ensures Clean(Render(st, false)) == Render(st, false)
  {
    var q := Join(st, '/');
    assert Split(q, '/') == st by {
      SplitJoin(st, '/');
    }
    assert Walk(st, false, []) == st by {
      assert [] + st == st;
      WalkOfClean(st, false, []);
    }
    assert q != [] && q[0] != '/' by {
      JoinStart(st);
      assert Element(st[0]);
    }
    CleanFixed(q, st, st, false);
  }

  /** A path that splits and scans to elements rendering back to it is clean. */
  lemma CleanFixed(q: string, elems: seq<string>, st: seq<string>, rooted: bool)
    requires rooted == (q != [] && q[0] == '/')
    requires Split(q, '/') == elems && Walk(elems, rooted, []) == st && Render(st, rooted) == q
    ensures Clean(q) == q
  {
  }

  /** Cleaning twice is cleaning once, so a cleaned name finds the same entry. */
  lemma CleanIdempotent(path: string)
    ensures Clean(Clean(path)) == Clean(path)
  {
    var rooted := path != [] && path[0] == '/';
    WalkClean(Split(path, '/'), rooted, []);
    CleanOfRendered(Walk(Split(path, '/'), rooted, []), rooted);
  }

  // ---------------------------------------------------------------------------
  // The registry

  /** taskListCache: one List per cleaned directory name. */
  class Registry {
    var lists: map<string, List>

    /** The registry starts empty (Go's nil map reads as empty). */
    constructor ()
      ensures lists == map[]
    {
      lists := map[];
    }

    /** Every list is filed under its own, cleaned, directory name. */
    predicate Valid()
      reads this, lists.Values
    {
      forall d :: d in lists ==> Clean(d) == d && lists[d].name == d
    }

    /**
     * taskList: the list already opened for the cleaned directory name, or a
     * new one (over the directory's files `disk`) that is remembered.
     */
    method TaskList(dir: string, disk: map<string, string>) returns (l: List)
      requires Valid()
      modifies this`lists
      ensures Valid()
      ensures Clean(dir) in lists && lists[Clean(dir)] == l
      ensures Clean(dir) in old(lists) ==> l == old(lists)[Clean(dir)] && lists == old(lists)
      ensures Clean(dir) !in old(lists) ==>
        && fresh(l) && l.name == Clean(dir) && l.disk == disk && l.Valid() && !l.cacheMade
        && lists == old(lists)[Clean(dir) := l]
    {
      var d := Clean(dir);
      if d in lists {
        return lists[d];
      }
      CleanIdempotent(dir);
      l := new List(d, disk);
      lists := lists[d := l];
    }
  }
}
