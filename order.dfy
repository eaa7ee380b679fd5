/**
 * Go's ordering of strings (`<`, strings.Compare) and the sorted key lists
 * that sort.Strings produces from a map's keys.
 */
module Order {

  /** Go's `a < b` on strings: lexicographic, character by character. */
  predicate Less(a: string, b: string) {
    if a == [] then b != []
    else if b == [] then false
    else if a[0] != b[0] then a[0] < b[0]
    else Less(a[1..], b[1..])
  }

  lemma {:induction false} LessIrreflexive(a: string)
    ensures !Less(a, a)
  {
    if a != [] {
      LessIrreflexive(a[1..]);
    }
  }

  lemma {:induction false} LessTransitive(a: string, b: string, c: string)
    requires Less(a, b) && Less(b, c)
    ensures Less(a, c)
  {
    if a != [] && b != [] && c != [] && a[0] == b[0] && b[0] == c[0] {
      LessTransitive(a[1..], b[1..], c[1..]);
    }
  }

  lemma {:induction false} LessTotal(a: string, b: string)
    requires a != b
    ensures Less(a, b) || Less(b, a)
  {
    if a != [] && b != [] && a[0] == b[0] {
      assert a == [a[0]] + a[1..] && b == [b[0]] + b[1..];
      LessTotal(a[1..], b[1..]);
    }
  }

  lemma {:induction false} LessAsymmetric(a: string, b: string)
    requires Less(a, b)
    ensures !Less(b, a)
  {
    if a != [] && b != [] && a[0] == b[0] {
      LessAsymmetric(a[1..], b[1..]);
    }
  }

  /** The three facts above, for all strings at once. */
  lemma LessIsStrictTotalOrder()
    ensures forall a :: !Less(a, a)
    ensures forall a, b :: Less(a, b) ==> !Less(b, a)
    ensures forall a, b :: a != b ==> Less(a, b) || Less(b, a)
    ensures forall a, b, c :: Less(a, b) && Less(b, c) ==> Less(a, c)
  {
    forall a ensures !Less(a, a) {
      LessIrreflexive(a);
    }
    forall a, b | Less(a, b) ensures !Less(b, a) {
      LessAsymmetric(a, b);
    }
    forall a, b | a != b ensures Less(a, b) || Less(b, a) {
      LessTotal(a, b);
    }
    forall a, b, c | Less(a, b) && Less(b, c) ensures Less(a, c) {
      LessTransitive(a, b, c);
    }
  }

  /** strings.Compare. */
  function Compare(a: string, b: string): (r: int)
    ensures r == 0 <==> a == b
    ensures r < 0 <==> Less(a, b)
    ensures r > 0 <==> Less(b, a)
    ensures -1 <= r <= 1
  {
    LessIsStrictTotalOrder();
    if a == b then 0 else if Less(a, b) then -1 else 1
  }

  predicate StrictlySorted(s: seq<string>) {
    forall i, j :: 0 <= i < j < |s| ==> Less(s[i], s[j])
  }

  /** Every finite non-empty set of strings has a least element. */
  lemma {:induction false} LeastExists(keys: set<string>)
    requires keys != {}
    ensures exists m :: m in keys && forall k :: k in keys ==> !Less(k, m)
    decreases keys
  {
    var x :| x in keys;
    var rest := keys - {x};
    if rest == {} {
      assert keys == {x};
      LessIrreflexive(x);
    } else {
      LeastExists(rest);
      var m :| m in rest && forall k :: k in rest ==> !Less(k, m);
      if Less(x, m) {
        forall k | k in keys ensures !Less(k, x) {
          if k == x {
            LessIrreflexive(x);
          } else if Less(k, x) {
            LessTransitive(k, x, m);
          }
        }
      } else {
        forall k | k in keys ensures !Less(k, m) {
        }
      }
    }
  }

  /** sort.Strings applied to the keys of a map: the keys in strictly ascending order. */
  function SortedKeys(keys: set<string>): (r: seq<string>)
    ensures StrictlySorted(r)
    ensures forall k :: k in r <==> k in keys
    ensures |r| == |keys|
    decreases keys
  {
    if keys == {} then []
    else
      LessIsStrictTotalOrder();
      LeastExists(keys);
      var m :| m in keys && forall k :: k in keys ==> !Less(k, m);
      var rest := SortedKeys(keys - {m});
      assert forall j :: 0 <= j < |rest| ==> Less(m, rest[j]) by {
        forall j | 0 <= j < |rest| ensures Less(m, rest[j]) {
          assert rest[j] in keys - {m};
        }
      }
      [m] + rest
  }

  lemma EmptyHasNoElements(s: seq<string>)
    ensures s == [] <==> forall k :: k !in s
  {
    if s != [] {
      assert s[0] in s;
    }
  }

  /** Two strictly sorted sequences with the same elements are the same sequence. */
  lemma {:induction false} SortedUnique(a: seq<string>, b: seq<string>)
    requires StrictlySorted(a) && StrictlySorted(b)
    requires forall k :: k in a <==> k in b
    ensures a == b
  {
    LessIsStrictTotalOrder();
    if a != [] && b != [] {
      assert a[0] in b && b[0] in a;
      assert a[0] == b[0];
      forall k ensures k in a[1..] <==> k in b[1..] {
        if k in a[1..] {
          var j :| 0 <= j < |a| - 1 && a[1..][j] == k;
          assert Less(a[0], a[j + 1]);
          assert k in b;
          var i :| 0 <= i < |b| && b[i] == k;
          assert i != 0;
          assert b[1..][i - 1] == k;
        }
        if k in b[1..] {
          var j :| 0 <= j < |b| - 1 && b[1..][j] == k;
          assert Less(b[0], b[j + 1]);
          assert k in a;
          var i :| 0 <= i < |a| && a[i] == k;
          assert i != 0;
          assert a[1..][i - 1] == k;
        }
      }
      SortedUnique(a[1..], b[1..]);
      assert a == [a[0]] + a[1..] && b == [b[0]] + b[1..];
    } else {
      EmptyHasNoElements(a);
      EmptyHasNoElements(b);
    }
  }
}
