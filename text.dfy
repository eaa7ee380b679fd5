/**
 * The pieces of Go's strings, bytes and strconv packages that the task store
 * relies on, written over `string` (a sequence of Unicode characters).
 * Go works on UTF-8 bytes; for valid UTF-8 a byte substring is a character
 * substring and byte order is code-point order, so nothing below depends on
 * the encoding.
 */
module Text {

  /** unicode.IsSpace: the characters that TrimSpace and Fields treat as blank. */
  predicate IsSpace(c: char) {
    || c == ' ' || c == '\t' || c == '\n' || c == '\r' || c == '\U{000B}' || c == '\U{000C}'
    || c == '\U{0085}' || c == '\U{00A0}' || c == '\U{1680}'
    || ('\U{2000}' <= c <= '\U{200A}')
    || c == '\U{2028}' || c == '\U{2029}' || c == '\U{202F}' || c == '\U{205F}' || c == '\U{3000}'
  }

  predicate IsDigit(c: char) {
    '0' <= c <= '9'
  }

  predicate NoSpace(s: string) {
    forall i :: 0 <= i < |s| ==> !IsSpace(s[i])
  }

  predicate AllDigits(s: string) {
    forall i :: 0 <= i < |s| ==> IsDigit(s[i])
  }

  /** A Go map index: the value stored under `k`, or "" when there is none. */
  function Lookup(m: map<string, string>, k: string): string {
    if k in m then m[k] else ""
  }

  predicate HasPrefix(s: string, p: string) {
    |p| <= |s| && s[..|p|] == p
  }

  predicate HasSuffix(s: string, p: string) {
    |p| <= |s| && s[|s| - |p|..] == p
  }

  // ---------------------------------------------------------------------------
  // Trimming and case

  function TrimLeft(s: string): (r: string)
    ensures |r| <= |s|
    ensures r == [] || !IsSpace(r[0])
    ensures forall i :: 0 <= i < |s| - |r| ==> IsSpace(s[i])
  {
    if s != [] && IsSpace(s[0]) then TrimLeft(s[1..]) else s
  }

  function TrimRight(s: string): (r: string)
    ensures |r| <= |s|
    ensures r == [] || !IsSpace(r[|r| - 1])
    ensures forall i :: |r| <= i < |s| ==> IsSpace(s[i])
  {
    if s != [] && IsSpace(s[|s| - 1]) then TrimRight(s[..|s| - 1]) else s
  }

  /** A suffix of the tail is a suffix of the whole. */
  lemma SuffixOfAppend(a: string, c: string, x: string)
    requires HasSuffix(c, x)
    ensures HasSuffix(a + c, x)
  {
    assert (a + c)[|a + c| - |x|..] == c[|c| - |x|..];
  }

  /** TrimLeft drops a prefix. */
  lemma TrimLeftSuffix(s: string)
    ensures TrimLeft(s) == s[|s| - |TrimLeft(s)|..]
  {
    if s != [] && IsSpace(s[0]) {
      TrimLeftSuffix(s[1..]);
    }
  }

  /** TrimRight drops a suffix. */
  lemma TrimRightPrefix(s: string)
    ensures TrimRight(s) == s[..|TrimRight(s)|]
  {
    if s != [] && IsSpace(s[|s| - 1]) {
      TrimRightPrefix(s[..|s| - 1]);
    }
  }

  /** strings.TrimSpace: the longest middle slice that neither starts nor ends with a space. */
  function TrimSpace(s: string): (r: string)
    ensures r == [] || (!IsSpace(r[0]) && !IsSpace(r[|r| - 1]))
    ensures r == [] <==> forall i :: 0 <= i < |s| ==> IsSpace(s[i])
    ensures |r| <= |s|
  {
    var l := TrimLeft(s);
    var r := TrimRight(l);
    TrimLeftSuffix(s);
    TrimRightPrefix(l);
    assert r == [] ==> l == [];
    r
  }

  /** A string that starts and ends with a non-space is its own trimming. */
  lemma TrimSpaceOfTrimmed(s: string)
    requires s == [] || (!IsSpace(s[0]) && !IsSpace(s[|s| - 1]))
    ensures TrimSpace(s) == s
  {
  }

  lemma TrimSpaceIdempotent(s: string)
    ensures TrimSpace(TrimSpace(s)) == TrimSpace(s)
  {
    TrimSpaceOfTrimmed(TrimSpace(s));
  }

  function LowerChar(c: char): char {
    if 'A' <= c <= 'Z' then (c as int + 32) as char else c
  }

  /** strings.ToLower, restricted to ASCII letters. */
  function ToLower(s: string): (r: string)
    ensures |r| == |s|
    ensures forall i :: 0 <= i < |s| ==> r[i] == LowerChar(s[i])
  {
    seq(|s|, i requires 0 <= i < |s| => LowerChar(s[i]))
  }

  predicate IsLower(s: string) {
    ToLower(s) == s
  }

  // ---------------------------------------------------------------------------
  // Searching

  predicate OccursAt(s: string, sub: string, i: int) {
    0 <= i && i + |sub| <= |s| && s[i..i + |sub|] == sub
  }

  function IndexFrom(s: string, sub: string, i: nat): (r: int)
    requires i <= |s|
    ensures r == -1 || (i <= r && OccursAt(s, sub, r))
    ensures forall k :: i <= k && (r < 0 || k < r) ==> !OccursAt(s, sub, k)
    decreases |s| - i
  {
    if OccursAt(s, sub, i) then i
    else if i == |s| then -1
    else IndexFrom(s, sub, i + 1)
  }

  /** strings.Index: the first position at which `sub` occurs in `s`, or -1. */
  function IndexOf(s: string, sub: string): (r: int)
    ensures r == -1 || OccursAt(s, sub, r)
    ensures forall k :: 0 <= k && (r < 0 || k < r) ==> !OccursAt(s, sub, k)
  {
    IndexFrom(s, sub, 0)
  }

  /** strings.Contains / bytes.Contains. */
  predicate Contains(s: string, sub: string) {
    IndexOf(s, sub) >= 0
  }

  lemma ContainsAt(s: string, sub: string, k: int)
    requires OccursAt(s, sub, k)
    ensures Contains(s, sub)
  {
  }

  /** strings.IndexByte for one character. */
  function IndexChar(s: string, c: char): (r: int)
    ensures -1 <= r < |s|
    ensures r >= 0 ==> s[r] == c
    ensures forall k :: 0 <= k < |s| && (r < 0 || k < r) ==> s[k] != c
  {
    if s == [] then -1
    else if s[0] == c then 0
    else var r := IndexChar(s[1..], c); if r < 0 then -1 else r + 1
  }

  /** strings.LastIndex for one character. */
  function LastIndexChar(s: string, c: char): (r: int)
    ensures -1 <= r < |s|
    ensures r >= 0 ==> s[r] == c
    ensures forall k :: r < k < |s| ==> s[k] != c
  {
    if s == [] then -1
    else if s[|s| - 1] == c then |s| - 1
    else LastIndexChar(s[..|s| - 1], c)
  }

  // ---------------------------------------------------------------------------
  // Splitting and joining

  function Concat(parts: seq<string>): (r: string) {
    if parts == [] then "" else parts[0] + Concat(parts[1..])
  }

  lemma ConcatAppend(a: seq<string>, b: seq<string>)
    ensures Concat(a + b) == Concat(a) + Concat(b)
  {
    if a == [] {
      assert a + b == b;
    } else {
      assert (a + b)[1..] == a[1..] + b;
      ConcatAppend(a[1..], b);
      calc {
        Concat(a + b);
        (a + b)[0] + Concat((a + b)[1..]);
        a[0] + (Concat(a[1..]) + Concat(b));
        (a[0] + Concat(a[1..])) + Concat(b);
      }
    }
  }

  lemma ConcatOne(s: string)
    ensures Concat([s]) == s
  {
    assert [s][1..] == [];
  }

  function Join(parts: seq<string>, sep: char): string {
    if parts == [] then ""
    else if |parts| == 1 then parts[0]
    else parts[0] + [sep] + Join(parts[1..], sep)
  }

  /** strings.Split on a one-character separator. */
  function Split(s: string, sep: char): (r: seq<string>)
    ensures |r| >= 1
    ensures forall i :: 0 <= i < |r| ==> sep !in r[i]
    decreases |s|
  {
    var i := IndexChar(s, sep);
    if i < 0 then [s] else [s[..i]] + Split(s[i + 1..], sep)
  }

  lemma Decompose(s: string, i: nat)
    requires i < |s|
    ensures s == s[..i] + [s[i]] + s[i + 1..]
  {
  }

  lemma {:induction false} JoinSplit(s: string, sep: char)
    ensures Join(Split(s, sep), sep) == s
    decreases |s|
  {
    var i := IndexChar(s, sep);
    if i >= 0 {
      var rest := s[i + 1..];
      var p := Split(rest, sep);
      JoinSplit(rest, sep);
      assert Split(s, sep) == [s[..i]] + p;
      assert ([s[..i]] + p)[1..] == p;
      assert Join([s[..i]] + p, sep) == s[..i] + [sep] + Join(p, sep);
      Decompose(s, i);
    }
  }

  lemma {:induction false} SplitSep(x: string, y: string, sep: char)
    ensures Split(x + [sep] + y, sep) == Split(x, sep) + Split(y, sep)
    decreases |x|
  {
    var s := x + [sep] + y;
    var i := IndexChar(x, sep);
    if i < 0 {
      assert s[|x|] == sep;
      assert IndexChar(s, sep) == |x| by {
        forall k | 0 <= k < |x| ensures s[k] != sep {
          assert s[k] == x[k];
        }
      }
      assert s[..|x|] == x;
      assert s[|x| + 1..] == y;
    } else {
      assert IndexChar(s, sep) == i by {
        assert s[i] == x[i];
        forall k | 0 <= k < i ensures s[k] != sep {
          assert s[k] == x[k];
        }
      }
      assert s[..i] == x[..i];
      assert s[i + 1..] == x[i + 1..] + [sep] + y;
      SplitSep(x[i + 1..], y, sep);
    }
  }

  lemma SplitNoSep(x: string, sep: char)
    requires sep !in x
    ensures Split(x, sep) == [x]
  {
    assert IndexChar(x, sep) < 0;
  }

  lemma AppendAssoc<T>(a: seq<T>, b: seq<T>, c: seq<T>)
    ensures a + (b + c) == a + b + c
  {
  }

  lemma SliceOfSlice<T>(s: seq<T>, a: nat, b: nat)
    requires a + b <= |s|
    ensures s[a..][..b] == s[a..a + b]
    ensures s[a..][b..] == s[a + b..]
  {
  }

  /** A separator-free first piece splits off on its own. */
  lemma SplitCons(x: string, y: string, sep: char)
    requires sep !in x
    ensures Split(x + [sep] + y, sep) == [x] + Split(y, sep)
  {
    SplitSep(x, y, sep);
    SplitNoSep(x, sep);
  }

  lemma {:induction false} SplitJoin(parts: seq<string>, sep: char)
    requires |parts| >= 1
    requires forall i :: 0 <= i < |parts| ==> sep !in parts[i]
    ensures Split(Join(parts, sep), sep) == parts
  {
    SplitNoSep(parts[0], sep);
    if |parts| > 1 {
      SplitSep(parts[0], Join(parts[1..], sep), sep);
      SplitJoin(parts[1..], sep);
      assert parts == [parts[0]] + parts[1..];
    }
  }

  /** strings.SplitAfter on a one-character separator: each piece keeps its separator. */
  function SplitAfter(s: string, sep: char): (r: seq<string>)
    ensures |r| >= 1
    ensures Concat(r) == s
    ensures forall i :: 0 <= i < |r| - 1 ==> r[i] != [] && r[i][|r[i]| - 1] == sep
    ensures sep !in r[|r| - 1]
    decreases |s|
  {
    var i := IndexChar(s, sep);
    if i < 0 then [s]
    else
      var rest := SplitAfter(s[i + 1..], sep);
      assert s == s[..i + 1] + s[i + 1..];
      [s[..i + 1]] + rest
  }

  /** The length of the run of non-space characters at the front of `s`. */
  function SpanNonSpace(s: string): (n: nat)
    ensures n <= |s|
    ensures forall i :: 0 <= i < n ==> !IsSpace(s[i])
    ensures n == |s| || IsSpace(s[n])
  {
    if s == [] || IsSpace(s[0]) then 0 else 1 + SpanNonSpace(s[1..])
  }

  /** strings.Fields: the maximal runs of non-space characters. */
  function Fields(s: string): (r: seq<string>)
    ensures forall i :: 0 <= i < |r| ==> r[i] != [] && NoSpace(r[i])
    decreases |s|
  {
    var t := TrimLeft(s);
    if t == [] then []
    else
      var n := SpanNonSpace(t);
      var w := t[..n];
      assert n > 0 && NoSpace(w);
      [w] + Fields(t[n..])
  }

  lemma FieldsOfWord(w: string)
    requires w != [] && NoSpace(w)
    ensures Fields(w) == [w]
  {
    SpanNonSpaceAll(w);
    assert TrimLeft(w) == w;
    assert w[..|w|] == w;
    assert w[|w|..] == [];
    assert Fields([]) == [];
  }

  lemma TrimLeftNonSpace(s: string)
    requires s != [] && !IsSpace(s[0])
    ensures TrimLeft(s) == s
  {
  }

  lemma FieldsLeadingSpace(s: string)
    ensures Fields(" " + s) == Fields(s)
  {
    assert (" " + s)[1..] == s;
    assert TrimLeft(" " + s) == TrimLeft(s);
  }

  /** Fields of a word, a space and more text: the word, then the fields of the rest. */
  lemma FieldsOfSpaced(w: string, rest: string)
    requires w != [] && NoSpace(w)
    ensures Fields(w + " " + rest) == [w] + Fields(rest)
  {
    var s := w + " " + rest;
    TrimLeftNonSpace(s);
    assert s[|w|] == ' ';
    SpanNonSpacePrefix(s, |w|);
    assert s[..|w|] == w;
    assert s[|w|..] == " " + rest;
    FieldsLeadingSpace(rest);
  }

  lemma SpanNonSpaceAll(s: string)
    requires NoSpace(s)
    ensures SpanNonSpace(s) == |s|
  {
    if s != [] {
      SpanNonSpaceAll(s[1..]);
    }
  }

  lemma SpanNonSpacePrefix(s: string, n: nat)
    requires n < |s| && IsSpace(s[n])
    requires forall i :: 0 <= i < n ==> !IsSpace(s[i])
    ensures SpanNonSpace(s) == n
  {
    if n > 0 {
      SpanNonSpacePrefix(s[1..], n - 1);
    }
  }

  // ---------------------------------------------------------------------------
  // Decimal numbers

  function DigitChar(d: nat): char
    requires d < 10
  {
    ('0' as int + d) as char
  }

  function DigitValue(c: char): nat
    requires IsDigit(c)
  {
    c as int - '0' as int
  }

  /** The value of a run of decimal digits, most significant first. */
  function DigitsValue(d: string): nat
    requires AllDigits(d)
  {
    if d == [] then 0 else DigitsValue(d[..|d| - 1]) * 10 + DigitValue(d[|d| - 1])
  }

  /** fmt.Sprintf("%d", n) for a non-negative n. */
  function Itoa(n: nat): (r: string)
    ensures r != [] && AllDigits(r)
    ensures r[0] == '0' ==> n == 0
  {
    if n < 10 then [DigitChar(n)] else Itoa(n / 10) + [DigitChar(n % 10)]
  }

  /**
   * strconv.Atoi with its error ignored: an optional sign and at least one
   * digit give their value, anything else gives 0.
   */
  function Atoi(s: string): int {
    if s != [] && (s[0] == '+' || s[0] == '-') then
      var d := s[1..];
      if d != [] && AllDigits(d) then (if s[0] == '-' then -(DigitsValue(d) as int) else DigitsValue(d)) else 0
    else if s != [] && AllDigits(s) then DigitsValue(s)
    else 0
  }

  lemma {:induction false} DigitsValueItoa(n: nat)
    ensures DigitsValue(Itoa(n)) == n
  {
    if n >= 10 {
      DigitsValueItoa(n / 10);
      var s := Itoa(n);
      assert s[..|s| - 1] == Itoa(n / 10);
    }
  }

  /** Printing a number and parsing it back gives the number. */
  lemma AtoiItoa(n: nat)
    ensures Atoi(Itoa(n)) == n
  {
    DigitsValueItoa(n);
    assert IsDigit(Itoa(n)[0]);
  }

  /** Distinct numbers print differently. */
  lemma ItoaInjective(m: nat, n: nat)
    requires m != n
    ensures Itoa(m) != Itoa(n)
  {
    AtoiItoa(m);
    AtoiItoa(n);
  }
}
