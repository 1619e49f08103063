/**
 * Python's ordering of `str` values (code point by code point, a proper
 * prefix first), the sorts built on it, line joining and splitting, and
 * decimal rendering of naturals.
 */
module Text {

  /** Python's `a < b` on strings. */
  predicate StrLess(a: string, b: string)
  {
    if a == [] then b != []
    else if b == [] then false
    else if a[0] != b[0] then a[0] < b[0]
    else StrLess(a[1..], b[1..])
  }

  predicate StrLessEq(a: string, b: string)
  {
    a == b || StrLess(a, b)
  }

  lemma {:induction false} StrLessIrreflexive(a: string)
    ensures !StrLess(a, a)
  {
    if a != [] {
      StrLessIrreflexive(a[1..]);
    }
  }

  lemma {:induction false} StrLessAsymmetric(a: string, b: string)
    ensures StrLess(a, b) ==> !StrLess(b, a)
  {
    if a != [] && b != [] && a[0] == b[0] {
      StrLessAsymmetric(a[1..], b[1..]);
    }
  }

  lemma {:induction false} StrLessTransitive(a: string, b: string, c: string)
    requires StrLess(a, b) && StrLess(b, c)
    ensures StrLess(a, c)
  {
    if a != [] && b != [] && c != [] && a[0] == b[0] && b[0] == c[0] {
      StrLessTransitive(a[1..], b[1..], c[1..]);
    }
  }

  lemma {:induction false} StrLessTotal(a: string, b: string)
    ensures a == b || StrLess(a, b) || StrLess(b, a)
  {
    if a != [] && b != [] && a[0] == b[0] {
      StrLessTotal(a[1..], b[1..]);
      if a[1..] == b[1..] {
        assert a == [a[0]] + a[1..] && b == [b[0]] + b[1..];
      }
    }
  }

  // ---------------------------------------------------------------------
  // Sorting
  // ---------------------------------------------------------------------

  predicate StrictlySorted(s: seq<string>)
  {
    forall i, j :: 0 <= i < j < |s| ==> StrLess(s[i], s[j])
  }

  /** `m` is the least element of `S`. */
  predicate IsLeast(m: string, S: set<string>)
  {
    m in S && forall y :: y in S && y != m ==> StrLess(m, y)
  }

  /** Every finite non-empty set of strings has a least element. */
  lemma {:induction false} HasLeast(S: set<string>)
    requires S != {}
    ensures exists m :: IsLeast(m, S)
    decreases S
  {
    var x :| x in S;
    var S' := S - {x};
    if S' == {} {
      assert S == {x};
      assert IsLeast(x, S);
    } else {
      HasLeast(S');
      var m :| IsLeast(m, S');
      StrLessTotal(m, x);
      if StrLess(m, x) {
        forall y | y in S && y != m ensures StrLess(m, y) {
          if y != x {
            assert y in S';
          }
        }
        assert IsLeast(m, S);
      } else {
        forall y | y in S && y != x ensures StrLess(x, y) {
          if y != m {
            assert y in S';
            StrLessTransitive(x, m, y);
          }
        }
        assert IsLeast(x, S);
      }
    }
  }

  lemma LeastUnique(S: set<string>)
    ensures forall m, m' :: IsLeast(m, S) && IsLeast(m', S) ==> m == m'
  {
    forall m, m' | IsLeast(m, S) && IsLeast(m', S) ensures m == m' {
      StrLessAsymmetric(m, m');
    }
  }

  /** `sorted(S)` for a set of strings: ascending, each element once. */
  function SortedSet(S: set<string>): (r: seq<string>)
    ensures StrictlySorted(r)
    ensures forall x :: x in r <==> x in S
    ensures |r| == |S|
    decreases S
  {
    if S == {} then []
    else
      HasLeast(S);
      LeastUnique(S);
      var m :| IsLeast(m, S);
      var rest := SortedSet(S - {m});
      assert forall i :: 0 <= i < |rest| ==> StrLess(m, rest[i]) by {
        forall i | 0 <= i < |rest| ensures StrLess(m, rest[i]) {
          assert rest[i] in S - {m};
        }
      }
      [m] + rest
  }

  /** Two strictly sorted sequences with the same elements are equal. */
  lemma {:induction false} StrictlySortedUnique(s: seq<string>, t: seq<string>)
    requires StrictlySorted(s) && StrictlySorted(t)
    requires forall x :: x in s <==> x in t
    ensures s == t
    decreases |s|
  {
    assert s == [] <==> t == [] by {
      if s != [] { assert s[0] in t; }
      if t != [] { assert t[0] in s; }
    }
    if s != [] {
      assert s[0] == t[0] by {
        assert s[0] in t && t[0] in s;
        var i :| 0 <= i < |t| && t[i] == s[0];
        var j :| 0 <= j < |s| && s[j] == t[0];
        assert StrLessEq(t[0], s[0]) by { if i != 0 { assert StrLess(t[0], t[i]); } }
        assert StrLessEq(s[0], t[0]) by { if j != 0 { assert StrLess(s[0], s[j]); } }
        StrLessAsymmetric(s[0], t[0]);
      }
      forall x ensures x in s[1..] <==> x in t[1..] {
        if x in s[1..] {
          var k :| 0 <= k < |s[1..]| && s[1..][k] == x;
          assert StrLess(s[0], s[k + 1]);
          StrLessIrreflexive(x);
          assert x in t && x != t[0];
          var k' :| 0 <= k' < |t| && t[k'] == x;
          assert t[1..][k' - 1] == x;
        }
        if x in t[1..] {
          var k :| 0 <= k < |t[1..]| && t[1..][k] == x;
          assert StrLess(t[0], t[k + 1]);
          StrLessIrreflexive(x);
          assert x in s && x != s[0];
          var k' :| 0 <= k' < |s| && s[k'] == x;
          assert s[1..][k' - 1] == x;
        }
      }
      StrictlySortedUnique(s[1..], t[1..]);
    }
  }

  /** The two orders results are sorted in: whole strings, or the part before the first `:`. */
  datatype SortKey = WholeString | BeforeColon

  /** `x.split(":")[0]`: the text before the first colon, or all of `x`. */
  function NamePart(x: string): (r: string)
    ensures r <= x
    ensures forall i :: 0 <= i < |r| ==> r[i] != ':'
    ensures |r| < |x| ==> x[|r|] == ':'
  {
    if x == [] || x[0] == ':' then [] else [x[0]] + NamePart(x[1..])
  }

  /** Text without a colon, then a colon: the name part is that text. */
  lemma {:induction false} NamePartBefore(a: string, rest: string)
    requires forall i :: 0 <= i < |a| ==> a[i] != ':'
    ensures NamePart(a + [':'] + rest) == a
  {
    if a != [] {
      assert (a + [':'] + rest)[1..] == a[1..] + [':'] + rest;
      NamePartBefore(a[1..], rest);
      assert [a[0]] + a[1..] == a;
    }
  }

  function Key(x: string, sortKey: SortKey): string
  {
    match sortKey
    case WholeString => x
    case BeforeColon => NamePart(x)
  }

  /** Concatenation is associative (stated on its own so that nested sequences need no extensionality). */
  lemma AppendAssoc<X>(a: seq<X>, b: seq<X>, c: seq<X>)
    ensures (a + b) + c == a + (b + c)
  {
  }

  lemma AppendEmpty<X>(s: seq<X>)
    ensures s + [] == s
  {
  }

  lemma EmptyAppend<X>(s: seq<X>)
    ensures [] + s == s
  {
  }

  /** The head and the tail of a concatenation whose first part is not empty. */
  lemma TailAppend<X>(s: seq<X>, t: seq<X>)
    requires s != []
    ensures (s + t)[0] == s[0] && (s + t)[1..] == s[1..] + t
  {
  }

  /** The prefix of length `i + 1` is the prefix of length `i` and element `i`. */
  lemma TakeNext<X>(s: seq<X>, i: nat)
    requires i < |s|
    ensures s[..i + 1] == s[..i] + [s[i]]
  {
  }

  /** A non-empty sequence is its head followed by its tail. */
  lemma HeadTail<X>(s: seq<X>)
    requires s != []
    ensures [s[0]] + s[1..] == s
  {
  }

  /** A non-empty sequence is its front followed by its last element. */
  lemma FrontLast<X>(s: seq<X>)
    requires s != []
    ensures s[..|s| - 1] + [s[|s| - 1]] == s
  {
  }

  /** Ascending by the key: `sort(key=key)` leaves a list in this state. */
  predicate SortedBy(s: seq<string>, sortKey: SortKey)
  {
    forall i, j :: 0 <= i < j < |s| ==> StrLessEq(Key(s[i], sortKey), Key(s[j], sortKey))
  }

  lemma SortedByTail(s: seq<string>, sortKey: SortKey)
    requires s != [] && SortedBy(s, sortKey)
    ensures SortedBy(s[1..], sortKey)
  {
    forall i, j | 0 <= i < j < |s| - 1
      ensures StrLessEq(Key(s[1..][i], sortKey), Key(s[1..][j], sortKey))
    {
      assert s[1..][i] == s[i + 1] && s[1..][j] == s[j + 1];
    }
  }

  /** Inserts `x` after every element whose key is not greater than its own. */
  function InsertBy(x: string, s: seq<string>, sortKey: SortKey): (r: seq<string>)
    ensures multiset(r) == multiset(s) + multiset{x}
  {
    if s == [] then [x]
    else if StrLess(Key(x, sortKey), Key(s[0], sortKey)) then [x] + s
    else
      assert s == [s[0]] + s[1..];
      [s[0]] + InsertBy(x, s[1..], sortKey)
  }

  /** A head whose key is at most every key of a sorted tail gives a sorted sequence. */
  lemma SortedCons(h: string, rest: seq<string>, sortKey: SortKey)
    requires SortedBy(rest, sortKey)
    requires forall i :: 0 <= i < |rest| ==> StrLessEq(Key(h, sortKey), Key(rest[i], sortKey))
    ensures SortedBy([h] + rest, sortKey)
  {
    var r := [h] + rest;
    forall i, j | 0 <= i < j < |r| ensures StrLessEq(Key(r[i], sortKey), Key(r[j], sortKey)) {
      assert r[j] == rest[j - 1];
      if i > 0 {
        assert r[i] == rest[i - 1];
      }
    }
  }

  /** In a sorted sequence the first key is at most every key. */
  lemma FirstLeast(s: seq<string>, sortKey: SortKey, i: nat)
    requires SortedBy(s, sortKey) && 0 < i < |s|
    ensures StrLessEq(Key(s[0], sortKey), Key(s[i], sortKey))
  {
  }

  /** Inserting `x`, not below the head, into the tail keeps every key at least the head's. */
  lemma InsertAboveHead(x: string, s: seq<string>, sortKey: SortKey)
    requires SortedBy(s, sortKey) && s != [] && !StrLess(Key(x, sortKey), Key(s[0], sortKey))
    ensures forall i :: 0 <= i < |InsertBy(x, s[1..], sortKey)| ==>
              StrLessEq(Key(s[0], sortKey), Key(InsertBy(x, s[1..], sortKey)[i], sortKey))
  {
    var rest := InsertBy(x, s[1..], sortKey);
    StrLessTotal(Key(x, sortKey), Key(s[0], sortKey));
    forall i | 0 <= i < |rest| ensures StrLessEq(Key(s[0], sortKey), Key(rest[i], sortKey)) {
      assert rest[i] in multiset(rest);
      if rest[i] != x {
        assert rest[i] in multiset(s[1..]);
        var k :| 0 <= k < |s[1..]| && s[1..][k] == rest[i];
        FirstLeast(s, sortKey, k + 1);
      }
    }
  }

  /** Inserting into a sequence sorted by key keeps it sorted. */
  lemma {:induction false} InsertByKeepsOrder(x: string, s: seq<string>, sortKey: SortKey)
    requires SortedBy(s, sortKey)
    ensures SortedBy(InsertBy(x, s, sortKey), sortKey)
  {
    if s == [] {
    } else if StrLess(Key(x, sortKey), Key(s[0], sortKey)) {
      forall j | 0 <= j < |s| ensures StrLessEq(Key(x, sortKey), Key(s[j], sortKey)) {
        if j > 0 && Key(s[j], sortKey) != Key(s[0], sortKey) {
          FirstLeast(s, sortKey, j);
          StrLessTransitive(Key(x, sortKey), Key(s[0], sortKey), Key(s[j], sortKey));
        }
      }
      SortedCons(x, s, sortKey);
    } else {
      SortedByTail(s, sortKey);
      InsertByKeepsOrder(x, s[1..], sortKey);
      InsertAboveHead(x, s, sortKey);
      SortedCons(s[0], InsertBy(x, s[1..], sortKey), sortKey);
    }
  }

  /**
   * Python's `list.sort(key=key)`, a stable sort: ascending by key and a
   * permutation of the input (stability is `SortByStable`).
   */
  function SortBy(xs: seq<string>, sortKey: SortKey): (r: seq<string>)
    ensures SortedBy(r, sortKey)
    ensures multiset(r) == multiset(xs)
  {
    if xs == [] then []
    else
      assert xs == xs[..|xs| - 1] + [xs[|xs| - 1]];
      var sorted := SortBy(xs[..|xs| - 1], sortKey);
      InsertByKeepsOrder(xs[|xs| - 1], sorted, sortKey);
      InsertBy(xs[|xs| - 1], sorted, sortKey)
  }

  /** The elements whose key is `k`, in their order in `s`. */
  function WithKey(s: seq<string>, sortKey: SortKey, k: string): seq<string>
  {
    if s == [] then []
    else (if Key(s[0], sortKey) == k then [s[0]] else []) + WithKey(s[1..], sortKey, k)
  }

  lemma {:induction false} WithKeyAppend(s: seq<string>, t: seq<string>, sortKey: SortKey, k: string)
    ensures WithKey(s + t, sortKey, k) == WithKey(s, sortKey, k) + WithKey(t, sortKey, k)
  {
    if s == [] {
      EmptyAppend(t);
    } else {
      TailAppend(s, t);
      WithKeyAppend(s[1..], t, sortKey, k);
      var h := if Key(s[0], sortKey) == k then [s[0]] else [];
      AppendAssoc(h, WithKey(s[1..], sortKey, k), WithKey(t, sortKey, k));
    }
  }

  /** Nothing in a sorted sequence has a key below that of its first element. */
  lemma {:induction false} NoneBelowFirst(s: seq<string>, sortKey: SortKey, k: string)
    requires SortedBy(s, sortKey) && s != [] && StrLess(k, Key(s[0], sortKey))
    ensures WithKey(s, sortKey, k) == []
  {
    StrLessIrreflexive(k);
    if |s| > 1 {
      assert SortedBy(s[1..], sortKey);
      assert StrLessEq(Key(s[0], sortKey), Key(s[1], sortKey));
      if Key(s[1], sortKey) != Key(s[0], sortKey) {
        StrLessTransitive(k, Key(s[0], sortKey), Key(s[1], sortKey));
      }
      NoneBelowFirst(s[1..], sortKey, k);
    }
  }

  lemma WithKeyCons(x: string, s: seq<string>, sortKey: SortKey, k: string)
    ensures WithKey([x] + s, sortKey, k) == (if Key(x, sortKey) == k then [x] else []) + WithKey(s, sortKey, k)
  {
    assert ([x] + s)[0] == x && ([x] + s)[1..] == s;
  }

  /** The step of `InsertByStable` past an element whose key is not above that of `x`. */
  lemma InsertByStableStep(x: string, s: seq<string>, sortKey: SortKey, k: string)
    requires s != [] && !StrLess(Key(x, sortKey), Key(s[0], sortKey))
    requires WithKey(InsertBy(x, s[1..], sortKey), sortKey, k)
             == WithKey(s[1..], sortKey, k) + (if Key(x, sortKey) == k then [x] else [])
    ensures WithKey(InsertBy(x, s, sortKey), sortKey, k)
            == WithKey(s, sortKey, k) + (if Key(x, sortKey) == k then [x] else [])
  {
    var rest := InsertBy(x, s[1..], sortKey);
    var mine: seq<string> := if Key(x, sortKey) == k then [x] else [];
    var first: seq<string> := if Key(s[0], sortKey) == k then [s[0]] else [];
    assert InsertBy(x, s, sortKey) == [s[0]] + rest;
    WithKeyCons(s[0], rest, sortKey, k);
    WithKeyCons(s[0], s[1..], sortKey, k);
    HeadTail(s);
    AppendAssoc(first, WithKey(s[1..], sortKey, k), mine);
  }

  /** Inserting `x` into a sorted sequence puts it after every element with the same key. */
  lemma {:induction false} InsertByStable(x: string, s: seq<string>, sortKey: SortKey, k: string)
    requires SortedBy(s, sortKey)
    ensures WithKey(InsertBy(x, s, sortKey), sortKey, k) == WithKey(s, sortKey, k) + (if Key(x, sortKey) == k then [x] else [])
  {
    if s == [] {
      WithKeyCons(x, [], sortKey, k);
      AppendEmpty([x]);
    } else if StrLess(Key(x, sortKey), Key(s[0], sortKey)) {
      WithKeyCons(x, s, sortKey, k);
      if Key(x, sortKey) == k {
        NoneBelowFirst(s, sortKey, k);
      }
    } else {
      SortedByTail(s, sortKey);
      InsertByStable(x, s[1..], sortKey, k);
      InsertByStableStep(x, s, sortKey, k);
    }
  }

  /** The sort is stable: elements with equal keys keep their relative order. */
  lemma {:induction false} SortByStable(xs: seq<string>, sortKey: SortKey, k: string)
    ensures WithKey(SortBy(xs, sortKey), sortKey, k) == WithKey(xs, sortKey, k)
  {
    if xs != [] {
      var pre, x := xs[..|xs| - 1], xs[|xs| - 1];
      SortByStable(pre, sortKey, k);
      assert SortBy(xs, sortKey) == InsertBy(x, SortBy(pre, sortKey), sortKey);
      InsertByStable(x, SortBy(pre, sortKey), sortKey, k);
      FrontLast(xs);
      WithKeyAppend(pre, [x], sortKey, k);
      WithKeyCons(x, [], sortKey, k);
      AppendEmpty([x]);
    }
  }

  // ---------------------------------------------------------------------
  // Joining and splitting lines
  // ---------------------------------------------------------------------

  /** `sep.join(xs)`. */
  function Join(xs: seq<string>, sep: char): string
  {
    if xs == [] then ""
    else if |xs| == 1 then xs[0]
    else xs[0] + [sep] + Join(xs[1..], sep)
  }

  /** The characters at which Python's `str.splitlines` breaks a line. */
  predicate IsLineBreak(c: char)
  {
    c == '\n' || c == '\r' || c == '\U{000B}' || c == '\U{000C}' || c == '\U{001C}' || c == '\U{001D}'
    || c == '\U{001E}' || c == '\U{0085}' || c == '\U{2028}' || c == '\U{2029}'
  }

  /** The characters Python's `str.strip()` removes (`str.isspace`). */
  predicate IsSpace(c: char)
  {
    c == ' ' || c == '\t' || c == '\U{001F}' || c == '\U{00A0}' || c == '\U{1680}'
    || ('\U{2000}' <= c <= '\U{200A}') || c == '\U{202F}' || c == '\U{205F}' || c == '\U{3000}'
    || IsLineBreak(c)
  }

  predicate HasLineBreak(s: string)
  {
    exists i :: 0 <= i < |s| && IsLineBreak(s[i])
  }

  function FirstLineBreak(s: string): (i: nat)
    requires HasLineBreak(s)
    ensures i < |s| && IsLineBreak(s[i])
    ensures forall k :: 0 <= k < i ==> !IsLineBreak(s[k])
  {
    if IsLineBreak(s[0]) then 0
    else
      assert HasLineBreak(s[1..]) by {
        var i :| 0 <= i < |s| && IsLineBreak(s[i]);
        assert s[1..][i - 1] == s[i];
      }
      FirstLineBreak(s[1..]) + 1
  }

  /**
   * `s.splitlines()`: the text between line breaks, where "\r\n" counts as
   * one break and a break at the very end opens no further line.
   */
  function SplitLines(s: string): (r: seq<string>)
    ensures forall k :: 0 <= k < |r| ==> !HasLineBreak(r[k])
    ensures s == [] <==> r == []
    decreases |s|
  {
    if s == [] then []
    else if !HasLineBreak(s) then [s]
    else
      var i := FirstLineBreak(s);
      var j := if s[i] == '\r' && i + 1 < |s| && s[i + 1] == '\n' then i + 2 else i + 1;
      [s[..i]] + SplitLines(s[j..])
  }

  /** Splitting joined lines gives them back when none is empty or holds a break. */
  lemma {:induction false} SplitLinesJoin(xs: seq<string>)
    requires forall k :: 0 <= k < |xs| ==> xs[k] != [] && !HasLineBreak(xs[k])
    ensures SplitLines(Join(xs, '\n')) == xs
  {
    if |xs| == 1 {
    } else if |xs| > 1 {
      var s := Join(xs, '\n');
      var rest := Join(xs[1..], '\n');
      assert s == xs[0] + ['\n'] + rest;
      assert s[|xs[0]|] == '\n';
      assert HasLineBreak(s);
      var i := FirstLineBreak(s);
      assert i == |xs[0]|;
      assert rest != [] by { assert |rest| >= |xs[1]| by { JoinLength(xs[1..]); } }
      assert s[i] == '\n';
      assert s[..i] == xs[0];
      assert s[i + 1..] == rest;
      SplitLinesJoin(xs[1..]);
    }
  }

  lemma {:induction false} JoinLength(xs: seq<string>)
    requires xs != []
    ensures |Join(xs, '\n')| >= |xs[0]|
  {
  }

  /** Everything before `i` and from `j` on is whitespace. */
  predicate TrimmedAt(s: string, i: nat, j: nat)
    requires i <= j <= |s|
  {
    && (forall k :: 0 <= k < i ==> IsSpace(s[k]))
    && (forall k :: j <= k < |s| ==> IsSpace(s[k]))
  }

  /** `s.strip()`: drops leading and trailing whitespace and keeps the middle. */
  function Strip(s: string): (r: string)
    ensures |r| <= |s|
    ensures r != [] ==> !IsSpace(r[0]) && !IsSpace(r[|r| - 1])
    ensures s == [] || (!IsSpace(s[0]) && !IsSpace(s[|s| - 1])) ==> r == s
  {
    var t := s[LeadingSpaces(s)..];
    t[..TrailingStart(t)]
  }

  /** What `Strip` removes is whitespace, and only from the two ends. */
  lemma StripTrims(s: string)
    ensures exists i, j :: 0 <= i <= j <= |s| && TrimmedAt(s, i, j) && Strip(s) == s[i..j]
  {
    var i := LeadingSpaces(s);
    var t := s[i..];
    var j := TrailingStart(t);
    assert forall k :: i + j <= k < |s| ==> IsSpace(s[k]) by {
      forall k | i + j <= k < |s| ensures IsSpace(s[k]) {
        assert s[k] == t[k - i];
      }
    }
    assert TrimmedAt(s, i, i + j);
    assert t[..j] == s[i..i + j];
  }

  /** The length of the run of whitespace `s` starts with. */
  function LeadingSpaces(s: string): (n: nat)
    ensures n <= |s|
    ensures forall k :: 0 <= k < n ==> IsSpace(s[k])
    ensures n < |s| ==> !IsSpace(s[n])
  {
    if s != [] && IsSpace(s[0]) then
      var n := LeadingSpaces(s[1..]);
      assert forall k :: 1 <= k < n + 1 ==> s[k] == s[1..][k - 1];
      n + 1
    else 0
  }

  /** Where the run of whitespace `s` ends with begins. */
  function TrailingStart(s: string): (n: nat)
    ensures n <= |s|
    ensures forall k :: n <= k < |s| ==> IsSpace(s[k])
    ensures n > 0 ==> !IsSpace(s[n - 1])
  {
    if s != [] && IsSpace(s[|s| - 1]) then
      var n := TrailingStart(s[..|s| - 1]);
      assert forall k :: n <= k < |s| - 1 ==> s[k] == s[..|s| - 1][k];
      n
    else |s|
  }

  // ---------------------------------------------------------------------
  // Decimal rendering
  // ---------------------------------------------------------------------

  predicate IsDigit(c: char)
  {
    '0' <= c <= '9'
  }

  function DigitChar(d: nat): (c: char)
    requires d < 10
    ensures IsDigit(c)
  {
    (d + '0' as int) as char
  }

  /** `str(n)` for a natural number. */
  function NatToString(n: nat): (s: string)
    ensures |s| >= 1
    ensures forall i :: 0 <= i < |s| ==> '0' <= s[i] <= '9'
    ensures n >= 10 ==> s[0] != '0'
  {
    if n < 10 then [DigitChar(n)] else NatToString(n / 10) + [DigitChar(n % 10)]
  }

  /** Different naturals are written differently. */
  lemma {:induction false} NatToStringInjective(a: nat, b: nat)
    requires NatToString(a) == NatToString(b)
    ensures a == b
  {
    var s := NatToString(a);
    if a >= 10 && b >= 10 {
      assert s[|s| - 1] == DigitChar(a % 10) && s[|s| - 1] == DigitChar(b % 10);
      assert s[..|s| - 1] == NatToString(a / 10) && s[..|s| - 1] == NatToString(b / 10);
      NatToStringInjective(a / 10, b / 10);
    }
  }

  /** The length of the run of digits `s` starts with. */
  function DigitRun(s: string): (n: nat)
    ensures n <= |s|
  {
    if s != [] && IsDigit(s[0]) then 1 + DigitRun(s[1..]) else 0
  }

  lemma {:induction false} DigitRunOf(x: string, s: string)
    requires forall i :: 0 <= i < |x| ==> IsDigit(x[i])
    requires s == [] || !IsDigit(s[0])
    ensures DigitRun(x + s) == |x|
  {
    if x != [] {
      assert (x + s)[1..] == x[1..] + s;
      DigitRunOf(x[1..], s);
    }
  }

  /**
   * A number followed by text that does not start with a digit can be read
   * back: the number and the text after it are both determined.
   */
  lemma NumberThenText(a: nat, s: string, b: nat, t: string)
    requires NatToString(a) + s == NatToString(b) + t
    requires s == [] || !IsDigit(s[0])
    requires t == [] || !IsDigit(t[0])
    ensures a == b && s == t
  {
    var x, y := NatToString(a), NatToString(b);
    DigitRunOf(x, s);
    DigitRunOf(y, t);
    assert x == (x + s)[..|x|] && y == (y + t)[..|y|];
    NatToStringInjective(a, b);
    assert s == (x + s)[|x|..] && t == (y + t)[|y|..];
  }
}
