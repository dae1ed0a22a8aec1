/** Python's ordering of `str` values (code point by code point, a proper
    prefix first) and `list.sort()` on a list of names. */
module NameSort {
  import opened Types

  /** `a < b` on Python strings. */
  predicate LexLess(a: string, b: string)
    decreases |a|
  {
    if |a| == 0 then |b| > 0
    else if |b| == 0 then false
    else if a[0] != b[0] then a[0] < b[0]
    else LexLess(a[1..], b[1..])
  }

  lemma {:induction false} LexLessAsymmetric(a: string, b: string)
    ensures LexLess(a, b) ==> !LexLess(b, a)
    decreases |a|
  {
    if |a| > 0 && |b| > 0 && a[0] == b[0] {
      LexLessAsymmetric(a[1..], b[1..]);
    }
  }

  lemma {:induction false} LexLessTransitive(a: string, b: string, c: string)
    requires LexLess(a, b) && LexLess(b, c)
    ensures LexLess(a, c)
    decreases |a|
  {
    if |a| > 0 && a[0] == b[0] && b[0] == c[0] {
      LexLessTransitive(a[1..], b[1..], c[1..]);
    }
  }

  /** Two different strings are always ordered one way or the other. */
  lemma {:induction false} LexLessTotal(a: string, b: string)
    requires a != b
    ensures LexLess(a, b) || LexLess(b, a)
    decreases |a|
  {
    if |a| > 0 && |b| > 0 && a[0] == b[0] {
      assert a == [a[0]] + a[1..] && b == [b[0]] + b[1..];
      LexLessTotal(a[1..], b[1..]);
    }
  }

  /** No later element is smaller than an earlier one. */
  ghost predicate LexSorted(s: seq<string>) {
    forall i, j :: 0 <= i < j < |s| ==> !LexLess(s[j], s[i])
  }

  function Insert(x: string, s: seq<string>): (r: seq<string>)
    requires LexSorted(s)
    ensures LexSorted(r) && multiset(r) == multiset(s) + multiset{x}
  {
    if |s| == 0 then [x]
    else if !LexLess(s[0], x) then
      InsertFront(x, s);
      [x] + s
    else
      var rest := Insert(x, s[1..]);
      InsertBehind(x, s, rest);
      [s[0]] + rest
  }

  /** `x` goes in front of a sorted list whose head is not smaller. */
  lemma InsertFront(x: string, s: seq<string>)
    requires LexSorted(s) && |s| > 0 && !LexLess(s[0], x)
    ensures LexSorted([x] + s)
  {
    forall j | 0 <= j < |s| ensures !LexLess(s[j], x) {
      if j > 0 && s[0] != x {
        LexLessTotal(x, s[0]);
        if LexLess(s[j], x) {
          LexLessTransitive(s[j], x, s[0]);
        }
      }
    }
    var r := [x] + s;
    forall i, j | 0 <= i < j < |r| ensures !LexLess(r[j], r[i]) {
      if i > 0 {
        assert r[i] == s[i - 1] && r[j] == s[j - 1];
      } else {
        assert r[j] == s[j - 1];
      }
    }
  }

  /** `x` goes after a head that is smaller than it. */
  lemma InsertBehind(x: string, s: seq<string>, rest: seq<string>)
    requires LexSorted(s) && |s| > 0 && LexLess(s[0], x)
    requires LexSorted(rest) && multiset(rest) == multiset(s[1..]) + multiset{x}
    ensures LexSorted([s[0]] + rest) && multiset([s[0]] + rest) == multiset(s) + multiset{x}
  {
    assert s == [s[0]] + s[1..];
    forall k | 0 <= k < |rest| ensures !LexLess(rest[k], s[0]) {
      assert rest[k] in multiset(rest);
      if rest[k] == x {
        LexLessAsymmetric(s[0], x);
      } else {
        assert rest[k] in multiset(s[1..]);
        var m :| 0 <= m < |s[1..]| && s[1..][m] == rest[k];
        assert s[m + 1] == rest[k];
      }
    }
    var r := [s[0]] + rest;
    forall i, j | 0 <= i < j < |r| ensures !LexLess(r[j], r[i]) {
      if i > 0 {
        assert r[i] == rest[i - 1] && r[j] == rest[j - 1];
      } else {
        assert r[j] == rest[j - 1];
      }
    }
  }

  /** `sorted(names)`: the same names in ascending Python string order. */
  function SortNames(s: seq<string>): (r: seq<string>)
    ensures LexSorted(r) && multiset(r) == multiset(s)
  {
    if |s| == 0 then []
    else
      assert s == s[..|s| - 1] + [s[|s| - 1]];
      Insert(s[|s| - 1], SortNames(s[..|s| - 1]))
  }

  /** A sorted list of distinct names is strictly ascending. */
  lemma SortedDistinctAscending(s: seq<string>, i: int, j: int)
    requires LexSorted(s) && Distinct(s) && 0 <= i < j < |s|
    ensures LexLess(s[i], s[j])
  {
    LexLessTotal(s[i], s[j]);
  }
}
