/** Shared vocabulary of the container: Python values, the container's
    exceptions, Python's insertion-ordered dicts and a few sequence helpers. */
module Types {

  /** An arbitrary Python object (a literal argument, a constructed resource,
      the settings payload, an exception). The core never looks inside one. */
  type Value

  datatype Option<+T> = None | Some(value: T)

  /** The container's exceptions (ContainerError and its subclasses), the
      AttributeError of reading a class attribute that was never bound, and
      an exception raised by a factory, which the core passes through
      unchanged. */
  datatype Error =
    | CircularDependency(resolved: seq<string>, pending: seq<string>)
    | DependencyNotResolved(missing: Option<string>, owner: Option<string>)
    | ContainerReuse
    | InvalidContainerInheritance
    | AttributeUnbound(attribute: string)
    | Raised(exception: Value)

  /** A call that either returns a value or raises one of the errors above. */
  datatype Result<+T> = Ok(value: T) | Err(error: Error) {
    predicate IsFailure() { Err? }

    function PropagateFailure<U>(): Result<U>
      requires Err?
    {
      Err(error)
    }

    function Extract(): T
      requires Ok?
    {
      value
    }
  }

  /** No element occurs twice. */
  ghost predicate Distinct<T>(s: seq<T>) {
    forall i, j :: 0 <= i < j < |s| ==> s[i] != s[j]
  }

  function Elems<T>(s: seq<T>): set<T> {
    set x | x in s
  }

  /** The elements of `s` that `keep` selects, in the order of `s`
      (a Python list comprehension with an `if`). */
  function Filter<T>(s: seq<T>, keep: T -> bool): (r: seq<T>)
    ensures |r| <= |s|
  {
    if |s| == 0 then []
    else Filter(s[..|s| - 1], keep) + (if keep(s[|s| - 1]) then [s[|s| - 1]] else [])
  }

  /** `x` occurs in `s` at an earlier position than `y`. */
  ghost predicate Precedes<T>(s: seq<T>, x: T, y: T) {
    exists a, b :: 0 <= a < b < |s| && s[a] == x && s[b] == y
  }

  /** A Python dict: its keys in insertion order and its entries. */
  datatype OrderedDict<T> = OrderedDict(keys: seq<string>, entries: map<string, T>) {
    ghost predicate Valid() {
      Distinct(keys) && Elems(keys) == entries.Keys
    }

    /** `d[k] = v`: a new key goes to the end, an existing key keeps its place. */
    function Set(k: string, v: T): (d: OrderedDict<T>)
      ensures Valid() ==> d.Valid()
      ensures d.entries == entries[k := v]
    {
      if k in entries then OrderedDict(keys, entries[k := v])
      else OrderedDict(keys + [k], entries[k := v])
    }
  }

  function EmptyDict<T>(): OrderedDict<T> {
    OrderedDict([], map[])
  }

  lemma {:induction false} FilterElems<T>(s: seq<T>, keep: T -> bool)
    ensures Elems(Filter(s, keep)) == set x | x in s && keep(x)
  {
    if |s| > 0 {
      var init, last := s[..|s| - 1], s[|s| - 1];
      FilterElems(init, keep);
      assert s == init + [last];
      var tail := if keep(last) then [last] else [];
      assert Elems(Filter(s, keep)) == Elems(Filter(init, keep)) + Elems(tail);
      assert (set x | x in s && keep(x)) == (set x | x in init && keep(x)) + Elems(tail);
    }
  }

  lemma {:induction false} FilterMember<T>(s: seq<T>, keep: T -> bool, x: T)
    ensures x in Filter(s, keep) <==> x in s && keep(x)
  {
    FilterElems(s, keep);
    assert x in Filter(s, keep) <==> x in Elems(Filter(s, keep));
  }

  lemma {:induction false} FilterDistinct<T>(s: seq<T>, keep: T -> bool)
    requires Distinct(s)
    ensures Distinct(Filter(s, keep))
  {
    if |s| > 0 {
      var init := s[..|s| - 1];
      FilterDistinct(init, keep);
      FilterMember(init, keep, s[|s| - 1]);
    }
  }

  /** Filtering a prefix one element longer. */
  lemma FilterSnoc<T>(s: seq<T>, i: int, keep: T -> bool)
    requires 0 <= i < |s|
    ensures Filter(s[..i + 1], keep) == Filter(s[..i], keep) + (if keep(s[i]) then [s[i]] else [])
  {
    assert s[..i + 1][..i] == s[..i];
  }

  /** Filtering keeps the relative order of what it keeps. */
  lemma {:induction false} FilterPrecedes<T>(s: seq<T>, keep: T -> bool, i: int, j: int)
    requires 0 <= i < j < |Filter(s, keep)|
    ensures Precedes(s, Filter(s, keep)[i], Filter(s, keep)[j])
  {
    var init := s[..|s| - 1];
    var f := Filter(s, keep);
    var fi := Filter(init, keep);
    if j < |fi| {
      FilterPrecedes(init, keep, i, j);
      var a, b :| 0 <= a < b < |init| && init[a] == fi[i] && init[b] == fi[j];
      assert s[a] == f[i] && s[b] == f[j];
    } else {
      assert f[j] == s[|s| - 1];
      FilterMember(init, keep, f[i]);
      var a :| 0 <= a < |init| && init[a] == f[i];
      assert s[a] == f[i];
    }
  }

  /** Two tests that agree on the elements of `s` filter it alike. */
  lemma {:induction false} FilterExt<T>(s: seq<T>, k1: T -> bool, k2: T -> bool)
    requires forall x :: x in s ==> k1(x) == k2(x)
    ensures Filter(s, k1) == Filter(s, k2)
  {
    if |s| > 0 {
      FilterExt(s[..|s| - 1], k1, k2);
    }
  }

  lemma {:induction false} DistinctCard<T>(s: seq<T>)
    requires Distinct(s)
    ensures |Elems(s)| == |s|
  {
    if |s| > 0 {
      var init := s[..|s| - 1];
      DistinctCard(init);
      assert Elems(s) == Elems(init) + {s[|s| - 1]};
    }
  }

  lemma ElemsSnoc<T>(s: seq<T>, x: T)
    ensures Elems(s + [x]) == Elems(s) + {x}
  {
  }

  /** Concatenating two disjoint distinct sequences. */
  lemma DistinctConcat<T>(a: seq<T>, b: seq<T>)
    requires Distinct(a) && Distinct(b) && Elems(a) !! Elems(b)
    ensures Distinct(a + b)
  {
    forall i, j | 0 <= i < j < |a + b| ensures (a + b)[i] != (a + b)[j] {
      if j >= |a| && i < |a| {
        assert (a + b)[i] in Elems(a) && (a + b)[j] in Elems(b);
      }
    }
  }
}
