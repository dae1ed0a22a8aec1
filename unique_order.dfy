/** The promise of `make_resolution_order` pins its outcome down: for a given
    graph exactly one result satisfies it, so the declarative description of
    the sort is a complete reference for what the code returns or raises. */
module UniqueOrder {
  import opened Types
  import opened NameSort
  import opened ResolutionOrder

  /** Every name whose dependencies `o` all lists is listed itself: the sort
      stopped only when no further name was ready. */
  ghost predicate Closed(g: Graph, o: seq<string>) {
    forall n :: n in g.entries && g.entries[n] <= Elems(o) ==> n in o
  }

  /** The names the outcome lists: the order, or the names resolved before
      the sort gave up. */
  function Listed(r: Result<seq<string>>): seq<string>
    requires r.Ok? || r.error.CircularDependency?
  {
    if r.Ok? then r.value else r.error.resolved
  }

  /** Either outcome lists a Kahn-shaped sequence that cannot be extended. */
  lemma OutcomeClosed(g: Graph, r: Result<seq<string>>)
    requires g.Valid() && SortOutcome(g, r)
    ensures r.Ok? || r.error.CircularDependency?
    ensures KahnShaped(g, Listed(r)) && Closed(g, Listed(r))
  {
    if r.Err? {
      var done := r.error.resolved;
      forall n | n in g.entries && g.entries[n] <= Elems(done) ensures n in done {
        assert n in Elems(g.keys);
        FilterMember(g.keys, NotIn(done), n);
      }
    }
  }

  /** In a sequence without repetitions, `x` before `y` rules out `y`
      before `x`. */
  lemma PrecedesAsymmetric(s: seq<string>, x: string, y: string)
    requires Distinct(s)
    ensures !(Precedes(s, x, y) && Precedes(s, y, x))
  {
  }

  /** A name with dependencies becomes ready at the position of the last of
      them, which comes before the name itself; the search runs down from
      position `t`. */
  lemma {:induction false} LastDependencyFrom(g: Graph, o: seq<string>, k: int, t: int) returns (s: int)
    requires DependenciesFirst(g, o) && 0 <= t < k < |o|
    requires forall j :: t < j < k ==> o[j] !in g.entries[o[k]]
    requires exists j :: 0 <= j <= t && o[j] in g.entries[o[k]]
    ensures 0 <= s <= t && ReadyAt(g, o, s, o[k])
    decreases t
  {
    var deps := g.entries[o[k]];
    if o[t] in deps {
      s := t;
      forall d | d in deps ensures d in Elems(o[..t + 1]) {
        assert d in Elems(o);
        var j :| 0 <= j < |o| && o[j] == d;
        assert j < k;
        assert o[..t + 1][j] == d;
      }
    } else {
      s := LastDependencyFrom(g, o, k, t - 1);
    }
  }

  lemma LastDependency(g: Graph, o: seq<string>, k: int) returns (t: int)
    requires DependenciesFirst(g, o) && 0 <= k < |o| && !IsRoot(g, o[k])
    ensures 0 <= t < k && ReadyAt(g, o, t, o[k])
  {
    var deps := g.entries[o[k]];
    var d :| d in deps;
    assert d in Elems(o);
    var j :| 0 <= j < |o| && o[j] == d;
    t := LastDependencyFrom(g, o, k, k - 1);
  }

  /** Two sequences that agree up to position `k` agree on what became
      ready before `k`. */
  lemma ReadySharedPrefix(g: Graph, o1: seq<string>, o2: seq<string>, k: int, t: int, n: string)
    requires 0 <= t < k <= |o1| && k <= |o2| && o1[..k] == o2[..k]
    requires ReadyAt(g, o1, t, n)
    ensures ReadyAt(g, o2, t, n)
  {
    assert o1[t] == o1[..k][t];
    assert o1[..t + 1] == o1[..k][..t + 1] && o2[..t + 1] == o2[..k][..t + 1];
  }

  /** If two sequences agree up to `k`, the name at `k` of the first is
      listed by the second (which cannot be extended) at `k` or later. */
  lemma ListedFrom(g: Graph, o1: seq<string>, o2: seq<string>, k: int) returns (m: int)
    requires DependenciesFirst(g, o1) && Closed(g, o2)
    requires 0 <= k < |o1| && k <= |o2| && o1[..k] == o2[..k]
    ensures k <= m < |o2| && o2[m] == o1[k]
  {
    var a := o1[k];
    forall d | d in g.entries[a] ensures d in Elems(o2) {
      assert d in Elems(o1);
      var j :| 0 <= j < |o1| && o1[j] == d;
      assert j < k;
      assert o2[j] == o2[..k][j];
    }
    assert a in o2;
    m :| 0 <= m < |o2| && o2[m] == a;
    assert a !in o1[..k];
    assert a !in o2[..k];
  }

  /** Two Kahn-shaped sequences that cannot be extended and agree up to `k`
      agree at `k`: a different root would break the ascending run of roots
      of one of them, a different later name the release order of one. */
  lemma SameNext(g: Graph, o1: seq<string>, o2: seq<string>, k: int)
    requires g.Valid()
    requires KahnShaped(g, o1) && KahnShaped(g, o2) && Closed(g, o1) && Closed(g, o2)
    requires 0 <= k < |o1| && k < |o2| && o1[..k] == o2[..k]
    ensures o1[k] == o2[k]
  {
    var a, b := o1[k], o2[k];
    var m := ListedFrom(g, o1, o2, k);
    var m' := ListedFrom(g, o2, o1, k);
    LexLessAsymmetric(a, b);
    if !IsRoot(g, a) && !IsRoot(g, b) {
      var ta := LastDependency(g, o1, k);
      var tb := LastDependency(g, o2, k);
      ReadySharedPrefix(g, o1, o2, k, ta, a);
      ReadySharedPrefix(g, o2, o1, k, tb, b);
      PrecedesAsymmetric(g.keys, a, b);
    }
  }

  /** A sequence that cannot be extended is no proper prefix of a sequence
      that lists dependencies first. */
  lemma PrefixIsWhole(g: Graph, o1: seq<string>, o2: seq<string>)
    requires DependenciesFirst(g, o2) && Closed(g, o1)
    requires |o1| <= |o2| && o1 == o2[..|o1|]
    ensures o1 == o2
  {
    if |o1| < |o2| {
      var b := o2[|o1|];
      forall d | d in g.entries[b] ensures d in Elems(o1) {
        assert d in Elems(o2);
        var j :| 0 <= j < |o2| && o2[j] == d;
        assert o1[j] == d;
      }
    }
  }

  lemma {:induction false} ShapedPrefix(g: Graph, o1: seq<string>, o2: seq<string>, k: int)
    requires g.Valid()
    requires KahnShaped(g, o1) && KahnShaped(g, o2) && Closed(g, o1) && Closed(g, o2)
    requires 0 <= k <= |o1| && k <= |o2|
    ensures o1[..k] == o2[..k]
  {
    if k > 0 {
      ShapedPrefix(g, o1, o2, k - 1);
      SameNext(g, o1, o2, k - 1);
      PrefixExtends(o1, o2, k);
    }
  }

  /** Agreeing up to `k - 1` and at `k - 1` is agreeing up to `k`. */
  lemma PrefixExtends(o1: seq<string>, o2: seq<string>, k: int)
    requires 0 < k <= |o1| && k <= |o2|
    requires o1[..k - 1] == o2[..k - 1] && o1[k - 1] == o2[k - 1]
    ensures o1[..k] == o2[..k]
  {
    assert o1[..k] == o1[..k - 1] + [o1[k - 1]];
    assert o2[..k] == o2[..k - 1] + [o2[k - 1]];
  }

  /** A Kahn-shaped sequence that cannot be extended is unique. */
  lemma ShapedUnique(g: Graph, o1: seq<string>, o2: seq<string>)
    requires g.Valid()
    requires KahnShaped(g, o1) && KahnShaped(g, o2) && Closed(g, o1) && Closed(g, o2)
    ensures o1 == o2
  {
    if |o1| <= |o2| {
      ShapedPrefix(g, o1, o2, |o1|);
      assert o1 == o1[..|o1|];
      PrefixIsWhole(g, o1, o2);
    } else {
      ShapedPrefix(g, o1, o2, |o2|);
      assert o2 == o2[..|o2|];
      PrefixIsWhole(g, o2, o1);
    }
  }

  /** The sort is deterministic: one outcome satisfies its promise. */
  lemma OutcomeUnique(g: Graph, r1: Result<seq<string>>, r2: Result<seq<string>>)
    requires g.Valid() && SortOutcome(g, r1) && SortOutcome(g, r2)
    ensures r1 == r2
  {
    OutcomeDecidesOrder(g, r1);
    OutcomeDecidesOrder(g, r2);
    OutcomeClosed(g, r1);
    OutcomeClosed(g, r2);
    ShapedUnique(g, Listed(r1), Listed(r2));
  }

  /** Descriptors declared in the order C, B, A, where C and B each take A. */
  function TieBreakGraph(): Graph {
    OrderedDict(["C", "B", "A"], map["C" := {"A"}, "B" := {"A"}, "A" := {}])
  }

  /** The code releases C and B together when A is listed and keeps them in
      declaration order, so it returns A, C, B, where choosing the smallest
      ready name each time would give A, B, C. */
  lemma TieBreakFollowsDeclarationOrder(r: Result<seq<string>>)
    requires SortOutcome(TieBreakGraph(), r)
    ensures r == Ok(["A", "C", "B"])
    ensures r != Ok(["A", "B", "C"])
  {
    var o := ["A", "C", "B"];
    TieBreakShape();
    assert Elems(o) == TieBreakGraph().entries.Keys;
    OutcomeUnique(TieBreakGraph(), r, Ok(o));
  }

  lemma TieBreakShape()
    ensures KahnShaped(TieBreakGraph(), ["A", "C", "B"])
  {
    TieBreakDependencies();
    TieBreakRoots();
    TieBreakRelease();
  }

  lemma TieBreakDependencies()
    ensures DependenciesFirst(TieBreakGraph(), ["A", "C", "B"])
  {
    var g, o := TieBreakGraph(), ["A", "C", "B"];
    assert o[0] == "A" && o[1] == "C" && o[2] == "B";
    assert "A" != "B" && "A" != "C" && "B" != "C";
    assert g.entries[o[0]] == {} && g.entries[o[1]] == {"A"} && g.entries[o[2]] == {"A"};
  }

  lemma TieBreakRoots()
    ensures RootsFirst(TieBreakGraph(), ["A", "C", "B"])
  {
    var g, o := TieBreakGraph(), ["A", "C", "B"];
    assert o[0] == "A" && o[1] == "C" && o[2] == "B";
    assert forall n :: IsRoot(g, n) <==> n == "A";
  }

  lemma TieBreakRelease()
    ensures ReleaseOrder(TieBreakGraph(), ["A", "C", "B"])
  {
    var g, o := TieBreakGraph(), ["A", "C", "B"];
    assert o[0] == "A" && o[1] == "C" && o[2] == "B";
    assert g.entries[o[0]] == {} && g.entries[o[1]] == {"A"} && g.entries[o[2]] == {"A"};
    assert g.keys[0] == "C" && g.keys[1] == "B";
  }
}
