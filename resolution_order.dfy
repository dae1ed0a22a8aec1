/** `make_resolution_order` (and its verbatim copy `_make_resolve_order`):
    the dependency graph of a set of named descriptors and the Kahn-style
    topological sort that turns it into a construction order. */
module ResolutionOrder {
  import opened Types
  import opened NameSort
  import opened Descriptor

  /** `DependencyGraph`: descriptor name -> names it depends on, in the
      order of the descriptor dict. */
  type Graph = OrderedDict<set<string>>

  /** The names a descriptor's arguments depend on: only references to a
      descriptor whose name is set and non-empty (truthy) make an edge. */
  function EdgeNames(args: seq<(string, ArgView)>): set<string> {
    set i | 0 <= i < |args| && args[i].1.RefArg? && args[i].1.name.Some? && args[i].1.name.value != "" :: args[i].1.name.value
  }

  function GraphOfViews(names: seq<string>, views: map<string, View>): Graph {
    OrderedDict(names, map n | n in views :: EdgeNames(views[n].kwargs))
  }

  /** The graph that `make_resolution_order` builds from a descriptor dict. */
  function GraphOf(deps: OrderedDict<Dependency>): Graph
    reads Footprint(deps)
  {
    GraphOfViews(deps.keys, ViewsOf(deps))
  }

  /** A descriptor dict whose descriptors were not touched is seen alike
      before and after, and so is its graph. */
  twostate lemma ViewsUnchanged(deps: OrderedDict<Dependency>)
    requires unchanged(Footprint(deps))
    ensures ViewsOf(deps) == old(ViewsOf(deps))
    ensures GraphOf(deps) == old(GraphOf(deps))
  {
  }

  lemma EdgeNamesSnoc(args: seq<(string, ArgView)>, j: int)
    requires 0 <= j < |args|
    ensures EdgeNames(args[..j + 1]) ==
            EdgeNames(args[..j]) + (if args[j].1.RefArg? && args[j].1.name.Some? && args[j].1.name.value != "" then {args[j].1.name.value} else {})
  {
    var a, b := args[..j + 1], args[..j];
    assert forall i :: 0 <= i < j ==> a[i] == b[i];
  }

  /** The inner loop of `make_resolution_order`: the edge set of one
      descriptor, the truthy names of the descriptors among its kwargs. */
  method EdgesOf(dep: Dependency) returns (deps: set<string>)
    ensures deps == EdgeNames(dep.ArgsView())
  {
    ghost var args := dep.ArgsView();
    deps := {};
    for j := 0 to |dep.kwargs|
      invariant deps == EdgeNames(args[..j])
    {
      EdgeNamesSnoc(args, j);
      var value := dep.kwargs[j].1;
      if value.Reference? && value.target.name.Some? && value.target.name.value != "" {
        deps := deps + {value.target.name.value};
      }
    }
    assert args[..|dep.kwargs|] == args;
  }

  /** The graph built from the first `k` descriptors of the dict, with
      `views` the descriptors as seen when the build started. */
  ghost predicate PartialGraph(keys: seq<string>, views: map<string, View>, graph: Graph, k: int) {
    && 0 <= k <= |keys|
    && graph.keys == keys[..k]
    && (forall n :: n in graph.entries <==> n in keys[..k])
    && forall n :: n in graph.entries ==> n in views && graph.entries[n] == EdgeNames(views[n].kwargs)
  }

  lemma PartialGraphStep(keys: seq<string>, views: map<string, View>, graph: Graph, k: int, deps: set<string>)
    requires Distinct(keys) && PartialGraph(keys, views, graph, k) && k < |keys| && keys[k] in views
    requires deps == EdgeNames(views[keys[k]].kwargs)
    ensures PartialGraph(keys, views, graph.Set(keys[k], deps), k + 1)
  {
    var name := keys[k];
    assert name !in keys[..k];
    assert keys[..k + 1] == keys[..k] + [name];
  }

  /** The graph-building loop of `make_resolution_order`: one edge set per
      descriptor, in dict order. */
  method BuildGraph(dependencies: OrderedDict<Dependency>) returns (graph: Graph)
    requires dependencies.Valid()
    ensures graph == GraphOf(dependencies)
  {
    ghost var views := ViewsOf(dependencies);
    graph := EmptyDict();
    for k := 0 to |dependencies.keys|
      invariant PartialGraph(dependencies.keys, views, graph, k)
    {
      var name := dependencies.keys[k];
      var dep := dependencies.entries[name];
      var deps := EdgesOf(dep);
      ViewsUnchanged(dependencies);
      assert name in Elems(dependencies.keys);
      PartialGraphStep(dependencies.keys, views, graph, k, deps);
      graph := graph.Set(name, deps);
    }
    ViewsUnchanged(dependencies);
    GraphFromEntries(dependencies.keys, views, graph);
  }

  lemma GraphFromEntries(keys: seq<string>, views: map<string, View>, graph: Graph)
    requires Elems(keys) == views.Keys && PartialGraph(keys, views, graph, |keys|)
    ensures graph == GraphOfViews(keys, views)
  {
    assert keys[..|keys|] == keys;
    assert graph.entries.Keys == views.Keys by {
      forall n ensures n in graph.entries <==> n in views {
        assert n in keys <==> n in Elems(keys);
      }
    }
  }

  // ----- What the sort promises -----

  ghost predicate IsRoot(g: Graph, n: string) {
    n in g.entries && g.entries[n] == {}
  }

  /** `o` lists distinct names of the graph; every dependency of a listed
      name is listed too, and at an earlier position. */
  ghost predicate DependenciesFirst(g: Graph, o: seq<string>) {
    && Distinct(o)
    && (forall i :: 0 <= i < |o| ==> o[i] in g.entries && g.entries[o[i]] <= Elems(o))
    && forall i, j :: 0 <= i < |o| && 0 <= j < |o| && o[i] in g.entries && o[j] in g.entries[o[i]] ==> j < i
  }

  /** A construction order: every name exactly once, dependencies first. */
  ghost predicate IsResolutionOrder(g: Graph, o: seq<string>) {
    DependenciesFirst(g, o) && Elems(o) == g.entries.Keys
  }

  ghost predicate HasResolutionOrder(g: Graph) {
    exists o :: IsResolutionOrder(g, o)
  }

  /** Every name without dependencies is listed, all of them before any
      other name, in ascending string order. */
  ghost predicate RootsFirst(g: Graph, o: seq<string>) {
    && (forall n :: IsRoot(g, n) ==> n in o)
    && forall i, j :: 0 <= i < j < |o| && IsRoot(g, o[j]) ==> IsRoot(g, o[i]) && LexLess(o[i], o[j])
  }

  /** `n` becomes ready when `o[t]` is dequeued: `o[t]` is the last of its
      dependencies to be listed. */
  ghost predicate ReadyAt(g: Graph, o: seq<string>, t: int, n: string) {
    0 <= t < |o| && n in g.entries && o[t] in g.entries[n] && g.entries[n] <= Elems(o[..t + 1])
  }

  /** After the roots, the queue is first-in first-out: a name that became
      ready earlier is listed earlier, and names that became ready at the
      same dequeue are listed in graph (declaration) order. */
  ghost predicate ReleaseOrder(g: Graph, o: seq<string>) {
    forall i, j, ti, tj :: 0 <= i < j < |o| && ReadyAt(g, o, ti, o[i]) && ReadyAt(g, o, tj, o[j]) ==>
      ti < tj || (ti == tj && Precedes(g.keys, o[i], o[j]))
  }

  ghost predicate KahnShaped(g: Graph, o: seq<string>) {
    DependenciesFirst(g, o) && RootsFirst(g, o) && ReleaseOrder(g, o)
  }

  function NotIn(done: seq<string>): string -> bool {
    n => n !in done
  }

  /** The names of the graph that `done` does not list, in graph order. */
  function Unresolved(g: Graph, done: seq<string>): seq<string> {
    Filter(g.keys, NotIn(done))
  }

  /** What `make_resolution_order` returns or raises for the graph `g`. */
  ghost predicate SortOutcome(g: Graph, r: Result<seq<string>>) {
    match r
    case Ok(o) => IsResolutionOrder(g, o) && KahnShaped(g, o)
    case Err(e) =>
      && e.CircularDependency?
      && !HasResolutionOrder(g)
      && KahnShaped(g, e.resolved)
      && e.pending == Unresolved(g, e.resolved)
      && e.pending != []
      && forall p :: p in e.pending ==> p in g.entries && !(g.entries[p] <= Elems(e.resolved))
  }

  /** The sort succeeds exactly when a construction order exists. */
  lemma OutcomeDecidesOrder(g: Graph, r: Result<seq<string>>)
    requires SortOutcome(g, r)
    ensures r.Ok? <==> HasResolutionOrder(g)
  {
  }

  // ----- The sort -----

  /** The `in_degree` comprehension: every name's number of dependencies. */
  function InitialDegrees(g: Graph): (deg: map<string, int>)
    ensures deg.Keys == g.entries.Keys
    ensures forall n :: n in deg ==> deg[n] == |g.entries[n]|
  {
    map n | n in g.entries :: |g.entries[n]|
  }

  function HasDegree(deg: map<string, int>, k: int): string -> bool {
    n => n in deg && deg[n] == k
  }

  function HasPositiveDegree(deg: map<string, int>): string -> bool {
    n => n in deg && deg[n] > 0
  }

  /** The test that enqueues a name (its in-degree reached zero and it is not
      yet ordered), with `deg` the in-degrees before the decrement. */
  function Released(g: Graph, node: string, deg: map<string, int>, done: seq<string>): string -> bool {
    n => n in g.entries && node in g.entries[n] && n in deg && deg[n] - 1 == 0 && n !in done
  }

  /** The `for` loop inside `while queue`: one pass over the graph after
      `node` was dequeued and appended to `ordered`. */
  method Relax(g: Graph, node: string, ordered: seq<string>, inDegree: map<string, int>, queue: seq<string>)
    returns (deg: map<string, int>, q: seq<string>)
    requires g.Valid() && forall n :: n in inDegree <==> n in g.entries
    ensures forall n :: n in deg <==> n in g.entries
    ensures forall n :: n in g.entries ==> deg[n] == if node in g.entries[n] then inDegree[n] - 1 else inDegree[n]
    ensures q == queue + Filter(g.keys, Released(g, node, inDegree, ordered))
  {
    deg, q := inDegree, queue;
    for i := 0 to |g.keys|
      invariant RelaxInv(g, node, ordered, inDegree, queue, i, deg, q)
    {
      ghost var (deg0, q0) := (deg, q);
      var name := g.keys[i];
      if node in g.entries[name] {
        deg := deg[name := deg[name] - 1];
        if deg[name] == 0 && name !in ordered {
          q := q + [name];
        }
      }
      RelaxStep(g, node, ordered, inDegree, queue, i, deg0, q0, deg, q);
    }
    RelaxDone(g, node, ordered, inDegree, queue, deg, q);
  }

  /** The invariant of Relax's loop once the first `i` names are visited. */
  ghost predicate RelaxInv(g: Graph, node: string, ordered: seq<string>, inDegree: map<string, int>, queue: seq<string>,
                           i: int, deg: map<string, int>, q: seq<string>)
    requires 0 <= i <= |g.keys|
  {
    RelaxedDegrees(g, node, inDegree, i, deg) && q == queue + Filter(g.keys[..i], Released(g, node, inDegree, ordered))
  }

  /** The names among the first `i` that depend on `node` lost one. */
  ghost predicate RelaxedDegrees(g: Graph, node: string, inDegree: map<string, int>, i: int, deg: map<string, int>)
    requires 0 <= i <= |g.keys|
  {
    && (forall n :: n in deg <==> n in g.entries)
    && (forall n :: n in g.entries ==>
          n in inDegree && deg[n] == if n in g.keys[..i] && node in g.entries[n] then inDegree[n] - 1 else inDegree[n])
  }

  /** Visiting the name at `i` keeps RelaxInv. */
  lemma RelaxStep(g: Graph, node: string, ordered: seq<string>, inDegree: map<string, int>, queue: seq<string>,
                  i: int, deg: map<string, int>, q: seq<string>, deg': map<string, int>, q': seq<string>)
    requires g.Valid() && 0 <= i < |g.keys|
    requires RelaxInv(g, node, ordered, inDegree, queue, i, deg, q)
    requires var name := g.keys[i];
             var hit := node in g.entries[name];
             && deg' == (if hit then deg[name := deg[name] - 1] else deg)
             && q' == if hit && deg'[name] == 0 && name !in ordered then q + [name] else q
    ensures RelaxInv(g, node, ordered, inDegree, queue, i + 1, deg', q')
  {
    var name := g.keys[i];
    assert name !in g.keys[..i];
    RelaxDegreesStep(g, node, inDegree, i, deg);
    FilterSnoc(g.keys, i, Released(g, node, inDegree, ordered));
  }

  lemma RelaxDone(g: Graph, node: string, ordered: seq<string>, inDegree: map<string, int>, queue: seq<string>,
                  deg: map<string, int>, q: seq<string>)
    requires g.Valid() && RelaxInv(g, node, ordered, inDegree, queue, |g.keys|, deg, q)
    ensures forall n :: n in deg <==> n in g.entries
    ensures forall n :: n in g.entries ==> deg[n] == if node in g.entries[n] then inDegree[n] - 1 else inDegree[n]
    ensures q == queue + Filter(g.keys, Released(g, node, inDegree, ordered))
  {
    assert g.keys[..|g.keys|] == g.keys;
  }

  lemma RelaxDegreesStep(g: Graph, node: string, inDegree: map<string, int>, i: int, deg: map<string, int>)
    requires g.Valid() && 0 <= i < |g.keys|
    requires RelaxedDegrees(g, node, inDegree, i, deg)
    ensures var name := g.keys[i];
            RelaxedDegrees(g, node, inDegree, i + 1, if node in g.entries[name] then deg[name := deg[name] - 1] else deg)
  {
    var name := g.keys[i];
    assert g.keys[..i + 1] == g.keys[..i] + [name];
    assert name !in g.keys[..i];
  }

  /** The invariant of the `while queue` loop, with `init` the sorted initial
      queue: `ordered + queue` is every name that has been enqueued. */
  ghost predicate KahnInv(g: Graph, init: seq<string>, deg: map<string, int>, ordered: seq<string>, queue: seq<string>) {
    var p := ordered + queue;
    && (forall n :: n in deg <==> n in g.entries)
    && (forall n :: n in g.entries ==> deg[n] == |g.entries[n] - Elems(ordered)|)
    && Distinct(p)
    && (forall n :: n in p ==> n in g.entries)
    && (forall n :: n in g.entries ==> (deg[n] == 0 <==> n in p))
    && DependenciesFirst(g, ordered)
    && init <= p
    && ReleaseOrder(g, p)
  }

  /** The sorted initial queue holds exactly the roots. */
  ghost predicate InitialQueue(g: Graph, init: seq<string>) {
    LexSorted(init) && Distinct(init) && (forall n :: n in init <==> IsRoot(g, n))
  }

  method Kahn(g: Graph) returns (r: Result<seq<string>>)
    requires g.Valid()
    ensures SortOutcome(g, r)
  {
    var inDegree := InitialDegrees(g);
    var queue := Filter(g.keys, HasDegree(inDegree, 0));
    queue := SortNames(queue);
    ghost var init := queue;
    InitialQueueHolds(g, inDegree, init);
    InitialState(g, inDegree, init);
    var ordered: seq<string> := [];
    while queue != []
      invariant KahnInv(g, init, inDegree, ordered, queue)
      decreases Elems(g.keys) - Elems(ordered)
    {
      inDegree, ordered, queue := Dequeue(g, init, inDegree, ordered, queue);
    }
    r := Outcome(g, init, inDegree, ordered);
  }

  /** One turn of the `while queue` loop: dequeue the head, append it to
      `ordered`, and relax the names that depend on it. */
  method Dequeue(g: Graph, ghost init: seq<string>, inDegree: map<string, int>, ordered: seq<string>, queue: seq<string>)
    returns (deg: map<string, int>, o: seq<string>, q: seq<string>)
    requires g.Valid() && queue != [] && KahnInv(g, init, inDegree, ordered, queue)
    ensures KahnInv(g, init, deg, o, q)
    ensures o == ordered + [queue[0]]
    ensures Elems(g.keys) - Elems(o) < Elems(g.keys) - Elems(ordered)
  {
    var node := queue[0];
    q := queue[1..];
    o := ordered + [node];
    Progress(g, init, inDegree, ordered, queue);
    deg, q := Relax(g, node, o, inDegree, q);
    KahnStep(g, init, inDegree, ordered, queue, deg, q);
  }

  /** The length test after the loop, once the queue is empty: all names ordered, or
      CircularDependencyError with the names still waiting. */
  method Outcome(g: Graph, ghost init: seq<string>, inDegree: map<string, int>, ordered: seq<string>) returns (r: Result<seq<string>>)
    requires g.Valid() && InitialQueue(g, init) && KahnInv(g, init, inDegree, ordered, [])
    ensures SortOutcome(g, r)
  {
    if |ordered| != |g.keys| {
      var pending := Filter(g.keys, HasPositiveDegree(inDegree));
      r := Err(CircularDependency(ordered, pending));
    } else {
      r := Ok(ordered);
    }
    FinalState(g, init, inDegree, ordered, r);
  }

  /** The length test after the loop: the outcome once the queue is empty. */
  lemma FinalState(g: Graph, init: seq<string>, deg: map<string, int>, ordered: seq<string>, r: Result<seq<string>>)
    requires g.Valid() && InitialQueue(g, init) && KahnInv(g, init, deg, ordered, [])
    requires r == if |ordered| != |g.keys| then Err(CircularDependency(ordered, Filter(g.keys, HasPositiveDegree(deg))))
                  else Ok(ordered)
    ensures SortOutcome(g, r)
  {
    if |ordered| != |g.keys| {
      FailedState(g, init, deg, ordered);
      FailedOutcome(g, ordered, r.error.pending);
    } else {
      SucceededState(g, init, deg, ordered);
    }
  }

  // ----- Proof of the sort -----

  lemma DistinctFromMultiset(a: seq<string>, b: seq<string>)
    requires multiset(a) == multiset(b) && Distinct(b)
    ensures Distinct(a)
  {
    forall i, j | 0 <= i < j < |a| ensures a[i] != a[j] {
      if a[i] == a[j] {
        assert a[..j + 1] == a[..j] + [a[j]];
        assert a[i] in multiset(a[..j]);
        assert multiset(a[..j + 1])[a[j]] >= 2;
        assert a == a[..j + 1] + a[j + 1..];
        assert multiset(a)[a[j]] >= 2;
        DistinctAtMostOnce(b, a[j]);
      }
    }
  }

  lemma {:induction false} DistinctAtMostOnce(b: seq<string>, x: string)
    requires Distinct(b)
    ensures multiset(b)[x] <= 1
  {
    if |b| > 0 {
      var init := b[..|b| - 1];
      assert b == init + [b[|b| - 1]];
      DistinctAtMostOnce(init, x);
      if x == b[|b| - 1] {
        assert x !in init;
      }
    }
  }

  lemma InitialState(g: Graph, deg: map<string, int>, init: seq<string>)
    requires g.Valid() && deg == InitialDegrees(g) && InitialQueue(g, init)
    ensures KahnInv(g, init, deg, [], init)
  {
    assert [] + init == init;
    forall n | n in g.entries ensures deg[n] == |g.entries[n] - Elems([])| {
      assert g.entries[n] - Elems([]) == g.entries[n];
    }
    forall n | n in g.entries ensures deg[n] == 0 <==> n in init {
      assert IsRoot(g, n) <==> n in init;
      assert |g.entries[n]| == 0 <==> g.entries[n] == {};
    }
    RootsNeverReady(g, init);
  }

  /** The sorted zero-in-degree names are exactly the roots. */
  lemma InitialQueueHolds(g: Graph, deg: map<string, int>, init: seq<string>)
    requires g.Valid() && deg == InitialDegrees(g)
    requires init == SortNames(Filter(g.keys, HasDegree(deg, 0)))
    ensures InitialQueue(g, init)
  {
    var zero := Filter(g.keys, HasDegree(deg, 0));
    FilterDistinct(g.keys, HasDegree(deg, 0));
    DistinctFromMultiset(init, zero);
    forall n ensures n in init <==> IsRoot(g, n) {
      assert n in init <==> n in multiset(init);
      assert n in zero <==> n in multiset(zero);
      FilterMember(g.keys, HasDegree(deg, 0), n);
      assert n in g.keys <==> n in Elems(g.keys);
      if n in g.entries {
        assert |g.entries[n]| == 0 <==> g.entries[n] == {};
      }
    }
  }

  /** A name without dependencies is never ready at any dequeue, so a
      sequence of roots is trivially in release order. */
  lemma RootsNeverReady(g: Graph, o: seq<string>)
    requires forall n :: n in o ==> IsRoot(g, n)
    ensures ReleaseOrder(g, o)
  {
    forall i, t | 0 <= i < |o| ensures !ReadyAt(g, o, t, o[i]) {
      assert IsRoot(g, o[i]);
    }
  }

  /** `|A - {x}| == |A| - 1` for `x` in `A`, and a one-element set. */
  lemma RemoveOne(a: set<string>, x: string)
    requires x in a
    ensures |a - {x}| == |a| - 1
    ensures |a| == 1 ==> a == {x}
  {
    assert a == (a - {x}) + {x};
    if |a| == 1 {
      assert |a - {x}| == 0;
    }
  }

  /** In a sequence without repetitions, an element listed in `s[..k]` sits
      at an index below `k`. */
  lemma IndexBelow(s: seq<string>, k: int, t: int)
    requires Distinct(s) && 0 <= k <= |s| && 0 <= t < |s| && s[t] in s[..k]
    ensures t < k
  {
    var m :| 0 <= m < k && s[..k][m] == s[t];
    assert s[m] == s[t];
  }

  /** One iteration of the `while queue` loop keeps the invariant. */
  lemma KahnStep(g: Graph, init: seq<string>, deg: map<string, int>, ordered: seq<string>, queue: seq<string>,
                 deg': map<string, int>, queue': seq<string>)
    requires g.Valid() && queue != []
    requires KahnInv(g, init, deg, ordered, queue)
    requires forall n :: n in deg' <==> n in g.entries
    requires forall n :: n in g.entries ==> deg'[n] == if queue[0] in g.entries[n] then deg[n] - 1 else deg[n]
    requires queue' == queue[1..] + Filter(g.keys, Released(g, queue[0], deg, ordered + [queue[0]]))
    ensures KahnInv(g, init, deg', ordered + [queue[0]], queue')
  {
    var node := queue[0];
    var o' := ordered + [node];
    var rel := Filter(g.keys, Released(g, node, deg, o'));
    var p := ordered + queue;
    Requeue(ordered, queue, rel);
    HeadFacts(g, deg, ordered, queue);
    DegreeStep(g, deg, ordered, node, deg');
    EnqueuedDeps(g, deg, ordered, queue);
    ReleasedFacts(g, deg, ordered, p, node, rel);
    FilterDistinct(g.keys, Released(g, node, deg, o'));
    DistinctConcat(p, rel);
    ZeroStep(g, deg, deg', ordered, queue, node, rel);
    DependenciesFirstStep(g, ordered, queue);
    ReleaseStep(g, ordered, queue, rel, node, deg);
  }

  /** Popping the head moves a name that was not yet ordered. */
  lemma Progress(g: Graph, init: seq<string>, deg: map<string, int>, ordered: seq<string>, queue: seq<string>)
    requires g.Valid() && queue != [] && KahnInv(g, init, deg, ordered, queue)
    ensures queue[0] in Elems(g.keys) - Elems(ordered)
    ensures Elems(ordered + [queue[0]]) == Elems(ordered) + {queue[0]}
  {
    HeadFacts(g, deg, ordered, queue);
    ElemsSnoc(ordered, queue[0]);
  }

  lemma FailedOutcome(g: Graph, ordered: seq<string>, pending: seq<string>)
    requires !HasResolutionOrder(g) && KahnShaped(g, ordered)
    requires pending == Unresolved(g, ordered) && pending != []
    requires forall p :: p in pending ==> p in g.entries && !(g.entries[p] <= Elems(ordered))
    ensures SortOutcome(g, Err(CircularDependency(ordered, pending)))
  {
  }

  /** Popping the head and appending `rel` to the queue. */
  lemma Requeue(ordered: seq<string>, queue: seq<string>, rel: seq<string>)
    requires queue != []
    ensures (ordered + [queue[0]]) + (queue[1..] + rel) == ordered + queue + rel
  {
    assert queue == [queue[0]] + queue[1..];
  }

  /** The dequeued name was never popped before, and all its dependencies were. */
  lemma HeadFacts(g: Graph, deg: map<string, int>, ordered: seq<string>, queue: seq<string>)
    requires queue != [] && (forall n :: n in deg <==> n in g.entries) && Distinct(ordered + queue)
    requires forall n :: n in ordered + queue ==> n in g.entries
    requires forall n :: n in g.entries ==> deg[n] == |g.entries[n] - Elems(ordered)|
    requires forall n :: n in g.entries ==> (deg[n] == 0 <==> n in ordered + queue)
    ensures queue[0] !in ordered && queue[0] in g.entries
    ensures g.entries[queue[0]] <= Elems(ordered)
  {
    var p := ordered + queue;
    assert p[|ordered|] == queue[0];
    assert forall m :: 0 <= m < |ordered| ==> p[m] == ordered[m];
    assert queue[0] in p;
    NoneLeft(g.entries[queue[0]], Elems(ordered));
  }

  lemma DegreeStep(g: Graph, deg: map<string, int>, ordered: seq<string>, node: string, deg': map<string, int>)
    requires node !in ordered
    requires forall n :: n in g.entries ==> n in deg && deg[n] == |g.entries[n] - Elems(ordered)|
    requires forall n :: n in g.entries ==> n in deg' && deg'[n] == if node in g.entries[n] then deg[n] - 1 else deg[n]
    ensures forall n :: n in g.entries ==> deg'[n] == |g.entries[n] - Elems(ordered + [node])|
  {
    assert Elems(ordered + [node]) == Elems(ordered) + {node};
    forall n | n in g.entries ensures deg'[n] == |g.entries[n] - Elems(ordered + [node])| {
      if node in g.entries[n] {
        assert g.entries[n] - Elems(ordered + [node]) == (g.entries[n] - Elems(ordered)) - {node};
        RemoveOne(g.entries[n] - Elems(ordered), node);
      } else {
        assert g.entries[n] - Elems(ordered + [node]) == g.entries[n] - Elems(ordered);
      }
    }
  }

  /** Everything enqueued depends only on names already popped. */
  lemma EnqueuedDeps(g: Graph, deg: map<string, int>, ordered: seq<string>, queue: seq<string>)
    requires forall n :: n in ordered + queue ==> n in g.entries
    requires forall n :: n in g.entries ==> n in deg && deg[n] == |g.entries[n] - Elems(ordered)|
    requires forall n :: n in g.entries ==> (deg[n] == 0 <==> n in ordered + queue)
    requires DependenciesFirst(g, ordered)
    ensures forall x :: x in ordered + queue ==> x in g.entries && g.entries[x] <= Elems(ordered)
  {
    var p := ordered + queue;
    forall x | x in p ensures x in g.entries && g.entries[x] <= Elems(ordered) {
      var m :| 0 <= m < |p| && p[m] == x;
      if m < |ordered| {
        assert ordered[m] == x;
      } else {
        assert deg[x] == 0;
        NoneLeft(g.entries[x], Elems(ordered));
      }
    }
  }

  /** No element of `a` is outside `b`. */
  lemma NoneLeft(a: set<string>, b: set<string>)
    requires |a - b| == 0
    ensures a <= b
  {
    assert a - b == {};
    assert forall x :: x in a ==> x in b || x in a - b;
  }

  /** A name released by popping `node` waits on nothing but `node` and the
      names popped before it, and was not enqueued before. */
  lemma ReleasedFacts(g: Graph, deg: map<string, int>, ordered: seq<string>, p: seq<string>, node: string, rel: seq<string>)
    requires node !in ordered
    requires forall n :: n in g.entries ==> n in deg && deg[n] == |g.entries[n] - Elems(ordered)|
    requires forall n :: n in g.entries ==> (deg[n] == 0 <==> n in p)
    requires rel == Filter(g.keys, Released(g, node, deg, ordered + [node]))
    ensures forall y :: y in rel ==>
      y in g.entries && node in g.entries[y] && y !in p && g.entries[y] <= Elems(ordered + [node])
  {
    forall y | y in rel
      ensures y in g.entries && node in g.entries[y] && y !in p && g.entries[y] <= Elems(ordered + [node])
    {
      FilterMember(g.keys, Released(g, node, deg, ordered + [node]), y);
      var rest := g.entries[y] - Elems(ordered);
      assert node in rest;
      RemoveOne(rest, node);
      assert Elems(ordered + [node]) == Elems(ordered) + {node};
    }
  }

  lemma ZeroStep(g: Graph, deg: map<string, int>, deg': map<string, int>, ordered: seq<string>, queue: seq<string>,
                 node: string, rel: seq<string>)
    requires g.Valid() && queue != [] && node == queue[0] && node !in ordered
    requires forall n :: n in g.entries ==> n in deg && deg[n] == |g.entries[n] - Elems(ordered)|
    requires forall n :: n in g.entries ==> (deg[n] == 0 <==> n in ordered + queue)
    requires forall n :: n in g.entries ==> n in deg' && deg'[n] == if node in g.entries[n] then deg[n] - 1 else deg[n]
    requires rel == Filter(g.keys, Released(g, node, deg, ordered + [node]))
    ensures forall n :: n in g.entries ==> (deg'[n] == 0 <==> n in ordered + queue + rel)
  {
    var p := ordered + queue;
    forall n | n in g.entries ensures deg'[n] == 0 <==> n in p + rel {
      FilterMember(g.keys, Released(g, node, deg, ordered + [node]), n);
      assert n in g.keys <==> n in Elems(g.keys);
      assert n in p + rel <==> n in p || n in rel;
      if node in g.entries[n] {
        assert node in g.entries[n] - Elems(ordered);
        assert deg[n] != 0;
        assert n !in p;
        assert n !in ordered && n != node;
        assert n !in ordered + [node];
        assert n in rel <==> deg[n] - 1 == 0;
      } else {
        assert n !in rel;
      }
    }
  }

  lemma DependenciesFirstStep(g: Graph, ordered: seq<string>, queue: seq<string>)
    requires queue != [] && Distinct(ordered + queue) && DependenciesFirst(g, ordered)
    requires queue[0] !in ordered && queue[0] in g.entries && g.entries[queue[0]] <= Elems(ordered)
    ensures DependenciesFirst(g, ordered + [queue[0]])
  {
    var node := queue[0];
    var o' := ordered + [node];
    assert Elems(o') == Elems(ordered) + {node};
    forall i, j | 0 <= i < |o'| && 0 <= j < |o'| && o'[i] in g.entries && o'[j] in g.entries[o'[i]] ensures j < i {
      if i < |ordered| {
        assert o'[i] == ordered[i];
      } else {
        assert o'[j] in Elems(ordered);
        if j < |ordered| {
          assert o'[j] == ordered[j];
        }
      }
    }
    forall i, j | 0 <= i < j < |o'| ensures o'[i] != o'[j] {
      assert o'[i] == (ordered + queue)[i] && o'[j] == (ordered + queue)[j];
    }
  }

  lemma ReleaseStep(g: Graph, ordered: seq<string>, queue: seq<string>, rel: seq<string>, node: string, deg: map<string, int>)
    requires g.Valid() && queue != [] && node == queue[0]
    requires Distinct(ordered + queue + rel) && ReleaseOrder(g, ordered + queue)
    requires forall x :: x in ordered + queue ==> x in g.entries && g.entries[x] <= Elems(ordered)
    requires forall y :: y in rel ==> y in g.entries && node in g.entries[y] && g.entries[y] <= Elems(ordered + [node])
    requires rel == Filter(g.keys, Released(g, node, deg, ordered + [node]))
    ensures ReleaseOrder(g, ordered + queue + rel)
  {
    var p' := ordered + queue + rel;
    forall i, j, ti, tj | 0 <= i < j < |p'| && ReadyAt(g, p', ti, p'[i]) && ReadyAt(g, p', tj, p'[j])
      ensures ti < tj || (ti == tj && Precedes(g.keys, p'[i], p'[j]))
    {
      ReleasePair(g, ordered, queue, rel, node, deg, i, j, ti, tj);
    }
  }

  /** ReleaseStep for one pair of positions. */
  lemma ReleasePair(g: Graph, ordered: seq<string>, queue: seq<string>, rel: seq<string>, node: string, deg: map<string, int>,
                    i: int, j: int, ti: int, tj: int)
    requires g.Valid() && queue != [] && node == queue[0]
    requires Distinct(ordered + queue + rel) && ReleaseOrder(g, ordered + queue)
    requires forall x :: x in ordered + queue ==> x in g.entries && g.entries[x] <= Elems(ordered)
    requires forall y :: y in rel ==> y in g.entries && node in g.entries[y] && g.entries[y] <= Elems(ordered + [node])
    requires rel == Filter(g.keys, Released(g, node, deg, ordered + [node]))
    requires var p' := ordered + queue + rel;
             0 <= i < j < |p'| && ReadyAt(g, p', ti, p'[i]) && ReadyAt(g, p', tj, p'[j])
    ensures var p' := ordered + queue + rel;
            ti < tj || (ti == tj && Precedes(g.keys, p'[i], p'[j]))
  {
    var p := ordered + queue;
    var p' := p + rel;
    ReadyTime(g, ordered, queue, rel, i, ti);
    ReadyTime(g, ordered, queue, rel, j, tj);
    if j < |p| {
      assert p'[i] == p[i] && p'[j] == p[j];
      assert p'[..ti + 1] == p[..ti + 1] && p'[..tj + 1] == p[..tj + 1];
      assert ReadyAt(g, p, ti, p[i]) && ReadyAt(g, p, tj, p[j]);
    } else if i >= |p| {
      assert p'[i] == rel[i - |p|] && p'[j] == rel[j - |p|];
      FilterPrecedes(g.keys, Released(g, node, deg, ordered + [node]), i - |p|, j - |p|);
    }
  }

  /** When a name enqueued before this step is ready at `t`, then `t` is
      below the number of names popped before this step; a name released
      in this step is ready exactly at this step's dequeue. */
  lemma ReadyTime(g: Graph, ordered: seq<string>, queue: seq<string>, rel: seq<string>, i: int, t: int)
    requires g.Valid() && queue != []
    requires var p' := ordered + queue + rel; Distinct(p') && 0 <= i < |p'| && ReadyAt(g, p', t, p'[i])
    requires forall x :: x in ordered + queue ==> x in g.entries && g.entries[x] <= Elems(ordered)
    requires forall y :: y in rel ==> y in g.entries && queue[0] in g.entries[y] && g.entries[y] <= Elems(ordered + [queue[0]])
    ensures i < |ordered + queue| ==> t < |ordered|
    ensures i >= |ordered + queue| ==> t == |ordered|
  {
    var p := ordered + queue;
    var p' := p + rel;
    assert p'[..|ordered|] == ordered;
    assert p'[..|ordered| + 1] == ordered + [queue[0]];
    if i < |p| {
      assert p'[i] == p[i] && p[i] in p;
      assert p'[t] in Elems(ordered);
      IndexBelow(p', |ordered|, t);
    } else {
      var y := p'[i];
      assert y == rel[i - |p|] && y in rel;
      assert p'[t] in Elems(ordered + [queue[0]]);
      IndexBelow(p', |ordered| + 1, t);
      assert p'[|ordered|] == queue[0];
      assert queue[0] in p'[..t + 1];
      IndexBelow(p', t + 1, |ordered|);
    }
  }

  /** The roots come first and sorted, given that they form the initial queue. */
  lemma RootsFirstFromInit(g: Graph, init: seq<string>, o: seq<string>)
    requires InitialQueue(g, init) && init <= o && Distinct(o)
    ensures RootsFirst(g, o)
  {
    forall n | IsRoot(g, n) ensures n in o {
      var m :| 0 <= m < |init| && init[m] == n;
      assert o[m] == n;
    }
    forall i, j | 0 <= i < j < |o| && IsRoot(g, o[j]) ensures IsRoot(g, o[i]) && LexLess(o[i], o[j]) {
      var m :| 0 <= m < |init| && init[m] == o[j];
      assert o[m] == o[j];
      assert m == j;
      assert o[i] == init[i] && o[j] == init[j];
      SortedDistinctAscending(init, i, j);
    }
  }

  lemma SubsetEqualCard(a: set<string>, b: set<string>)
    requires a <= b && |a| == |b|
    ensures a == b
  {
    assert |b - a| == |b| - |a|;
  }

  lemma SucceededState(g: Graph, init: seq<string>, deg: map<string, int>, ordered: seq<string>)
    requires g.Valid() && InitialQueue(g, init)
    requires KahnInv(g, init, deg, ordered, []) && |ordered| == |g.keys|
    ensures SortOutcome(g, Ok(ordered))
    ensures HasResolutionOrder(g)
  {
    assert ordered + [] == ordered;
    DistinctCard(ordered);
    DistinctCard(g.keys);
    assert Elems(ordered) <= Elems(g.keys) by {
      forall x | x in Elems(ordered) ensures x in Elems(g.keys) {
        assert x in ordered + [];
      }
    }
    SubsetEqualCard(Elems(ordered), Elems(g.keys));
    RootsFirstFromInit(g, init, ordered);
    assert IsResolutionOrder(g, ordered);
  }

  lemma FailedState(g: Graph, init: seq<string>, deg: map<string, int>, ordered: seq<string>)
    requires g.Valid() && InitialQueue(g, init)
    requires KahnInv(g, init, deg, ordered, []) && |ordered| != |g.keys|
    ensures !HasResolutionOrder(g)
    ensures KahnShaped(g, ordered)
    ensures Filter(g.keys, HasPositiveDegree(deg)) == Unresolved(g, ordered)
    ensures Filter(g.keys, HasPositiveDegree(deg)) != []
    ensures forall p :: p in Filter(g.keys, HasPositiveDegree(deg)) ==> p in g.entries && !(g.entries[p] <= Elems(ordered))
  {
    assert ordered + [] == ordered;
    PendingIsUnresolved(g, deg, ordered);
    var missing := SomeNameMissing(g, ordered);
    FilterMember(g.keys, NotIn(ordered), missing);
    Blocked(g, deg, ordered);
    forall x | x in Unresolved(g, ordered) ensures x in g.entries && !(g.entries[x] <= Elems(ordered)) {
      FilterMember(g.keys, NotIn(ordered), x);
    }
    StuckMeansNoOrder(g, ordered, missing);
    RootsFirstFromInit(g, init, ordered);
  }

  /** The names of positive in-degree are those not yet ordered. */
  lemma PendingIsUnresolved(g: Graph, deg: map<string, int>, ordered: seq<string>)
    requires g.Valid() && (forall n :: n in deg <==> n in g.entries)
    requires forall n :: n in g.entries ==> deg[n] == |g.entries[n] - Elems(ordered)|
    requires forall n :: n in g.entries ==> (deg[n] == 0 <==> n in ordered)
    ensures Filter(g.keys, HasPositiveDegree(deg)) == Unresolved(g, ordered)
  {
    forall n | n in g.keys ensures HasPositiveDegree(deg)(n) == NotIn(ordered)(n) {
      assert n in Elems(g.keys);
    }
    FilterExt(g.keys, HasPositiveDegree(deg), NotIn(ordered));
  }

  /** Fewer distinct names than the graph has: one of them is missing. */
  lemma SomeNameMissing(g: Graph, ordered: seq<string>) returns (missing: string)
    requires g.Valid() && Distinct(ordered) && |ordered| != |g.keys|
    requires forall n :: n in ordered ==> n in g.entries
    ensures missing in g.keys && missing in g.entries && missing !in ordered
  {
    DistinctCard(ordered);
    DistinctCard(g.keys);
    assert Elems(ordered) <= Elems(g.keys);
    assert Elems(ordered) != Elems(g.keys);
    missing :| missing in Elems(g.keys) && missing !in Elems(ordered);
  }

  /** Every name not yet ordered still waits on a name not ordered. */
  lemma Blocked(g: Graph, deg: map<string, int>, ordered: seq<string>)
    requires forall n :: n in deg <==> n in g.entries
    requires forall n :: n in g.entries ==> deg[n] == |g.entries[n] - Elems(ordered)|
    requires forall n :: n in g.entries ==> (deg[n] == 0 <==> n in ordered)
    ensures forall x :: x in g.entries && x !in ordered ==> !(g.entries[x] <= Elems(ordered))
  {
    forall x | x in g.entries && x !in ordered ensures !(g.entries[x] <= Elems(ordered)) {
      assert deg[x] != 0;
    }
  }

  /** If some name is not done and every name that is not done depends on
      a name that is not done, no construction order exists. */
  lemma StuckMeansNoOrder(g: Graph, done: seq<string>, missing: string)
    requires missing in g.entries && missing !in done
    requires forall x :: x in g.entries && x !in done ==> !(g.entries[x] <= Elems(done))
    ensures !HasResolutionOrder(g)
  {
    forall o | IsResolutionOrder(g, o) ensures false {
      assert missing in Elems(o);
      var i := FirstNotIn(o, done, missing);
    }
  }

  lemma FirstNotIn(o: seq<string>, done: seq<string>, x: string) returns (i: int)
    requires x in o && x !in done
    ensures 0 <= i < |o| && o[i] !in done
    ensures forall m :: 0 <= m < i ==> o[m] in done
  {
    i := 0;
    while o[i] in done
      invariant 0 <= i < |o| && x in o[i..]
      decreases |o| - i
      invariant forall m :: 0 <= m < i ==> o[m] in done
    {
      assert o[i..] == [o[i]] + o[i + 1..];
      i := i + 1;
    }
  }
  // ----- The entry point and its consequences -----

  /** `make_resolution_order(dependencies)`; `_make_resolve_order` in the
      single-module container is the same code. */
  method MakeResolutionOrder(dependencies: OrderedDict<Dependency>) returns (r: Result<seq<string>>)
    requires dependencies.Valid()
    ensures SortOutcome(GraphOf(dependencies), r)
  {
    var graph := BuildGraph(dependencies);
    assert graph.Valid();
    label built:
    r := Kahn(graph);
    ViewsUnchanged@built(dependencies);
  }

  /** No construction order exists when a non-empty set of names each
      depend on a name of the same set (a cycle, a self-reference). */
  lemma {:induction false} CycleHasNoOrder(g: Graph, s: set<string>)
    requires s != {} && forall n :: n in s ==> n in g.entries && g.entries[n] * s != {}
    ensures !HasResolutionOrder(g)
  {
    forall o | IsResolutionOrder(g, o) ensures false {
      var n :| n in s;
      assert n in Elems(o);
      var i := FirstIn(o, s, n);
    }
  }

  /** The names of such a set are never resolved: they are all pending. */
  lemma CycleIsPending(g: Graph, s: set<string>, r: Result<seq<string>>)
    requires g.Valid() && SortOutcome(g, r)
    requires s != {} && forall n :: n in s ==> n in g.entries && g.entries[n] * s != {}
    ensures r.Err? && r.error.CircularDependency?
    ensures forall n :: n in s ==> n in r.error.pending
  {
    CycleHasNoOrder(g, s);
    forall n | n in s ensures n in r.error.pending {
      NeverResolved(g, s, r.error.resolved, n);
      FilterMember(g.keys, NotIn(r.error.resolved), n);
    }
  }

  lemma NeverResolved(g: Graph, s: set<string>, o: seq<string>, n: string)
    requires g.Valid() && DependenciesFirst(g, o) && n in s
    requires forall n :: n in s ==> n in g.entries && g.entries[n] * s != {}
    ensures n in g.keys && n !in o
  {
    assert n in Elems(g.keys);
    if n in o {
      var i := FirstIn(o, s, n);
    }
  }

  /** The first position of `o` holding an element of `s`. */
  lemma FirstIn(o: seq<string>, s: set<string>, x: string) returns (i: int)
    requires x in o && x in s
    ensures 0 <= i < |o| && o[i] in s
    ensures forall m :: 0 <= m < i ==> o[m] !in s
  {
    i := 0;
    while o[i] !in s
      invariant 0 <= i < |o| && x in o[i..]
      invariant forall m :: 0 <= m < i ==> o[m] !in s
      decreases |o| - i
    {
      assert o[i..] == [o[i]] + o[i + 1..];
      i := i + 1;
    }
  }

  /** A reference to a name that is not a descriptor of the dict. */
  lemma MissingNameHasNoOrder(g: Graph, n: string, missing: string, r: Result<seq<string>>)
    requires n in g.entries && missing in g.entries[n] && missing !in g.entries
    ensures !HasResolutionOrder(g)
    ensures SortOutcome(g, r) ==> r.Err? && r.error.CircularDependency?
  {
    forall o | IsResolutionOrder(g, o) ensures false {
    }
    if SortOutcome(g, r) {
      OutcomeDecidesOrder(g, r);
    }
  }

  /** A graph without names (no descriptors) yields an empty order. */
  lemma EmptyGraphOrder(g: Graph, r: Result<seq<string>>)
    requires g.entries.Keys == {} && SortOutcome(g, r)
    ensures r == Ok([])
  {
    if r.Ok? {
      DistinctCard(r.value);
    }
  }
}
