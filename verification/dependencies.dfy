/** The dependency relation alone: walks, cycles, the topological order and the two worklist closures. */
module Dependencies {
  import opened Basics

  /** For every node, the nodes it depends on (or, for a children table, the nodes that depend on it). */
  type Edges = map<Id, seq<Id>>

  /** Every neighbour is itself a node. */
  ghost predicate Inside(adj: Edges) {
    forall x, y {:trigger y in adj[x]} | x in adj && y in adj[x] :: y in adj
  }

  /** `ids` lists every node once, each list is free of duplicates and names only nodes. */
  ghost predicate WellFormed(ids: seq<Id>, d: Edges) {
    && Distinct(ids)
    && Elements(ids) == d.Keys
    && (forall id | id in d :: Distinct(d[id]))
    && Inside(d)
  }

  /** A walk follows at least one edge at every step. */
  ghost predicate Walk(d: Edges, p: seq<Id>) {
    && |p| >= 2
    && (forall i | 0 <= i < |p| :: p[i] in d)
    && (forall i | 0 <= i < |p| - 1 :: p[i + 1] in d[p[i]])
  }

  ghost predicate Joins(d: Edges, p: seq<Id>, a: Id, b: Id) {
    Walk(d, p) && p[0] == a && p[|p| - 1] == b
  }

  /** `a` reaches `b` by one or more edges; over dependency edges, `a` transitively depends on `b`. */
  ghost predicate Reaches(d: Edges, a: Id, b: Id) {
    exists p :: Joins(d, p, a, b)
  }

  ghost predicate Cyclic(d: Edges) {
    exists a :: Reaches(d, a, a)
  }

  lemma Step(d: Edges, a: Id, b: Id)
    requires a in d && b in d && b in d[a]
    ensures Reaches(d, a, b)
  {
    assert Joins(d, [a, b], a, b);
  }

  lemma Transitive(d: Edges, a: Id, b: Id, c: Id)
    requires Reaches(d, a, b) && Reaches(d, b, c)
    ensures Reaches(d, a, c)
  {
    var p :| Joins(d, p, a, b);
    var q :| Joins(d, q, b, c);
    assert Joins(d, p + q[1..], a, c);
  }

  /** A walk has a first edge. */
  lemma FirstEdge(d: Edges, a: Id, b: Id) returns (m: Id)
    requires Reaches(d, a, b)
    ensures a in d && b in d && m in d && m in d[a]
    ensures m == b || Reaches(d, m, b)
  {
    var p :| Joins(d, p, a, b);
    m := p[1];
    if |p| > 2 {
      assert Joins(d, p[1..], m, b);
    }
  }

  /** A walk has a last edge. */
  lemma LastEdge(d: Edges, a: Id, b: Id) returns (m: Id)
    requires Reaches(d, a, b)
    ensures a in d && b in d && m in d && b in d[m]
    ensures m == a || Reaches(d, a, m)
  {
    var p :| Joins(d, p, a, b);
    m := p[|p| - 2];
    if |p| > 2 {
      assert Joins(d, p[..|p| - 1], a, m);
    }
  }

  // ----- the children table -----

  /** `c` is the reverse of `d`: the lists of dependents. */
  ghost predicate Reverses(c: Edges, d: Edges) {
    && c.Keys == d.Keys
    && (forall x, y | x in d && y in d :: y in c[x] <==> x in d[y])
    && (forall x | x in c :: Distinct(c[x]) && forall y | y in c[x] :: y in d)
  }

  /** Duality: following children from `a` to `b` is following dependencies from `b` to `a`. */
  lemma Duality(c: Edges, d: Edges, a: Id, b: Id)
    requires Reverses(c, d)
    requires Inside(d)
    ensures Reaches(c, a, b) <==> Reaches(d, b, a)
  {
    if Reaches(c, a, b) {
      var p :| Joins(c, p, a, b);
      var q := seq(|p|, i requires 0 <= i < |p| => p[|p| - 1 - i]);
      forall i | 0 <= i < |q| - 1 ensures q[i + 1] in d[q[i]] {
        var k := |p| - 2 - i;
        assert p[k + 1] in c[p[k]];
      }
      assert Joins(d, q, b, a);
    }
    if Reaches(d, b, a) {
      var p :| Joins(d, p, b, a);
      var q := seq(|p|, i requires 0 <= i < |p| => p[|p| - 1 - i]);
      forall i | 0 <= i < |q| - 1 ensures q[i + 1] in c[q[i]] {
        var k := |p| - 2 - i;
        assert p[k + 1] in d[p[k]];
      }
      assert Joins(c, q, a, b);
    }
  }

  /** Appends `n` to the list of each of its dependencies. */
  method Enlist(c: Edges, n: Id, deps: seq<Id>) returns (r: Edges)
    requires Distinct(deps) && forall x | x in deps :: x in c
    ensures r.Keys == c.Keys
    ensures forall x | x in c :: r[x] == if x in deps then c[x] + [n] else c[x]
  {
    r := c;
    for j := 0 to |deps|
      invariant r.Keys == c.Keys
      invariant forall x | x in c :: r[x] == if x in deps[..j] then c[x] + [n] else c[x]
    {
      assert deps[..j + 1] == deps[..j] + [deps[j]];
      assert deps[j] !in deps[..j];
      r := r[deps[j] := r[deps[j]] + [n]];
    }
    assert deps[..|deps|] == deps;
  }

  /** The children table of the nodes listed in `done` only. */
  ghost predicate ReversesFor(c: Edges, d: Edges, done: seq<Id>) {
    && c.Keys == d.Keys
    && (forall x, y | x in d :: y in c[x] <==> y in done && y in d && x in d[y])
    && (forall x | x in d :: Distinct(c[x]))
  }

  lemma Enlisted(c: Edges, d: Edges, done: seq<Id>, n: Id, r: Edges)
    requires ReversesFor(c, d, done) && n in d && n !in done && r.Keys == c.Keys
    requires forall x | x in c :: r[x] == if x in d[n] then c[x] + [n] else c[x]
    ensures ReversesFor(r, d, done + [n])
  {
    forall x, y | x in d ensures y in r[x] <==> y in done + [n] && y in d && x in d[y] {
      assert y in c[x] <==> y in done && y in d && x in d[y];
    }
    forall x | x in d ensures Distinct(r[x]) {
      assert Distinct(c[x]) && n !in c[x];
    }
  }

  method Children(ids: seq<Id>, d: Edges) returns (c: Edges)
    requires WellFormed(ids, d)
    ensures c.Keys == d.Keys && Reverses(c, d)
  {
    hide ReversesFor, Reverses;
    c := map id | id in d :: [];
    NoChildren(c, d);
    assert ids[..0] == [];
    for i := 0 to |ids|
      invariant c.Keys == d.Keys && ReversesFor(c, d, ids[..i])
    {
      var n := ids[i];
      assert n in Elements(ids);
      assert n !in ids[..i];
      assert ids[..i + 1] == ids[..i] + [n];
      var next := Enlist(c, n, d[n]);
      Enlisted(c, d, ids[..i], n, next);
      c := next;
    }
    assert ids[..|ids|] == ids;
    AllChildren(ids, c, d);
  }

  lemma NoChildren(c: Edges, d: Edges)
    requires c.Keys == d.Keys && forall x | x in c :: c[x] == []
    ensures ReversesFor(c, d, [])
  {
    assert forall x, y | x in d :: y !in c[x];
  }

  lemma AllChildren(ids: seq<Id>, c: Edges, d: Edges)
    requires Elements(ids) == d.Keys && ReversesFor(c, d, ids)
    ensures Reverses(c, d)
  {
    forall y | y in d ensures y in ids {
      assert y in Elements(ids);
    }
  }

  // ----- topological order -----

  /** A permutation of all ids in which every dependency comes before its dependents. */
  ghost predicate Topological(o: seq<Id>, d: Edges) {
    && Distinct(o)
    && Elements(o) == d.Keys
    && forall k | 0 <= k < |o| :: forall x | x in d[o[k]] :: x in o[..k]
  }

  /** Along a walk, positions in a topological order fall strictly. */
  lemma {:induction false} WalkDescends(d: Edges, o: seq<Id>, p: seq<Id>, i: nat, j: nat)
    requires Topological(o, d) && Walk(d, p)
    requires 0 <= i < |o| && 0 <= j < |o| && o[i] == p[0] && o[j] == p[|p| - 1]
    ensures j < i
    decreases |p|
  {
    assert p[1] in d[o[i]];
    var m :| 0 <= m < i && o[m] == p[1];
    if |p| == 2 {
      assert m == j;
    } else {
      WalkDescends(d, o, p[1..], m, j);
    }
  }

  lemma OrderExcludesCycles(d: Edges, o: seq<Id>)
    requires Topological(o, d)
    ensures !Cyclic(d)
  {
    if Cyclic(d) {
      var a :| Reaches(d, a, a);
      var p :| Joins(d, p, a, a);
      assert a in Elements(o);
      var i :| 0 <= i < |o| && o[i] == a;
      WalkDescends(d, o, p, i, i);
    }
  }

  /** In a topological order, a node that reaches another stands after it. */
  lemma ReachesDescends(d: Edges, o: seq<Id>, i: nat, j: nat)
    requires Topological(o, d) && i < |o| && j < |o| && Reaches(d, o[i], o[j])
    ensures j < i
  {
    var p :| Joins(d, p, o[i], o[j]);
    WalkDescends(d, o, p, i, j);
  }

  ghost predicate Fed(d: Edges, left: set<Id>, x: Id)
    requires x in d
  {
    exists y :: y in d[x] && y in left
  }

  /** Every node of `left` depends on some node of `left`. */
  ghost predicate SelfFeeding(d: Edges, left: set<Id>) {
    left <= d.Keys && forall x {:trigger Fed(d, left, x)} | x in left :: Fed(d, left, x)
  }

  /** A chain of distinct members, each depending on the next. */
  ghost predicate Trail(d: Edges, left: set<Id>, p: seq<Id>) {
    && p != [] && left <= d.Keys
    && Distinct(p) && Elements(p) <= left
    && forall i {:trigger p[i]} | 0 <= i < |p| - 1 :: p[i] in d && p[i + 1] in d[p[i]]
  }

  lemma OneStepTrail(d: Edges, left: set<Id>, x: Id)
    requires left <= d.Keys && x in left
    ensures Trail(d, left, [x])
  {
  }

  lemma Extended(d: Edges, left: set<Id>, p: seq<Id>, y: Id)
    requires Trail(d, left, p) && y in left && y !in p
    requires p[|p| - 1] in d && y in d[p[|p| - 1]]
    ensures Trail(d, left, p + [y])
  {
    AddElement(p, y);
    var q := p + [y];
    forall i | 0 <= i < |q| - 1 ensures q[i] in d && q[i + 1] in d[q[i]] {
      if i < |p| - 1 {
        assert p[i] in d && p[i + 1] in d[p[i]];
      }
    }
  }

  lemma CloseLoop(d: Edges, left: set<Id>, p: seq<Id>, k: nat)
    requires Trail(d, left, p) && k < |p|
    requires p[|p| - 1] in d && p[k] in d[p[|p| - 1]]
    ensures Cyclic(d)
  {
    var y := p[k];
    var q := p[k..] + [y];
    forall i | 0 <= i < |q| ensures q[i] in d {
      assert q[i] in p;
      assert q[i] in Elements(p);
    }
    forall i | 0 <= i < |q| - 1 ensures q[i + 1] in d[q[i]] {
      assert q[i] == p[k + i];
      assert i < |p| - 1 - k ==> q[i + 1] == p[k + i + 1];
    }
    assert Joins(d, q, y, y);
    assert Reaches(d, y, y);
  }

  /** A nonempty set in which every node depends on another of its nodes holds a cycle. */
  lemma {:induction false} ChaseCycle(d: Edges, left: set<Id>, p: seq<Id>)
    requires SelfFeeding(d, left)
    requires Trail(d, left, p)
    ensures Cyclic(d)
    decreases |left| - |p|
  {
    DistinctCardinality(p);
    SubsetCardinality(Elements(p), left);
    var last := p[|p| - 1];
    assert last in Elements(p);
    assert Fed(d, left, last);
    var y :| y in d[last] && y in left;
    if y in p {
      var k :| 0 <= k < |p| && p[k] == y;
      CloseLoop(d, left, p, k);
    } else {
      var q := p + [y];
      Extended(d, left, p, y);
      DistinctCardinality(q);
      SubsetCardinality(Elements(q), left);
      ChaseCycle(d, left, q);
    }
  }

  /** The dependencies of `id` that `done` does not hold yet: what its in-degree counts. */
  ghost function Pending(d: Edges, id: Id, done: seq<Id>): set<Id>
    requires id in d
  {
    set x | x in d[id] && x !in done
  }

  ghost function Open(d: Edges, id: Id, done: seq<Id>): nat
    requires id in d
  {
    |Pending(d, id, done)|
  }

  /** The in-degree table, when the decrements owed to `owed` are still to come. */
  ghost predicate Counts(d: Edges, indegree: map<Id, int>, done: seq<Id>, owed: seq<Id>) {
    && indegree.Keys == d.Keys
    && forall id {:trigger Open(d, id, done)} | id in d ::
         indegree[id] == Open(d, id, done) + if id in owed then 1 else 0
  }

  /** The listed nodes are those with nothing open, apart from those still in `owed`. */
  ghost predicate Released(d: Edges, listed: seq<Id>, done: seq<Id>, owed: seq<Id>) {
    && Distinct(listed)
    && (forall x | x in listed :: x in d)
    && forall id {:trigger Open(d, id, done)} | id in d ::
         id in listed <==> Open(d, id, done) == 0 && id !in owed
  }

  ghost predicate DependenciesFirst(d: Edges, o: seq<Id>) {
    && (forall x | x in o :: x in d)
    && forall k, x {:trigger x in d[o[k]]} | 0 <= k < |o| && x in d[o[k]] :: x in o[..k]
  }

  lemma PendingDrops(d: Edges, id: Id, done: seq<Id>, current: Id)
    requires id in d && current !in done
    ensures Open(d, id, done) == Open(d, id, done + [current]) + if current in d[id] then 1 else 0
  {
    var a, b := Pending(d, id, done), Pending(d, id, done + [current]);
    if current in d[id] {
      assert a == b + {current};
    } else {
      assert a == b;
    }
  }

  lemma OpenAtFirst(d: Edges, id: Id)
    requires id in d && Distinct(d[id])
    ensures Open(d, id, []) == |d[id]|
  {
    DistinctCardinality(d[id]);
    assert Pending(d, id, []) == Elements(d[id]);
  }

  lemma NothingOpen(d: Edges, id: Id, done: seq<Id>)
    requires id in d
    ensures Open(d, id, done) == 0 <==> forall x | x in d[id] :: x in done
  {
    if x :| x in d[id] && x !in done {
      assert x in Pending(d, id, done);
    } else {
      assert Pending(d, id, done) == {};
    }
  }

  // ----- the one order the loop gives -----

  /** Of the listed nodes, those with nothing open. */
  ghost function NewlyOpen(d: Edges, kids: seq<Id>, done: seq<Id>): (r: seq<Id>)
    requires forall x | x in kids :: x in d
  {
    if kids == [] then []
    else
      var last := kids[|kids| - 1];
      NewlyOpen(d, kids[..|kids| - 1], done) + if Open(d, last, done) == 0 then [last] else []
  }

  ghost function DependentsOf(d: Edges, x: Id): set<Id> {
    set y | y in d && x in d[y]
  }

  ghost function RootsOf(d: Edges): set<Id> {
    set y | y in d && Open(d, y, []) == 0
  }

  /** The loop as a function of the edges; `fuel` bounds its turns, of which there is one a node. */
  ghost function OrderFrom(d: Edges, ordered: seq<Id>, queue: seq<Id>, fuel: nat): seq<Id>
    decreases fuel
  {
    if queue == [] || fuel == 0 then ordered
    else
      var done := ordered + [queue[0]];
      OrderFrom(d, done, queue[1..] + NewlyOpen(d, Ascending(DependentsOf(d, queue[0])), done), fuel - 1)
  }

  lemma OrderTurn(d: Edges, ordered: seq<Id>, queue: seq<Id>, fuel: nat)
    requires queue != [] && fuel > 0
    ensures forall x | x in Ascending(DependentsOf(d, queue[0])) :: x in d
    ensures var done := ordered + [queue[0]];
      OrderFrom(d, ordered, queue, fuel) ==
        OrderFrom(d, done, queue[1..] + NewlyOpen(d, Ascending(DependentsOf(d, queue[0])), done), fuel - 1)
  {
  }

  lemma OrderEnds(d: Edges, ordered: seq<Id>, fuel: nat)
    ensures OrderFrom(d, ordered, [], fuel) == ordered
  {
  }

  ghost function TopologicalOrder(d: Edges): seq<Id> {
    OrderFrom(d, [], Ascending(RootsOf(d)), |d.Keys|)
  }

  method Roots(ids: seq<Id>, d: Edges, indegree: map<Id, int>) returns (roots: seq<Id>)
    requires WellFormed(ids, d) && Counts(d, indegree, [], [])
    ensures Released(d, roots, [], [])
  {
    roots := [];
    for i := 0 to |ids|
      invariant Distinct(roots) && forall x | x in roots :: x in ids[..i] && x in d
      invariant forall id | id in ids[..i] && id in d :: id in roots <==> Open(d, id, []) == 0
    {
      assert ids[i] in Elements(ids) && ids[i] !in ids[..i];
      assert ids[..i + 1] == ids[..i] + [ids[i]];
      assert indegree[ids[i]] == Open(d, ids[i], []);
      if indegree[ids[i]] == 0 {
        roots := roots + [ids[i]];
      }
    }
    assert ids[..|ids|] == ids;
    forall id | id in d ensures id in ids {
      assert id in Elements(ids);
    }
  }

  lemma OwedAfterPop(d: Edges, indegree: map<Id, int>, done: seq<Id>, listed: seq<Id>, current: Id, kids: seq<Id>)
    requires current in d && current !in done && forall x | x in d :: x in kids <==> current in d[x]
    requires Counts(d, indegree, done, []) && Released(d, listed, done, [])
    ensures Counts(d, indegree, done + [current], kids)
    ensures Released(d, listed, done + [current], kids)
  {
    forall id | id in d
      ensures Open(d, id, done) == Open(d, id, done + [current]) + if id in kids then 1 else 0
    {
      PendingDrops(d, id, done, current);
    }
  }

  lemma Paid(d: Edges, indegree: map<Id, int>, done: seq<Id>, listed: seq<Id>, kid: Id, owed: seq<Id>)
    requires kid in d && kid !in owed
    requires Counts(d, indegree, done, [kid] + owed) && Released(d, listed, done, [kid] + owed)
    ensures Counts(d, indegree[kid := indegree[kid] - 1], done, owed)
    ensures indegree[kid] - 1 == Open(d, kid, done)
    ensures Released(d, if indegree[kid] == 1 then listed + [kid] else listed, done, owed)
  {
    assert indegree[kid] == Open(d, kid, done) + 1;
    assert kid in [kid] + owed;
    assert kid !in listed;
    assert forall id | id != kid :: id in [kid] + owed <==> id in owed;
  }

  /** The inner loop: one decrement per child, queueing those that reach zero. */
  method Release(d: Edges, degrees: map<Id, int>, kids: seq<Id>, waiting: seq<Id>, ghost done: seq<Id>)
    returns (indegree: map<Id, int>, queue: seq<Id>)
    requires Distinct(kids) && forall x | x in kids :: x in d
    requires Counts(d, degrees, done, kids) && Released(d, done + waiting, done, kids)
    ensures Counts(d, indegree, done, []) && Released(d, done + queue, done, [])
    ensures queue == waiting + NewlyOpen(d, kids, done)
  {
    hide Counts, Released, Open, Distinct;
    indegree, queue := degrees, waiting;
    DistinctSplits(kids);
    assert kids[0..] == kids;
    for j := 0 to |kids|
      invariant Counts(d, indegree, done, kids[j..]) && Released(d, done + queue, done, kids[j..])
      invariant queue == waiting + NewlyOpen(d, kids[..j], done)
    {
      var kid := kids[j];
      CountsKeys(d, indegree, done, kids[j..]);
      assert kids[..j + 1][..j] == kids[..j];
      assert kids[j..] == [kid] + kids[j + 1..];
      Paid(d, indegree, done, done + queue, kid, kids[j + 1..]);
      assert done + queue + [kid] == done + (queue + [kid]);
      indegree := indegree[kid := indegree[kid] - 1];
      if indegree[kid] == 0 {
        queue := queue + [kid];
      }
    }
    assert kids[|kids|..] == [] && kids[..|kids|] == kids;
  }

  lemma DistinctSplits(s: seq<Id>)
    requires Distinct(s)
    ensures forall j {:trigger s[j]} | 0 <= j < |s| :: s[j] !in s[j + 1..]
  {
  }

  lemma CountsKeys(d: Edges, indegree: map<Id, int>, done: seq<Id>, owed: seq<Id>)
    requires Counts(d, indegree, done, owed)
    ensures indegree.Keys == d.Keys
  {
  }

  lemma AppendDone(d: Edges, o: seq<Id>, current: Id)
    requires DependenciesFirst(d, o) && current in d && Open(d, current, o) == 0
    ensures DependenciesFirst(d, o + [current])
  {
    NothingOpen(d, current, o);
    var r := o + [current];
    forall k, x | 0 <= k < |r| && x in d[r[k]] ensures x in r[..k] {
      if k < |o| {
        assert x in d[o[k]];
        assert r[..k] == o[..k];
      } else {
        assert r[..k] == o;
      }
    }
  }

  lemma SortedChildren(d: Edges, children: Edges, current: Id)
    requires Reverses(children, d) && current in d
    ensures Distinct(Sorted(children[current]))
    ensures forall x :: x in Sorted(children[current]) ==> x in d
    ensures forall x | x in d :: x in Sorted(children[current]) <==> current in d[x]
    ensures Sorted(children[current]) == Ascending(DependentsOf(d, current))
  {
    SortedKeepsElements(children[current]);
    SortedAscends(children[current]);
    assert Elements(children[current]) == DependentsOf(d, current);
  }

  /**
   * Kahn's algorithm as `_topological_ids` runs it: None stands for the cycle error. The order depends on the
   * edges alone, not on how the document lists its nodes.
   */
  method TopologicalIds(ids: seq<Id>, d: Edges) returns (r: Option<seq<Id>>)
    requires WellFormed(ids, d)
    ensures r.Some? <==> !Cyclic(d)
    ensures r.Some? ==> Topological(r.value, d) && r.value == TopologicalOrder(d)
  {
    hide Cyclic, Topological, Reverses, Inside, Counts, Released, DependenciesFirst, Distinct, NewlyOpen, Open,
      Ascending, DependentsOf, RootsOf, OrderFrom;
    var indegree: map<Id, int> := map id | id in d :: |d[id]|;
    Begin(ids, d, indegree);
    var children := Children(ids, d);
    var roots := Roots(ids, d, indegree);
    var queue := Sorted(roots);
    SortedRoots(d, roots);
    var ordered: seq<Id> := [];
    ghost var fuel := |d.Keys|;
    assert OrderFrom(d, ordered, queue, fuel) == TopologicalOrder(d);
    while queue != []
      invariant Counts(d, indegree, ordered, [])
      invariant Released(d, ordered + queue, ordered, [])
      invariant DependenciesFirst(d, ordered)
      invariant 0 <= fuel == |d.Keys| - |ordered| && OrderFrom(d, ordered, queue, fuel) == TopologicalOrder(d)
      decreases |d.Keys| - |ordered|
    {
      var current := queue[0];
      ghost var done, listed := ordered, ordered + queue;
      Popped(d, ordered, queue);
      OrderTurn(d, ordered, queue, fuel);
      AppendDone(d, ordered, current);
      queue := queue[1..];
      ordered := ordered + [current];
      assert ordered + queue == listed;
      var kids := Sorted(children[current]);
      SortedChildren(d, children, current);
      OwedAfterPop(d, indegree, done, listed, current, kids);
      indegree, queue := Release(d, indegree, kids, queue, ordered);
      fuel := fuel - 1;
    }
    assert ordered + queue == ordered;
    OrderEnds(d, ordered, fuel);
    r := Conclude(ids, d, ordered);
  }

  lemma SortedRoots(d: Edges, roots: seq<Id>)
    requires Released(d, roots, [], [])
    ensures Released(d, [] + Sorted(roots), [], [])
    ensures Sorted(roots) == Ascending(RootsOf(d))
  {
    SortedKeepsElements(roots);
    SameElementsReleased(d, roots, Sorted(roots));
    SortedAscends(roots);
    forall y ensures y in Elements(roots) <==> y in RootsOf(d) {
      assert y in d ==> (y in roots <==> Open(d, y, []) == 0);
    }
    assert Elements(roots) == RootsOf(d);
  }

  method Conclude(ids: seq<Id>, d: Edges, ordered: seq<Id>) returns (r: Option<seq<Id>>)
    requires WellFormed(ids, d) && Released(d, ordered, ordered, []) && DependenciesFirst(d, ordered)
    ensures r.Some? <==> !Cyclic(d)
    ensures r.Some? ==> Topological(r.value, d) && r.value == ordered
  {
    hide Cyclic;
    DistinctCardinality(ids);
    DistinctCardinality(ordered);
    SubsetCardinality(Elements(ordered), d.Keys);
    if |ordered| != |ids| {
      LeftoverCycle(d, ordered);
      return None;
    }
    OrderExcludesCycles(d, ordered);
    return Some(ordered);
  }

  lemma Popped(d: Edges, done: seq<Id>, queue: seq<Id>)
    requires queue != [] && Released(d, done + queue, done, [])
    ensures queue[0] in d && queue[0] !in done && Open(d, queue[0], done) == 0
    ensures |done| < |d.Keys|
  {
    var listed := done + queue;
    assert listed[|done|] == queue[0];
    assert queue[0] in listed;
    assert forall i | 0 <= i < |done| :: listed[i] == done[i];
    BoundedList(listed, d.Keys);
  }

  lemma Begin(ids: seq<Id>, d: Edges, indegree: map<Id, int>)
    requires WellFormed(ids, d) && indegree.Keys == d.Keys && forall id | id in d :: indegree[id] == |d[id]|
    ensures Counts(d, indegree, [], []) && DependenciesFirst(d, [])
  {
    forall id | id in d ensures Open(d, id, []) == |d[id]| {
      OpenAtFirst(d, id);
    }
  }

  lemma SameElementsReleased(d: Edges, a: seq<Id>, b: seq<Id>)
    requires Released(d, a, [], []) && Distinct(b) && forall x :: x in b <==> x in a
    ensures Released(d, [] + b, [], [])
  {
    assert [] + b == b;
  }

  lemma BoundedList(s: seq<Id>, keys: set<Id>)
    requires Distinct(s) && forall x | x in s :: x in keys
    ensures |s| <= |keys|
  {
    DistinctCardinality(s);
    SubsetCardinality(Elements(s), keys);
  }

  /** A shortfall is a cycle among the nodes left over. */
  lemma LeftoverCycle(d: Edges, ordered: seq<Id>)
    requires Released(d, ordered, ordered, []) && Elements(ordered) != d.Keys
    requires Inside(d)
    ensures Cyclic(d)
  {
    var left := d.Keys - Elements(ordered);
    forall x | x in left ensures Fed(d, left, x) {
      assert Open(d, x, ordered) != 0;
      NothingOpen(d, x, ordered);
      var y :| y in d[x] && y !in ordered;
      assert y in left;
    }
    assert Elements(ordered) <= d.Keys;
    assert d.Keys == Elements(ordered) + left;
    var x :| x in left;
    OneStepTrail(d, left, x);
    ChaseCycle(d, left, [x]);
  }

  // ----- the worklist behind `descendants` and `ancestors` -----

  /** Everything met is reachable, and whatever one edge leads to is seen or queued. */
  ghost predicate Frontier(adj: Edges, start: Id, seen: set<Id>, queue: seq<Id>) {
    && (forall x {:trigger x in seen} | x in seen :: x in adj && Reaches(adj, start, x))
    && (forall x {:trigger x in queue} | x in queue :: x in adj && Reaches(adj, start, x))
    && (forall x {:trigger x in adj[start]} | start in adj && x in adj[start] :: x in seen || x in queue)
    && (forall x, y {:trigger y in adj[x]} | x in seen && x in adj && y in adj[x] :: y in seen || y in queue)
  }

  lemma FirstFrontier(adj: Edges, start: Id, queue: seq<Id>)
    requires Inside(adj) && start in adj && forall x :: x in queue <==> x in adj[start]
    ensures Frontier(adj, start, {}, queue)
  {
    forall x | x in queue ensures x in adj && Reaches(adj, start, x) {
      Step(adj, start, x);
    }
  }

  lemma SkipSeen(adj: Edges, start: Id, seen: set<Id>, queue: seq<Id>)
    requires queue != [] && Frontier(adj, start, seen, queue) && queue[0] in seen
    ensures Frontier(adj, start, seen, queue[1..])
  {
    hide Reaches;
    assert queue == [queue[0]] + queue[1..];
    forall x | x in queue[1..] ensures x in adj && Reaches(adj, start, x) {
      assert x in queue;
    }
  }

  lemma Visit(adj: Edges, start: Id, seen: set<Id>, queue: seq<Id>, more: seq<Id>)
    requires Inside(adj) && queue != [] && Frontier(adj, start, seen, queue)
    requires queue[0] in adj && forall x :: x in more <==> x in adj[queue[0]]
    ensures Frontier(adj, start, seen + {queue[0]}, queue[1..] + more)
  {
    hide Joins;
    var current := queue[0];
    assert queue == [current] + queue[1..];
    assert current in queue;
    forall x | x in more ensures x in adj && Reaches(adj, start, x) {
      Step(adj, current, x);
      Transitive(adj, start, current, x);
    }
    forall x | x in queue[1..] ensures x in adj && Reaches(adj, start, x) {
      assert x in queue;
    }
  }

  lemma FrontierDone(adj: Edges, start: Id, seen: set<Id>)
    requires start in adj && Frontier(adj, start, seen, [])
    ensures forall x :: x in seen <==> Reaches(adj, start, x)
  {
    forall x | Reaches(adj, start, x) ensures x in seen {
      var p :| Joins(adj, p, start, x);
      ClosedUnderWalks(adj, seen, start, p);
    }
  }

  /** Pops, skips what was seen, and queues the sorted neighbours, duplicates and all. */
  method Closure(adj: Edges, start: Id) returns (seen: set<Id>)
    requires start in adj && Inside(adj)
    ensures forall x :: x in seen <==> Reaches(adj, start, x)
  {
    hide Reaches;
    seen := {};
    SortedKeepsElements(adj[start]);
    var queue := Sorted(adj[start]);
    FirstFrontier(adj, start, queue);
    while queue != []
      invariant Frontier(adj, start, seen, queue)
      decreases adj.Keys - seen, |queue|
    {
      var current := queue[0];
      assert current in queue;
      if current in seen {
        SkipSeen(adj, start, seen, queue);
        queue := queue[1..];
      } else {
        SortedKeepsElements(adj[current]);
        Visit(adj, start, seen, queue, Sorted(adj[current]));
        seen := seen + {current};
        queue := queue[1..] + Sorted(adj[current]);
      }
    }
    FrontierDone(adj, start, seen);
  }

  lemma {:induction false} ClosedUnderWalks(adj: Edges, seen: set<Id>, start: Id, p: seq<Id>)
    requires Walk(adj, p) && p[0] == start
    requires forall x | x in adj[start] :: x in seen
    requires forall x, y {:trigger y in adj[x]} | x in seen && x in adj && y in adj[x] :: y in seen
    ensures p[|p| - 1] in seen
    decreases |p|
  {
    if |p| > 2 {
      ClosedUnderWalks(adj, seen, start, p[..|p| - 1]);
      assert p[|p| - 1] in adj[p[|p| - 2]];
    }
  }

  /** The members of `keep`, once each, in the order `o` gives them. */
  function Select(o: seq<Id>, keep: set<Id>): (r: seq<Id>)
  {
    if o == [] then []
    else if o[0] in keep then [o[0]] + Select(o[1..], keep)
    else Select(o[1..], keep)
  }

  lemma {:induction false} SelectKeeps(o: seq<Id>, keep: set<Id>)
    requires Distinct(o)
    ensures Distinct(Select(o, keep))
    ensures forall x :: x in Select(o, keep) <==> x in o && x in keep
  {
    if o != [] {
      SelectKeeps(o[1..], keep);
      assert o == [o[0]] + o[1..];
    }
  }

  /** `r` lists dependencies before dependents. */
  ghost predicate InDependencyOrder(r: seq<Id>, d: Edges) {
    forall i, j | 0 <= i < j < |r| :: !Reaches(d, r[i], r[j])
  }

  lemma {:induction false} SelectInOrder(o: seq<Id>, k: nat, d: Edges, keep: set<Id>)
    requires Topological(o, d) && k <= |o|
    ensures InDependencyOrder(Select(o[k..], keep), d)
    decreases |o| - k
  {
    if k < |o| {
      SelectInOrder(o, k + 1, d, keep);
      assert o[k..][1..] == o[k + 1..];
      var r := Select(o[k..], keep);
      var rest := Select(o[k + 1..], keep);
      SelectKeeps(o[k + 1..], keep);
      if o[k] in keep {
        forall j | 0 < j < |r| ensures !Reaches(d, r[0], r[j]) {
          assert r[j] == rest[j - 1] && r[j] in o[k + 1..];
          var m :| 0 <= m < |o[k + 1..]| && o[k + 1..][m] == r[j];
          if Reaches(d, r[0], r[j]) {
            ReachesDescends(d, o, k, k + 1 + m);
          }
        }
        assert forall i, j | 0 <= i < j < |r| && i > 0 :: r[i] == rest[i - 1] && r[j] == rest[j - 1];
      }
    }
  }

  /** The transitive dependents of a node, and its transitive dependencies, as the order lists them. */
  ghost function DescendantsIn(d: Edges, node: Id): seq<Id> {
    Select(TopologicalOrder(d), set x | x in d && Reaches(d, x, node))
  }

  ghost function AncestorsIn(d: Edges, node: Id): seq<Id> {
    Select(TopologicalOrder(d), set x | x in d && Reaches(d, node, x))
  }

  method Descendants(ids: seq<Id>, d: Edges, node: Id) returns (r: seq<Id>)
    requires WellFormed(ids, d) && !Cyclic(d) && node in d
    ensures r == DescendantsIn(d, node)
    ensures Distinct(r) && forall x :: x in r <==> Reaches(d, x, node)
    ensures InDependencyOrder(r, d)
  {
    hide Cyclic, Reaches, TopologicalOrder, InDependencyOrder, Select;
    var children := Children(ids, d);
    var seen := Closure(children, node);
    var order := TopologicalIds(ids, d);
    r := Select(order.value, seen);
    forall x ensures (x in seen <==> Reaches(d, x, node)) && (Reaches(d, x, node) ==> x in d) {
      Duality(children, d, node, x);
      ReachesInside(d, x, node);
    }
    assert seen == set x | x in d && Reaches(d, x, node);
    SelectedOrder(order.value, d, seen);
  }

  method Ancestors(ids: seq<Id>, d: Edges, node: Id) returns (r: seq<Id>)
    requires WellFormed(ids, d) && !Cyclic(d) && node in d
    ensures r == AncestorsIn(d, node)
    ensures Distinct(r) && forall x :: x in r <==> Reaches(d, node, x)
    ensures InDependencyOrder(r, d)
  {
    hide Cyclic, Reaches, TopologicalOrder, InDependencyOrder, Select;
    var seen := Closure(d, node);
    var order := TopologicalIds(ids, d);
    r := Select(order.value, seen);
    forall x ensures (x in seen <==> Reaches(d, node, x)) && (Reaches(d, node, x) ==> x in d) {
      ReachesInside(d, node, x);
    }
    assert seen == set x | x in d && Reaches(d, node, x);
    SelectedOrder(order.value, d, seen);
  }

  lemma ReachesInside(d: Edges, a: Id, b: Id)
    ensures Reaches(d, a, b) ==> a in d && b in d
  {
    if Reaches(d, a, b) {
      var _ := FirstEdge(d, a, b);
    }
  }

  /** What is selected from a topological order is in order, and nothing selected is missing. */
  lemma SelectedOrder(o: seq<Id>, d: Edges, keep: set<Id>)
    requires Topological(o, d) && keep <= d.Keys
    ensures Distinct(Select(o, keep)) && InDependencyOrder(Select(o, keep), d)
    ensures forall x :: x in Select(o, keep) <==> x in keep
  {
    hide InDependencyOrder, Select;
    SelectKeeps(o, keep);
    SelectInOrder(o, 0, d, keep);
    assert o[0..] == o;
    assert forall x | x in keep :: x in Elements(o);
  }

  /** Some unsettled node has only settled dependencies, in any acyclic graph with one left. */
  lemma MinimalMember(d: Edges, left: set<Id>) returns (m: Id)
    requires !Cyclic(d) && left <= d.Keys && left != {}
    ensures m in left && forall x | x in d[m] :: x !in left
  {
    if SelfFeeding(d, left) {
      m :| m in left;
      OneStepTrail(d, left, m);
      ChaseCycle(d, left, [m]);
    } else {
      m :| m in left && !Fed(d, left, m);
    }
  }
}
