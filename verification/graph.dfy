/** The `Graph` class: its loops and in-place updates, each proved against the operation it carries out. */
module TaskGraph {
  import opened Basics
  import opened Dependencies
  import opened Records
  import opened Operations
  import opened Guards

  /** Part of the nodes promoted already. */
  ghost predicate PartlyPromoted(g: Nodes, h: Nodes, done: seq<Id>) {
    h.Keys == g.Keys && forall x {:trigger h[x]} | x in g :: h[x] == if x in done then Promoted(g, g[x]) else g[x]
  }

  lemma PartlySettled(g: Nodes, h: Nodes, done: seq<Id>, n: Node)
    requires PartlyPromoted(g, h, done)
    ensures DepsSettled(h, n) <==> DepsSettled(g, n)
  {
    assert forall x | x in g :: Settled(h[x].status) <==> Settled(g[x].status);
  }

  lemma NonePromoted(g: Nodes)
    ensures PartlyPromoted(g, g, [])
  {
  }

  lemma PromotedOne(g: Nodes, h: Nodes, done: seq<Id>, x: Id)
    requires PartlyPromoted(g, h, done) && x in g && x !in done
    ensures PartlyPromoted(g, h[x := Promoted(h, h[x])], done + [x])
  {
    PartlySettled(g, h, done, g[x]);
  }

  lemma PromotedAll(g: Nodes, h: Nodes, done: seq<Id>)
    requires PartlyPromoted(g, h, done) && Elements(done) == g.Keys
    ensures h == Promote(g)
  {
    forall x | x in g ensures x in done {
      assert x in Elements(done);
    }
  }

  /** `_archive_review`: cut to the count, then drop the oldest until the serialised list fits. */
  method ArchiveReview(history: seq<Doubt>, doubt: Doubt) returns (kept: seq<Doubt>)
    ensures kept == Bounded(history + [doubt])
  {
    hide Bounded, TrailBytes;
    kept := history + [doubt];
    ghost var log := kept;
    var excess := if |kept| > MAX_EVIDENCE then |kept| - MAX_EVIDENCE else 0;
    CutByCount(kept, excess);
    kept := kept[excess..];
    while kept != [] && TrailBytes(kept) > MAX_REVIEW_HISTORY_BYTES
      invariant |kept| <= MAX_EVIDENCE && Bounded(kept) == Bounded(log)
    {
      DropOldest(kept);
      kept := kept[1..];
    }
    EmptyFits();
    DropOldest(kept);
  }

  lemma DropOldest(log: seq<Doubt>)
    ensures Fits(log) ==> Bounded(log) == log
    ensures !Fits(log) && log != [] ==> Bounded(log) == Bounded(log[1..])
  {
  }

  lemma {:induction false} CutByCount(log: seq<Doubt>, excess: nat)
    requires excess <= |log| && (excess > 0 ==> |log| - excess >= MAX_EVIDENCE)
    ensures Bounded(log[excess..]) == Bounded(log)
    decreases excess
  {
    if excess == 0 {
      assert log[0..] == log;
    } else {
      assert log[1..][excess - 1..] == log[excess..];
      CutByCount(log[1..], excess - 1);
    }
  }

  // ----- the stages of a FAIL -----

  lemma VerdictMutates(g: Nodes, id: Id, j: Judgement)
    requires CanVerify(g, id, j) && !j.result.Fail?
    ensures Enabled(g, Op.Verify(id, j, []))
    ensures Mutated(g, Op.Verify(id, j, [])) ==
      g[id := if j.result.Pass? then Passed(g[id], ReviewOf(id, j, [])) else WithReview(g[id], ReviewOf(id, j, []))]
  {
  }

  lemma FailMutates(g: Nodes, id: Id, j: Judgement, affected: seq<Id>)
    requires CanVerify(g, id, j) && j.result.Fail? && AffectedBy(g, j.Blames(id), affected)
    ensures Enabled(g, Op.Verify(id, j, affected))
    ensures j.reason.Some? && Mutated(g, Op.Verify(id, j, affected)) == AfterFail(g, id, j, affected)
  {
    hide AfterFail, Reaches, AffectedBy;
  }

  /** A node after the verdict is recorded and the blamed node failed, before any dependent is touched. */
  function HalfNode(g: Nodes, id: Id, j: Judgement, x: Id): Node
    requires x in g && j.reason.Some?
  {
    var f := j.Blames(id);
    var n := if x == id then WithReview(g[x], ReviewOf(id, j, [])) else g[x];
    if x != f then n
    else (if f != id then n.(review := None) else n).(status := Failed, failureReason := Some(Stated(j.reason.value)))
  }

  /** The same, with the dependents in `done` discarded. */
  ghost predicate HalfFailed(g: Nodes, id: Id, j: Judgement, done: seq<Id>, h: Nodes)
    requires j.reason.Some?
  {
    && h.Keys == g.Keys
    && forall x {:trigger h[x]} | x in g ::
         h[x] == if x in done then Discarded(HalfNode(g, id, j, x), j.Blames(id)) else HalfNode(g, id, j, x)
  }

  lemma FailFacts(g: Nodes, id: Id, j: Judgement)
    requires Valid(g) && CanVerify(g, id, j) && j.result.Fail?
    ensures id in g && j.Blames(id) in g && j.reason.Some?
  {
  }

  lemma FirstHalf(g: Nodes, id: Id, j: Judgement, h: Nodes)
    requires id in g && j.Blames(id) in g && j.reason.Some? && h.Keys == g.Keys
    requires h == g[id := WithReview(g[id], ReviewOf(id, j, []))]
                   [j.Blames(id) := HalfNode(g, id, j, j.Blames(id))]
    ensures HalfFailed(g, id, j, [], h)
  {
    hide WithReview;
  }

  lemma HalfStep(g: Nodes, id: Id, j: Judgement, done: seq<Id>, x: Id, h: Nodes)
    requires j.reason.Some? && HalfFailed(g, id, j, done, h) && x in g && x !in done
    ensures x in h && h[x] == HalfNode(g, id, j, x)
    ensures HalfFailed(g, id, j, done + [x], h[x := Discarded(h[x], j.Blames(id))])
  {
    hide HalfNode, Discarded;
  }

  lemma FailedIsSkipped(h: Nodes, x: Id, f: Id)
    requires x in h
    ensures h[x].status.Failed? ==> h[x := Discarded(h[x], f)] == h
  {
  }

  lemma NotYet(s: seq<Id>, i: nat)
    requires Distinct(s) && i < |s|
    ensures s[i] !in s[..i]
  {
  }

  lemma DropMiddle(a: seq<Id>, x: Id, b: seq<Id>, d: Edges)
    requires Distinct(a + [x] + b) && InDependencyOrder(a + [x] + b, d)
    ensures Distinct(a + b) && InDependencyOrder(a + b, d)
  {
    hide Reaches;
    var r, s := a + b, a + [x] + b;
    assert forall i | 0 <= i < |a| :: r[i] == s[i];
    assert forall i | |a| <= i < |r| :: r[i] == s[i + 1];
    forall i, j | 0 <= i < j < |r| ensures r[i] != r[j] && !Reaches(d, r[i], r[j]) {
      var m, n := if i < |a| then i else i + 1, if j < |a| then j else j + 1;
      assert s[m] == r[i] && s[n] == r[j];
    }
  }

  lemma NoSelfReach(g: Nodes, f: Id)
    requires !Cyclic(EdgesOf(g))
    ensures !Reaches(EdgesOf(g), f, f)
  {
  }

  lemma BothCompleted(g: Nodes, id: Id, j: Judgement, below: seq<Id>, affected: seq<Id>, half: Nodes, h: Nodes)
    requires id in g && j.reason.Some? && j.Blames(id) in g && HalfFailed(g, id, j, below, half)
    requires var f := j.Blames(id);
      var mid := half[id := half[id].(review := Some(ReviewOf(id, j, affected)))];
      h == mid[f := mid[f].(failures := mid[f].failures + [VerificationFailure(id, g[f].attempts, j.reason.value,
        j.failed, j.BlamedCriteria(id), j.reviewer, affected)])]
    ensures h.Keys == g.Keys && forall x {:trigger h[x]} | x in g :: h[x] == Completed(g, id, j, below, affected, x)
  {
    hide HalfNode, Discarded;
  }

  lemma SecondHalf(g: Nodes, id: Id, j: Judgement, below: seq<Id>, affected: seq<Id>, h: Nodes)
    requires Valid(g) && CanVerify(g, id, j) && j.result.Fail? && h.Keys == g.Keys
    requires forall x :: x in below <==> x in g && Reaches(EdgesOf(g), x, j.Blames(id))
    requires Distinct(affected) && InDependencyOrder(affected, EdgesOf(g))
    requires j.reason.Some? && forall x ::
      x in affected <==> x in below && x in g && !HalfNode(g, id, j, x).status.Failed?
    requires j.Blames(id) in g
    requires forall x {:trigger h[x]} | x in g :: h[x] == Completed(g, id, j, below, affected, x)
    ensures AffectedBy(g, j.Blames(id), affected)
    ensures h == AfterFail(g, id, j, affected)
  {
    hide Valid, CanVerify, Reaches, InDependencyOrder, Distinct, HalfNode, Completed, AfterFail;
    var f := j.Blames(id);
    AcyclicOf(g);
    NoSelfReach(g, f);
    var want := AfterFail(g, id, j, affected);
    AfterFailKeys(g, id, j, affected);
    forall x | x in g
      ensures h[x] == want[x]
      ensures x in affected <==> x in below && !g[x].status.Failed?
    {
      CompletedNode(g, id, j, below, affected, x);
      if x in below {
        HalfStatus(g, id, j, x);
      }
    }
    assert h == want;
  }

  lemma AfterFailKeys(g: Nodes, id: Id, j: Judgement, affected: seq<Id>)
    requires j.reason.Some?
    ensures AfterFail(g, id, j, affected).Keys == g.Keys
  {
    hide Reaches;
  }

  lemma HalfStatus(g: Nodes, id: Id, j: Judgement, x: Id)
    requires x in g && j.reason.Some? && x != j.Blames(id)
    ensures HalfNode(g, id, j, x).status == g[x].status
  {
    SameStatus(g[x], ReviewOf(id, j, []));
  }

  lemma CompletedNode(g: Nodes, id: Id, j: Judgement, below: seq<Id>, affected: seq<Id>, x: Id)
    requires x in g && j.reason.Some? && j.Blames(id) in g && !Reaches(EdgesOf(g), j.Blames(id), j.Blames(id))
    requires x in below <==> Reaches(EdgesOf(g), x, j.Blames(id))
    ensures x in AfterFail(g, id, j, affected)
    ensures AfterFail(g, id, j, affected)[x] == Completed(g, id, j, below, affected, x)
  {
    hide Reaches, Bounded;
  }

  lemma AcyclicOf(g: Nodes)
    requires Valid(g)
    ensures !Cyclic(EdgesOf(g))
  {
  }

  /** A node once both records are completed with the affected list. */
  function Completed(g: Nodes, id: Id, j: Judgement, below: seq<Id>, affected: seq<Id>, x: Id): Node
    requires x in g && j.reason.Some? && j.Blames(id) in g
  {
    var f := j.Blames(id);
    var n := if x in below then Discarded(HalfNode(g, id, j, x), f) else HalfNode(g, id, j, x);
    var m := if x == id then n.(review := Some(ReviewOf(id, j, affected))) else n;
    if x == f then
      m.(failures := m.failures +
        [VerificationFailure(id, g[f].attempts, j.reason.value, j.failed, j.BlamedCriteria(id), j.reviewer, affected)])
    else m
  }

  lemma AddedMutates(g: Nodes, id: Id, node: Node)
    ensures CanAdd(g, id, node) ==> Mutated(g, Op.AddNode(id, node)) == g[id := node]
  {
    hide Accepts;
  }

  // ----- reading a document -----

  function IdsOf(document: seq<(Id, Node)>): (ids: seq<Id>)
  {
    if document == [] then [] else IdsOf(document[..|document| - 1]) + [document[|document| - 1].0]
  }

  function NodesOf(document: seq<(Id, Node)>): Nodes {
    if document == [] then map[]
    else NodesOf(document[..|document| - 1])[document[|document| - 1].0 := document[|document| - 1].1]
  }

  lemma Appended(front: seq<(Id, Node)>, id: Id, node: Node)
    ensures IdsOf(front + [(id, node)]) == IdsOf(front) + [id]
    ensures NodesOf(front + [(id, node)]) == NodesOf(front)[id := node]
  {
    assert (front + [(id, node)])[..|front|] == front;
  }

  lemma {:induction false} PrefixIds(document: seq<(Id, Node)>, i: nat)
    requires i <= |document|
    ensures |IdsOf(document)| == |document| && IdsOf(document)[..i] == IdsOf(document[..i])
    decreases |document|
  {
    if document != [] {
      var front := document[..|document| - 1];
      if i < |document| {
        PrefixIds(front, i);
        assert front[..i] == document[..i];
      } else {
        PrefixIds(front, |front|);
        assert document[..i] == document;
      }
    }
  }

  lemma SeenBefore(ids: seq<Id>, i: nat)
    requires i < |ids| && ids[i] in Elements(ids[..i])
    ensures !Distinct(ids)
  {
    var k :| 0 <= k < i && ids[..i][k] == ids[i];
    assert ids[k] == ids[i];
  }

  /** An id met again makes the whole list of ids repeat. */
  lemma Repeated(document: seq<(Id, Node)>, i: nat)
    requires i < |document| && document[i].0 in NodesOf(document[..i])
    requires Elements(IdsOf(document[..i])) == NodesOf(document[..i]).Keys
    ensures !Distinct(IdsOf(document))
  {
    hide NodesOf, IdsOf;
    var ids := IdsOf(document);
    PrefixIds(document, i);
    PrefixIds(document, i + 1);
    assert document[..i + 1] == document[..i] + [document[i]];
    Appended(document[..i], document[i].0, document[i].1);
    assert ids[..i + 1][i] == document[i].0;
    assert document[i].0 in Elements(ids[..i]);
    SeenBefore(ids, i);
  }

  predicate Waiting(s: Status) {
    s.Ready? || s.Blocked? || s.Invalidated?
  }

  lemma {:induction false} SelectKeepsOrder(o: seq<Id>, d: Edges, keep: set<Id>)
    requires Distinct(o) && InDependencyOrder(o, d)
    ensures InDependencyOrder(Select(o, keep), d)
  {
    if o != [] {
      SelectKeepsOrder(o[1..], d, keep);
      SelectKeeps(o[1..], keep);
      var r, rest := Select(o, keep), Select(o[1..], keep);
      if o[0] in keep {
        forall i, j | 0 <= i < j < |r| ensures !Reaches(d, r[i], r[j]) {
          if i == 0 {
            assert r[j] == rest[j - 1] && r[j] in o[1..];
            var m :| 0 <= m < |o[1..]| && o[1..][m] == r[j];
            assert o[m + 1] == r[j];
          } else {
            assert r[i] == rest[i - 1] && r[j] == rest[j - 1];
          }
        }
      }
    }
  }

  /** The nodes a FAIL can still move when it comes to them. */
  function Movable(g: Nodes, id: Id, j: Judgement): set<Id>
    requires id in g && j.Blames(id) in g && j.reason.Some?
  {
    set x | x in g && !HalfNode(g, id, j, x).status.Failed?
  }

  /** The list a FAIL returns: the dependents of the blamed node in graph order, without those already failed. */
  ghost function Downstream(g: Nodes, f: Id): seq<Id> {
    Select(DescendantsIn(EdgesOf(g), f), Unfailed(g))
  }

  function Unfailed(g: Nodes): set<Id> {
    set x | x in g && !g[x].status.Failed?
  }

  lemma MovableMeans(g: Nodes, id: Id, j: Judgement, x: Id)
    requires id in g && x in g && j.Blames(id) in g && j.reason.Some?
    ensures x in Movable(g, id, j) <==> !HalfNode(g, id, j, x).status.Failed?
  {
  }

  lemma NothingSelected(keep: set<Id>)
    ensures Select([], keep) == []
  {
  }

  lemma {:induction false} SelectNext(s: seq<Id>, x: Id, keep: set<Id>)
    ensures Select(s + [x], keep) == Select(s, keep) + if x in keep then [x] else []
  {
    if s != [] {
      assert (s + [x])[1..] == s[1..] + [x];
      SelectNext(s[1..], x, keep);
    } else {
      assert (s + [x])[1..] == [];
    }
  }

  lemma {:induction false} SelectAgrees(s: seq<Id>, a: set<Id>, b: set<Id>)
    requires forall x | x in s :: x in a <==> x in b
    ensures Select(s, a) == Select(s, b)
  {
    if s != [] {
      assert s[0] in s;
      SelectAgrees(s[1..], a, b);
    }
  }

  lemma MovableIsDownstream(g: Nodes, id: Id, j: Judgement, below: seq<Id>)
    requires id in g && j.Blames(id) in g && j.reason.Some? && j.Blames(id) !in below
    ensures Select(below, Movable(g, id, j)) == Select(below, Unfailed(g))
  {
    hide Select, WithReview;
    forall x | x in below ensures x in Movable(g, id, j) <==> x in Unfailed(g) {
      SameStatus(g[id], ReviewOf(id, j, []));
    }
    SelectAgrees(below, Movable(g, id, j), Unfailed(g));
  }

  lemma SameStatus(n: Node, r: Review)
    ensures WithReview(n, r).status == n.status
  {
    hide Bounded;
  }

  class Graph {
    const header: Header

    /** The document's node list: the order of ids, and the record of each. */
    var ids: seq<Id>
    var nodes: Nodes

    ghost predicate Listed() reads this {
      Distinct(ids) && Elements(ids) == nodes.Keys
    }

    /** What holds of a graph between two operations. */
    ghost predicate Consistent() reads this {
      header.Ok() && Listed() && Valid(nodes)
    }

    constructor (header: Header, ids: seq<Id>, nodes: Nodes)
      ensures this.header == header && this.ids == ids && this.nodes == nodes
    {
      this.header := header;
      this.ids := ids;
      this.nodes := nodes;
    }

    /** `Graph.from_dict`: null stands for the error `validate` raises on a document it refuses. */
    static method FromDocument(header: Header, document: seq<(Id, Node)>) returns (g: Graph?)
      ensures g != null <==>
        && header.version == 1 && header.objective.reduced.Some? && header.objective.length <= 32768
        && Distinct(IdsOf(document)) && Accepts(NodesOf(document))
      ensures g != null ==> fresh(g) && g.Consistent() && g.header == header
      ensures g != null ==> g.ids == IdsOf(document) && g.nodes == Promote(NodesOf(document))
    {
      hide Structure, RuntimeOk, Valid, Promote;
      var ids: seq<Id> := [];
      var nodes: Nodes := map[];
      assert document[..0] == [];
      for i := 0 to |document|
        invariant ids == IdsOf(document[..i]) && Distinct(ids)
        invariant nodes == NodesOf(document[..i]) && Elements(ids) == nodes.Keys
      {
        var (id, node) := document[i];
        assert document[..i + 1] == document[..i] + [document[i]];
        Appended(document[..i], id, node);
        if id in nodes {
          Repeated(document, i);
          return null;
        }
        AddElement(ids, id);
        assert id !in Elements(ids);
        ids := ids + [id];
        nodes := nodes[id := node];
      }
      assert document[..|document|] == document;
      var loaded := new Graph(header, ids, nodes);
      var ok := loaded.Validate();
      if !ok {
        return null;
      }
      AcceptedIsValid(nodes);
      g := loaded;
    }

    method CheckNodes() returns (ok: bool)
      requires Listed()
      ensures ok <==> NodesOk(nodes) && Known(nodes)
    {
      for i := 0 to |ids|
        invariant forall x | x in ids[..i] :: x in nodes && NodeOk(nodes[x])
      {
        assert ids[i] in Elements(ids);
        assert ids[..i + 1] == ids[..i] + [ids[i]];
        if !NodeOk(nodes[ids[i]]) {
          return false;
        }
      }
      assert ids[..|ids|] == ids;
      AllListed();
      for i := 0 to |ids|
        invariant forall x | x in ids[..i] :: x in nodes && forall y | y in nodes[x].dependsOn :: y in nodes && y != x
      {
        assert ids[i] in Elements(ids);
        assert ids[..i + 1] == ids[..i] + [ids[i]];
        var n := nodes[ids[i]];
        if exists y :: y in n.dependsOn && (y !in nodes || y == ids[i]) {
          return false;
        }
      }
      assert ids[..|ids|] == ids;
      return true;
    }

    lemma AllListed()
      requires Listed()
      ensures forall x :: x in ids <==> x in nodes
    {
      forall x ensures x in ids <==> x in nodes {
        assert x in Elements(ids) <==> x in nodes.Keys;
      }
    }

    method CheckRuntime() returns (ok: bool)
      requires Listed()
      ensures ok <==> RuntimeOk(nodes)
    {
      AllListed();
      for i := 0 to |ids|
        invariant forall x | x in ids[..i] :: x in nodes && RuntimeNode(nodes, nodes[x])
      {
        assert ids[..i + 1] == ids[..i] + [ids[i]];
        assert ids[i] in ids;
        if !RuntimeNode(nodes, nodes[ids[i]]) {
          return false;
        }
      }
      assert ids[..|ids|] == ids;
      return true;
    }

    /** Promotes in topological order, as each node is met. */
    method PromoteBlockedNodes(order: seq<Id>)
      requires Listed() && Topological(order, EdgesOf(nodes))
      modifies this`nodes
      ensures nodes == Promote(old(nodes))
    {
      hide Topological, DepsSettled, PartlyPromoted, Promote, Distinct, EdgesOf;
      ghost var g := nodes;
      OrderElements(order, g);
      assert order[..0] == [];
      NonePromoted(g);
      for i := 0 to |order|
        invariant nodes.Keys == g.Keys && PartlyPromoted(g, nodes, order[..i])
      {
        var x := order[i];
        assert x in order;
        assert order[..i + 1] == order[..i] + [x];
        NotYet(order, i);
        PromotedOne(g, nodes, order[..i], x);
        if nodes[x].status.Blocked? && DepsSettled(nodes, nodes[x]) {
          nodes := nodes[x := nodes[x].(status := Ready)];
        } else {
          assert nodes[x := nodes[x]] == nodes;
        }
      }
      assert order[..|order|] == order;
      PromotedAll(g, nodes, order);
    }

    lemma OrderElements(order: seq<Id>, g: Nodes)
      requires Topological(order, EdgesOf(g))
      ensures Distinct(order) && Elements(order) == g.Keys && forall x | x in order :: x in g
    {
    }

    /** `validate`: true when it returns, false when it raises. */
    method Validate() returns (ok: bool)
      requires Listed()
      modifies this`nodes
      ensures ok <==> header.Ok() && Accepts(old(nodes))
      ensures nodes == if header.Ok() && Structure(old(nodes)) then Promote(old(nodes)) else old(nodes)
      ensures Listed()
    {
      hide NodesOk, Known, RuntimeOk, Cyclic, Promoted, Topological, Distinct, WellFormed;
      SizeOf();
      if !header.Ok() {
        return false;
      }
      if |ids| == 0 || |ids| > MAX_NODES {
        return false;
      }
      var shape := CheckNodes();
      if !shape {
        return false;
      }
      EdgesWellFormed(ids, nodes);
      var order := TopologicalIds(ids, EdgesOf(nodes));
      if order.None? {
        return false;
      }
      PromoteBlockedNodes(order.value);
      ok := CheckRuntime();
    }

    /** Runs the trailing `validate` of an operation that has written its changes. */
    method Close(ghost g: Nodes, ghost op: Op) returns (ok: bool)
      requires header.Ok() && Listed() && Valid(g) && Enabled(g, op) && nodes == Mutated(g, op)
      modifies this`nodes
      ensures Listed()
      ensures ok <==> TextFits(op)
      ensures ok ==> Valid(nodes) && nodes == After(g, op)
      ensures !ok ==> nodes == Mutated(g, op) && !Valid(nodes)
    {
      hide Structure, RuntimeOk, Stable, Enabled, Mutated, TextFits, Promote;
      TrailingValidate(g, op);
      if TextFits(op) {
        KeepsValid(g, op);
      }
      ok := Validate();
    }

    method Start(id: Id, named: Option<Text>) returns (ok: bool)
      requires Consistent()
      modifies this`nodes
      ensures Consistent()
      ensures ok <==> CanStart(old(nodes), id, named)
      ensures nodes == if ok then After(old(nodes), Op.Start(id, named)) else old(nodes)
    {
      hide Valid, After, Promoted;
      if id !in nodes {
        return false;
      }
      var n := nodes[id];
      var executor := ExecutorFor(n, named);
      if executor.Blank() || !n.status.Ready? || n.attempts >= n.maxAttempts {
        return false;
      }
      ghost var g := nodes;
      nodes := nodes[id := n.(status := Running, attempts := n.attempts + 1, executor := Some(executor),
                              review := None, failureReason := None)];
      ok := Close(g, Op.Start(id, named));
    }

    method Submit(id: Id, evidence: seq<Evidence>, actor: Option<Text>, context: Context) returns (ok: bool)
      requires Consistent()
      modifies this`nodes
      ensures Consistent()
      ensures ok <==> CanSubmit(old(nodes), id, evidence, actor, context)
      ensures nodes == if ok then After(old(nodes), Op.Submit(id, evidence, actor, context)) else old(nodes)
    {
      hide Valid, After, Promoted, EvidenceOk, Covered, Elements, SameActor;
      if id !in nodes || !nodes[id].status.Running? {
        return false;
      }
      var n := nodes[id];
      if actor.Some? && (actor.value.Blank() || !SameActor(actor, n.executor)) {
        return false;
      }
      if !EvidenceOk(evidence) || !(Covered(evidence) <= Elements(n.criteria)) || !context.sound {
        return false;
      }
      ghost var g := nodes;
      nodes := nodes[id := n.(evidence := evidence, context := context, status := Awaiting, submitted := true)];
      assert Elements(ids) == nodes.Keys;
      ok := Close(g, Op.Submit(id, evidence, actor, context));
    }

    method WithdrawSubmission(id: Id, actor: Text) returns (ok: bool)
      requires Consistent()
      modifies this`nodes
      ensures Consistent()
      ensures ok <==> CanWithdraw(old(nodes), id, actor)
      ensures nodes == if ok then After(old(nodes), Op.Withdraw(id, actor)) else old(nodes)
    {
      hide Valid, After, Promoted, SameActor, Bounded;
      if id !in nodes || !nodes[id].status.Awaiting? {
        return false;
      }
      var n := nodes[id];
      if n.review.None? || !n.review.value.result.Uncertain? {
        return false;
      }
      if actor.Blank() || !SameActor(Some(actor), n.executor) || !n.submitted {
        return false;
      }
      ghost var g := nodes;
      var kept := ArchiveReview(n.doubts, DoubtOf(n));
      nodes := nodes[id := n.(doubts := kept, review := None, submitted := false, status := Running)];
      ok := Close(g, Op.Withdraw(id, actor));
    }

    method Retry(id: Id) returns (ok: bool)
      requires Consistent()
      modifies this`nodes
      ensures Consistent()
      ensures ok <==> CanRetry(old(nodes), id)
      ensures nodes == if ok then After(old(nodes), Op.Retry(id)) else old(nodes)
    {
      hide Valid, After, Promoted, DepsSettled;
      if id !in nodes {
        return false;
      }
      var n := nodes[id];
      if (!n.status.Failed? && !n.status.Invalidated?) || n.attempts >= n.maxAttempts {
        return false;
      }
      ghost var g := nodes;
      var settled := DepsSettled(nodes, n);
      var kept := n.archive + [Attempt(n.attempts, n.evidence, n.review, n.failureReason)];
      nodes := nodes[id := n.(archive := kept, evidence := [], review := None, executor := None, failureReason := None,
                              submitted := false, status := if settled then Ready else Blocked)];
      ok := Close(g, Op.Retry(id));
    }

    method GrantAttempt(id: Id, grantor: Text, reason: Text) returns (ok: bool)
      requires Consistent()
      modifies this`nodes
      ensures Consistent()
      ensures ok <==> CanGrant(old(nodes), id, grantor, reason)
      ensures nodes == if ok then After(old(nodes), Op.GrantAttempt(id, grantor, reason)) else old(nodes)
    {
      hide Valid, After, Promoted;
      if id !in nodes || grantor.Blank() || reason.Blank() {
        return false;
      }
      var n := nodes[id];
      if (!n.status.Failed? && !n.status.Invalidated?) || n.maxAttempts >= MAX_ATTEMPTS {
        return false;
      }
      ghost var g := nodes;
      var grants := n.grants + [Grant(grantor, reason, n.attempts)];
      nodes := nodes[id := n.(maxAttempts := n.maxAttempts + 1, grants := grants)];
      ok := Close(g, Op.GrantAttempt(id, grantor, reason));
    }

    /** Also names, in dependency order, the dependents that are now free to go on. */
    method Supersede(id: Id, reason: Text) returns (ok: bool, released: seq<Id>)
      requires Consistent()
      modifies this`nodes
      ensures Consistent()
      ensures ok <==> CanSupersede(old(nodes), id, reason)
      ensures nodes == if ok then After(old(nodes), Op.Supersede(id, reason)) else old(nodes)
      ensures ok ==> Distinct(released) && InDependencyOrder(released, EdgesOf(nodes))
      ensures ok ==> forall x :: x in released <==>
        && x in nodes && Reaches(EdgesOf(nodes), x, id) && DepsSettled(nodes, nodes[x])
        && (nodes[x].status.Ready? || nodes[x].status.Blocked? || nodes[x].status.Invalidated?)
    {
      hide Valid, After, Reaches, InDependencyOrder, DepsSettled, Promoted, Distinct;
      released := [];
      if id !in nodes || reason.Blank() || nodes[id].status.Verified? || nodes[id].status.Superseded? {
        return false, released;
      }
      ghost var g := nodes;
      nodes := nodes[id := nodes[id].(status := Superseded, retired := Some(reason))];
      ok := Close(g, Op.Supersede(id, reason));
      var below := DescendantsOf(id);
      released := Freed(below);
    }

    method DescendantsOf(id: Id) returns (r: seq<Id>)
      requires Consistent() && id in nodes
      ensures r == DescendantsIn(EdgesOf(nodes), id)
      ensures Distinct(r) && InDependencyOrder(r, EdgesOf(nodes))
      ensures forall x :: x in r <==> x in nodes && Reaches(EdgesOf(nodes), x, id)
    {
      hide NodesOk, Known, RuntimeOk, Stable, Distinct, InDependencyOrder, Joins, WellFormed, DescendantsIn;
      EdgesWellFormed(ids, nodes);
      r := Descendants(ids, EdgesOf(nodes), id);
      ReachesKnown();
    }

    method AncestorsOf(id: Id) returns (r: seq<Id>)
      requires Consistent() && id in nodes
      ensures r == AncestorsIn(EdgesOf(nodes), id)
      ensures Distinct(r) && InDependencyOrder(r, EdgesOf(nodes))
      ensures forall x :: x in r <==> Reaches(EdgesOf(nodes), id, x)
    {
      hide NodesOk, Known, RuntimeOk, Stable, Distinct, InDependencyOrder, Joins, WellFormed, AncestorsIn;
      EdgesWellFormed(ids, nodes);
      r := Ancestors(ids, EdgesOf(nodes), id);
    }

    lemma ReachesKnown()
      ensures forall x, y {:trigger Reaches(EdgesOf(nodes), x, y)} | Reaches(EdgesOf(nodes), x, y) :: x in nodes
    {
    }

    method Freed(below: seq<Id>) returns (r: seq<Id>)
      requires Distinct(below) && InDependencyOrder(below, EdgesOf(nodes)) && forall x | x in below :: x in nodes
      ensures Distinct(r) && InDependencyOrder(r, EdgesOf(nodes))
      ensures forall x :: x in r <==> x in below && Waiting(nodes[x].status) && DepsSettled(nodes, nodes[x])
    {
      var keep := set x | x in below && Waiting(nodes[x].status) && DepsSettled(nodes, nodes[x]);
      r := Select(below, keep);
      SelectKeeps(below, keep);
      SelectKeepsOrder(below, EdgesOf(nodes), keep);
    }

    /**
     * `verify`. It returns the invalidated dependents of a FAIL. A verdict whose own checks pass but whose
     * labels or sentences are blank or too long is written and then refused: that is the one way an
     * operation of this class can raise with the in-memory document changed.
     */
    method Verify(id: Id, j: Judgement) returns (ok: bool, affected: seq<Id>)
      requires Consistent()
      modifies this`nodes
      ensures ok <==> CanVerify(old(nodes), id, j) && j.TextFits()
      ensures Listed() && (Consistent() <==> (CanVerify(old(nodes), id, j) ==> j.TextFits()))
      ensures CanVerify(old(nodes), id, j) && j.result.Fail? ==> affected == Downstream(old(nodes), j.Blames(id))
      ensures !CanVerify(old(nodes), id, j) ==> nodes == old(nodes)
      ensures CanVerify(old(nodes), id, j) ==> Enabled(old(nodes), Op.Verify(id, j, affected))
      ensures CanVerify(old(nodes), id, j) ==>
        nodes ==
          if ok then After(old(nodes), Op.Verify(id, j, affected))
          else Mutated(old(nodes), Op.Verify(id, j, affected))
    {
      hide Valid, After, Promoted, Reaches, ReviewerGuards, PassGuards, FailGuards, HasReason, AffectedBy, Mutated,
        Downstream;
      affected := [];
      if id !in nodes || !ReviewerGuards(nodes[id], j) {
        return false, affected;
      }
      ghost var g := nodes;
      match j.result {
        case Pass =>
          if !PassGuards(nodes[id], j) {
            return false, affected;
          }
          RecordVerification(id, ReviewOf(id, j, affected));
          nodes := nodes[id := nodes[id].(status := Verified, failureReason := None)];
          VerdictMutates(g, id, j);
        case Uncertain =>
          if !HasReason(j) {
            return false, affected;
          }
          RecordVerification(id, ReviewOf(id, j, affected));
          VerdictMutates(g, id, j);
        case Fail =>
          var allowed := CheckFail(id, j);
          if !allowed {
            return false, affected;
          }
          affected := ApplyFail(id, j);
          FailMutates(g, id, j, affected);
      }
      ok := Close(g, Op.Verify(id, j, affected));
    }

    /** `_record_verification`. */
    method RecordVerification(id: Id, review: Review)
      requires Listed() && id in nodes
      modifies this`nodes
      ensures Listed() && nodes == old(nodes)[id := WithReview(old(nodes)[id], review)]
    {
      hide Bounded, Distinct;
      var n := nodes[id];
      if Doubtful(n) {
        var kept := ArchiveReview(n.doubts, DoubtOf(n));
        nodes := nodes[id := n.(doubts := kept, review := Some(review))];
      } else {
        nodes := nodes[id := n.(review := Some(review))];
      }
    }

    method CheckFail(id: Id, j: Judgement) returns (allowed: bool)
      requires Consistent() && id in nodes
      ensures allowed <==> FailGuards(nodes, id, j)
    {
      hide Valid, Distinct, Elements, Covered, Reaches, InDependencyOrder, SameActor;
      var f := j.Blames(id);
      if !HasReason(j) || f !in nodes {
        return false;
      }
      if f != id {
        var below := DescendantsOf(f);
        if id !in below || !nodes[f].status.Verified? {
          return false;
        }
      }
      var blamed := j.BlamedCriteria(id);
      return !SameActor(Some(j.reviewer), nodes[f].executor)
        && blamed != [] && Distinct(blamed) && Elements(blamed) <= Elements(nodes[f].criteria)
        && j.failed != [] && j.Items() != [] && Elements(j.failed) <= Covered(j.Items());
    }

    /** Records the verdict, fails the blamed node, invalidates its dependents and completes both records. */
    method ApplyFail(id: Id, j: Judgement) returns (affected: seq<Id>)
      requires Consistent() && CanVerify(nodes, id, j) && j.result.Fail?
      modifies this`nodes
      ensures Listed() && AffectedBy(old(nodes), j.Blames(id), affected)
      ensures affected == Downstream(old(nodes), j.Blames(id))
      ensures nodes == AfterFail(old(nodes), id, j, affected)
    {
      hide Structure, RuntimeOk, Stable, Reaches, ReviewerGuards, FailGuards, AffectedBy, InDependencyOrder, WithReview,
        DescendantsIn, Movable, Unfailed, Select, AfterFail, Promoted, Distinct, HalfFailed, Discarded, Completed;
      ghost var g := nodes;
      var f := j.Blames(id);
      FailFacts(g, id, j);
      var attempt := nodes[f].attempts;
      var below := DescendantsOf(f);
      RecordVerification(id, ReviewOf(id, j, []));
      var reopened := if f != id then nodes[f].(review := None) else nodes[f];
      nodes := nodes[f := reopened.(status := Failed, failureReason := Some(Stated(j.reason.value)))];
      FirstHalf(g, id, j, nodes);
      affected := InvalidateDescendants(f, below, g, id, j);
      ghost var half := nodes;
      AcyclicOf(g);
      NoSelfReach(g, f);
      MovableIsDownstream(g, id, j, below);
      nodes := nodes[id := nodes[id].(review := Some(ReviewOf(id, j, affected)))];
      var entry := VerificationFailure(id, attempt, j.reason.value, j.failed, j.BlamedCriteria(id), j.reviewer,
        affected);
      nodes := nodes[f := nodes[f].(failures := nodes[f].failures + [entry])];
      BothCompleted(g, id, j, below, affected, half, nodes);
      SecondHalf(g, id, j, below, affected, nodes);
    }

    /** `_invalidate_descendants`, over the dependents in graph order. */
    method InvalidateDescendants(f: Id, below: seq<Id>, ghost g: Nodes, ghost id: Id, ghost j: Judgement)
      returns (affected: seq<Id>)
      requires Listed() && f in g && id in g && Distinct(below) && InDependencyOrder(below, EdgesOf(g))
      requires j.reason.Some? && f == j.Blames(id)
      requires forall x | x in below :: x in g
      requires HalfFailed(g, id, j, [], nodes)
      modifies this`nodes
      ensures Listed() && HalfFailed(g, id, j, below, nodes)
      ensures Distinct(affected) && InDependencyOrder(affected, EdgesOf(g))
      ensures forall x :: x in affected <==> x in below && !HalfNode(g, id, j, x).status.Failed?
      ensures affected == Select(below, Movable(g, id, j))
    {
      hide Distinct, InDependencyOrder, HalfNode, HalfFailed, Discarded, Select, Movable;
      affected := [];
      NothingSelected(Movable(g, id, j));
      assert affected + below[0..] == below;
      assert below[..0] == [];
      for i := 0 to |below|
        invariant nodes.Keys == old(nodes).Keys && HalfFailed(g, id, j, below[..i], nodes)
        invariant Distinct(affected + below[i..]) && InDependencyOrder(affected + below[i..], EdgesOf(g))
        invariant forall x :: x in affected <==> x in below[..i] && !HalfNode(g, id, j, x).status.Failed?
        invariant affected == Select(below[..i], Movable(g, id, j))
      {
        var x := below[i];
        assert x in below;
        SelectNext(below[..i], x, Movable(g, id, j));
        MovableMeans(g, id, j, x);
        NotYet(below, i);
        HalfStep(g, id, j, below[..i], x, nodes);
        assert below[..i + 1] == below[..i] + [x];
        assert affected + below[i..] == affected + [x] + below[i + 1..];
        if !nodes[x].status.Failed? {
          nodes := nodes[x := Discarded(nodes[x], f)];
          affected := affected + [x];
        } else {
          DropMiddle(affected, x, below[i + 1..], EdgesOf(g));
          FailedIsSkipped(nodes, x, f);
        }
      }
      assert below[..|below|] == below;
      assert affected + below[|below|..] == affected;
    }

    /** Validates a copy of the document with the node appended, and adopts the copy only if that passes. */
    method AddNode(id: Id, description: Text, deps: seq<Id>, role: Text, criteria: seq<Criterion>, max: int)
      returns (ok: bool, status: Status)
      requires Consistent()
      modifies this
      ensures Consistent()
      ensures ok <==> CanAdd(old(nodes), id, Fresh(description, deps, role, criteria, max))
      ensures nodes ==
        if ok then After(old(nodes), Op.AddNode(id, Fresh(description, deps, role, criteria, max)))
        else old(nodes)
      ensures ids == if ok then old(ids) + [id] else old(ids)
      ensures ok ==> status == nodes[id].status
    {
      hide Valid, Structure, RuntimeOk, Promote, Distinct, Elements;
      status := Blocked;
      if id in nodes {
        return false, status;
      }
      var node := Fresh(description, deps, role, criteria, max);
      AppendListed(id);
      AddedMutates(nodes, id, node);
      var candidate := new Graph(header, ids + [id], nodes[id := node]);
      ok := candidate.Validate();
      if ok {
        AcceptedIsValid(nodes[id := node]);
        ids := candidate.ids;
        nodes := candidate.nodes;
        status := nodes[id].status;
      }
    }

    lemma AppendListed(id: Id)
      requires Listed() && id !in nodes
      ensures Distinct(ids + [id]) && Elements(ids + [id]) == nodes.Keys + {id}
    {
      AllListed();
      AddElement(ids, id);
    }

    lemma SizeOf()
      requires Listed()
      ensures |ids| == |nodes|
    {
      DistinctCardinality(ids);
      assert |nodes.Keys| == |nodes|;
    }
  }

  lemma EdgesWellFormed(ids: seq<Id>, g: Nodes)
    requires Distinct(ids) && Elements(ids) == g.Keys && NodesOk(g) && Known(g)
    ensures WellFormed(ids, EdgesOf(g))
  {
    forall x | x in g ensures Distinct(g[x].dependsOn) {
      assert NodeOk(g[x]);
    }
  }
}
