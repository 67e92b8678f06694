/** The offline protocol comparison: a client that drives a graph through whole runs. */
module Evaluation {
  import opened Basics
  import opened Dependencies
  import opened Records
  import opened Operations
  import opened Guards
  import opened Runs
  import opened DoubtTrail
  import opened TaskGraph
  import opened Completion
  import opened Advice

  /** The two labels the comparison uses for one node name different actors. */
  function EvalExecutor(x: Id): Text { Text(Some(2 * x), 0, 160) }
  function EvalReviewer(x: Id): Text { Text(Some(2 * x + 1), 0, 160) }

  predicate Startable(n: Node) {
    (n.status.Blocked? || n.status.Ready?) && n.attempts < n.maxAttempts
  }

  /** Nothing but promotion happened outside `touched`. */
  predicate OnlyPromoted(g: Nodes, h: Nodes, touched: set<Id>) {
    && h.Keys == g.Keys
    && (forall y {:trigger h[y]} | y in g && y !in touched ::
          h[y] == g[y] || (g[y].status.Blocked? && h[y] == g[y].(status := Ready)))
    && (forall y {:trigger h[y]} | y in g :: h[y].dependsOn == g[y].dependsOn)
  }

  lemma PromotedTwice(g: Nodes, h: Nodes, k: Nodes, a: set<Id>, b: set<Id>)
    requires OnlyPromoted(g, h, a) && OnlyPromoted(h, k, b)
    ensures OnlyPromoted(g, k, a + b)
  {
    forall y | y in g && y !in a + b
      ensures k[y] == g[y] || (g[y].status.Blocked? && k[y] == g[y].(status := Ready))
    {
      assert h[y] == g[y] || (g[y].status.Blocked? && h[y] == g[y].(status := Ready));
      assert k[y] == h[y] || (h[y].status.Blocked? && k[y] == h[y].(status := Ready));
    }
    forall y | y in g ensures k[y].dependsOn == g[y].dependsOn {
      assert h[y].dependsOn == g[y].dependsOn;
    }
  }

  lemma StepPromotes(g: Nodes, op: Op)
    requires Valid(g) && Accepted(g, op) && !IsFail(op) && op.id in g
    ensures OnlyPromoted(g, After(g, op), {op.id})
    ensures !Rewritten(g, op).status.Blocked? ==> op.id in After(g, op) && After(g, op)[op.id] == Rewritten(g, op)
  {
    hide Valid, Enabled, After, Rewritten;
    StepKeys(g, op);
    assert g.Keys + {op.id} == g.Keys;
    StepSelf(g, op);
    RewrittenDeps(g, op);
    forall y | y in g && y != op.id
      ensures After(g, op)[y] == g[y] || (g[y].status.Blocked? && After(g, op)[y] == g[y].(status := Ready))
    {
      StepOther(g, op, y);
    }
  }

  lemma RewrittenDeps(g: Nodes, op: Op)
    requires Valid(g) && Accepted(g, op) && !IsFail(op) && op.id in g
    ensures Rewritten(g, op).dependsOn == g[op.id].dependsOn && Rewritten(g, op).criteria == g[op.id].criteria
  {
    hide Valid, Accepts, Bounded;
  }

  function EvalPass(n: Node, x: Id): Judgement {
    Judgement(Pass, EvalReviewer(x), Some(n.criteria), Some(FullEvidence(n.criteria)), None, None, None, [], [])
  }

  function EvalFail(n: Node, x: Id): Judgement
    requires n.criteria != []
  {
    Judgement(Fail, EvalReviewer(x), None, Some(FullEvidence(n.criteria)), Some(Voice(8)), None, None,
      [n.criteria[0]], [])
  }

  /** A node the comparison has just submitted: everything covered, by its own executor. */
  predicate Presented(n: Node, x: Id) {
    && n.status.Awaiting? && n.executor == Some(EvalExecutor(x)) && n.evidence == FullEvidence(n.criteria)
    && 0 < |n.criteria| <= MAX_CRITERIA && Distinct(n.criteria)
  }

  lemma EvalPassAccepted(g: Nodes, x: Id)
    requires x in g && Presented(g[x], x)
    ensures Accepted(g, Op.Verify(x, EvalPass(g[x], x), []))
  {
    hide Elements, Covered, EvidenceOk, Distinct, FullEvidence;
    FullCovers(g[x].criteria);
    assert Distinct<Criterion>([]) && Elements<Criterion>([]) <= Elements(g[x].criteria) by {
      NothingListed(g[x].criteria);
      NothingRepeats();
    }
  }

  lemma NothingRepeats()
    ensures Distinct<Criterion>([])
  {
  }

  lemma EvalFailAllowed(g: Nodes, x: Id)
    requires x in g && Presented(g[x], x)
    ensures CanVerify(g, x, EvalFail(g[x], x)) && EvalFail(g[x], x).TextFits()
  {
    hide EvidenceOk, Covered, FullEvidence;
    var c := g[x].criteria;
    FullCovers(c);
    assert c[0] in c;
    assert Elements([c[0]]) <= Elements(c);
    assert |FullEvidence(c)| == |c|;
  }

  /** Start and submit one ready node with full evidence. */
  method Present(graph: Graph, x: Id) returns (ok: bool)
    requires graph.Consistent() && x in graph.nodes
    modifies graph`nodes
    ensures graph.Consistent() && graph.ids == old(graph.ids)
    ensures ok <==> old(graph.nodes[x].status.Ready? && graph.nodes[x].attempts < graph.nodes[x].maxAttempts)
    ensures !ok ==> graph.nodes == old(graph.nodes)
    ensures ok ==> OnlyPromoted(old(graph.nodes), graph.nodes, {x}) && Presented(graph.nodes[x], x)
    ensures ok ==> graph.nodes[x].attempts == old(graph.nodes[x].attempts) + 1
    ensures ok ==> graph.nodes[x].maxAttempts == old(graph.nodes[x].maxAttempts)
  {
    hide Valid, After, Rewritten, OnlyPromoted, EvidenceOk, Covered, Elements, FullEvidence, Distinct;
    ghost var g := graph.nodes;
    var executor := EvalExecutor(x);
    ok := graph.Start(x, Some(executor));
    if !ok {
      return;
    }
    ghost var h := graph.nodes;
    AfterEvalStart(g, x);
    var evidence := FullEvidence(graph.nodes[x].criteria);
    AfterEvalSubmit(h, x);
    ok := graph.Submit(x, evidence, Some(executor), Context([], true));
    PromotedTwice(g, h, graph.nodes, {x}, {x});
    assert {x} + {x} == {x};
  }

  lemma AfterEvalStart(g: Nodes, x: Id)
    requires Valid(g) && CanStart(g, x, Some(EvalExecutor(x)))
    ensures var h := After(g, Op.Start(x, Some(EvalExecutor(x))));
      && OnlyPromoted(g, h, {x}) && x in h
      && h[x] == Started(g[x], EvalExecutor(x))
  {
    hide Valid, After;
    StepPromotes(g, Op.Start(x, Some(EvalExecutor(x))));
  }

  lemma AfterEvalSubmit(h: Nodes, x: Id)
    requires Valid(h) && x in h && h[x].status.Running? && h[x].executor == Some(EvalExecutor(x))
    ensures var e := FullEvidence(h[x].criteria);
      && CanSubmit(h, x, e, Some(EvalExecutor(x)), Context([], true))
      && (var k := After(h, Op.Submit(x, e, Some(EvalExecutor(x)), Context([], true)));
          OnlyPromoted(h, k, {x}) && x in k && k[x] == Submitted(h[x], e, Context([], true)) && Presented(k[x], x))
  {
    hide Valid, After, EvidenceOk, Covered, Elements, FullEvidence;
    FullCovers(h[x].criteria);
    CriteriaInLimits(h, x);
    StepPromotes(h, Op.Submit(x, FullEvidence(h[x].criteria), Some(EvalExecutor(x)), Context([], true)));
  }

  lemma CriteriaInLimits(g: Nodes, x: Id)
    requires Valid(g) && x in g
    ensures 0 < |g[x].criteria| <= MAX_CRITERIA && Distinct(g[x].criteria)
  {
    hide Cyclic, Known, RuntimeOk, EvidenceOk, DoubtsOk;
    assert NodeOk(g[x]);
  }

  /** One turn of the loop body of `_complete_ancestors`. */
  method CompleteNode(graph: Graph, x: Id) returns (ok: bool)
    requires graph.Consistent() && x in graph.nodes && graph.nodes[x].status.Ready?
    modifies graph`nodes
    ensures graph.Consistent() && graph.ids == old(graph.ids)
    ensures ok <==> old(graph.nodes[x].attempts < graph.nodes[x].maxAttempts)
    ensures ok ==> OnlyPromoted(old(graph.nodes), graph.nodes, {x}) && graph.nodes[x].status.Verified?
  {
    hide Valid, After, Rewritten, OnlyPromoted, EvalPass, CanVerify, Presented;
    ghost var g := graph.nodes;
    ok := Present(graph, x);
    if !ok {
      return;
    }
    ghost var h := graph.nodes;
    PassPresented(h, x);
    PromotedKeys(g, h, {x});
    var _, _ := graph.Verify(x, EvalPass(graph.nodes[x], x));
    PromotedTwice(g, h, graph.nodes, {x}, {x});
    assert {x} + {x} == {x};
  }

  lemma PromotedKeys(g: Nodes, h: Nodes, touched: set<Id>)
    requires OnlyPromoted(g, h, touched)
    ensures h.Keys == g.Keys
  {
  }

  lemma PassPresented(h: Nodes, x: Id)
    requires Valid(h) && x in h && Presented(h[x], x)
    ensures CanVerify(h, x, EvalPass(h[x], x)) && EvalPass(h[x], x).TextFits()
    ensures forall affected :: Enabled(h, Op.Verify(x, EvalPass(h[x], x), affected)) ==>
      var k := After(h, Op.Verify(x, EvalPass(h[x], x), affected));
      OnlyPromoted(h, k, {x}) && x in k && k[x].status.Verified?
  {
    hide Valid, After, Presented, Bounded, OnlyPromoted;
    EvalPassAccepted(h, x);
    StepPromotes(h, Op.Verify(x, EvalPass(h[x], x), []));
  }

  ghost predicate IsAncestors(g: Nodes, node: Id, ancestors: set<Id>) {
    forall x :: x in ancestors <==> Reaches(EdgesOf(g), node, x)
  }

  /** All that is asked of the ancestors beforehand: each is blocked or ready, with an attempt left. */
  predicate AllStartable(g: Nodes, s: set<Id>) {
    forall x {:trigger x in s} | x in s :: x in g && Startable(g[x])
  }

  predicate AllVerified(g: Nodes, s: set<Id>) {
    forall x {:trigger x in s} | x in s :: x in g && g[x].status.Verified?
  }

  /** Among the ancestors still to do, one waits for nothing but verified nodes, so it is ready. */
  lemma SomeReady(g: Nodes, node: Id, ancestors: set<Id>, remaining: set<Id>) returns (m: Id)
    requires Valid(g) && IsAncestors(g, node, ancestors) && remaining <= ancestors && remaining != {}
    requires AllStartable(g, remaining) && AllVerified(g, ancestors - remaining)
    ensures m in remaining && g[m].status.Ready?
  {
    hide Reaches, RuntimeOk, NodesOk, Cyclic;
    var d := EdgesOf(g);
    assert remaining <= d.Keys;
    m := MinimalMember(d, remaining);
    forall y | y in g[m].dependsOn ensures y in g && Settled(g[y].status) {
      assert y in d[m] && y in d;
      Step(d, m, y);
      Transitive(d, node, m, y);
      assert y in ancestors - remaining;
    }
    assert DepsSettled(g, g[m]);
    assert !g[m].status.Blocked?;
  }

  /** What stands between two turns of the loop. */
  ghost predicate Preparing(g: Nodes, h: Nodes, node: Id, ancestors: set<Id>, remaining: set<Id>) {
    && Valid(h) && OnlyPromoted(g, h, ancestors - remaining) && remaining <= ancestors
    && IsAncestors(h, node, ancestors)
    && AllVerified(h, ancestors - remaining) && AllStartable(g, ancestors - remaining)
  }

  lemma StepPreparing(g: Nodes, h: Nodes, k: Nodes, node: Id, ancestors: set<Id>, remaining: set<Id>, x: Id)
    requires Preparing(g, h, node, ancestors, remaining) && x in remaining && x in h && Startable(h[x])
    requires Valid(k) && OnlyPromoted(h, k, {x}) && x in k && k[x].status.Verified?
    ensures Preparing(g, k, node, ancestors, remaining - {x})
    ensures forall m | m in remaining && m != x && m in h && h[m].status.Ready? :: m in k && k[m] == h[m]
  {
    hide Valid, Reaches, IsAncestors;
    PromotedTwice(g, h, k, ancestors - remaining, {x});
    assert ancestors - remaining + {x} == ancestors - (remaining - {x});
    StillStartable(g, h, ancestors - remaining, x);
    assert EdgesOf(k) == EdgesOf(h);
    SameAncestors(h, k, node, ancestors);
    forall y | y in ancestors - (remaining - {x}) ensures y in k && k[y].status.Verified? {
      if y != x {
        assert y in ancestors - remaining;
        assert k[y] == h[y];
      }
    }
    forall y | y in ancestors - (remaining - {x}) ensures y in g && Startable(g[y]) {
      assert y == x || y in ancestors - remaining;
    }
  }

  /** Promotion does not decide whether a node can be started. */
  lemma StillStartable(g: Nodes, h: Nodes, touched: set<Id>, x: Id)
    requires OnlyPromoted(g, h, touched) && x in h && x !in touched
    ensures x in g && (Startable(h[x]) <==> Startable(g[x]))
  {
  }

  lemma SameAncestors(h: Nodes, k: Nodes, node: Id, ancestors: set<Id>)
    requires EdgesOf(k) == EdgesOf(h) && IsAncestors(h, node, ancestors)
    ensures IsAncestors(k, node, ancestors)
  {
  }

  /**
   * `_complete_ancestors`: it stops, and it raises exactly when some ancestor cannot be started to begin with.
   * An ancestor that is verified already is one: it is never ready, so it is never done with.
   */
  method CompleteAncestors(graph: Graph, node: Id, ancestors: set<Id>) returns (ok: bool)
    requires graph.Consistent() && IsAncestors(graph.nodes, node, ancestors)
    modifies graph`nodes
    ensures graph.Consistent() && graph.ids == old(graph.ids)
    ensures ok <==> AllStartable(old(graph.nodes), ancestors)
    ensures ok ==> OnlyPromoted(old(graph.nodes), graph.nodes, ancestors) && AllVerified(graph.nodes, ancestors)
  {
    hide Valid, Preparing, OnlyPromoted, IsAncestors, AllStartable, AllVerified;
    ghost var g := graph.nodes;
    var remaining := ancestors;
    BeginPreparing(g, node, ancestors);
    while remaining != {}
      invariant graph.Consistent() && graph.ids == old(graph.ids)
      invariant Preparing(g, graph.nodes, node, ancestors, remaining)
    {
      ghost var first: Option<Id> := ReadyIfAll(g, graph.nodes, node, ancestors, remaining);
      ghost var before := remaining;
      var progress := false;
      var todo := remaining;
      while todo != {}
        invariant graph.Consistent() && graph.ids == old(graph.ids)
        invariant Preparing(g, graph.nodes, node, ancestors, remaining)
        invariant todo <= remaining <= before
        invariant progress <==> remaining != before
        invariant first.Some? && !progress ==>
          first.value in todo && first.value in graph.nodes && graph.nodes[first.value].status.Ready?
        invariant first.None? ==> !AllStartable(g, ancestors)
        decreases todo
      {
        var x :| x in todo;
        todo := todo - {x};
        InGraph(g, graph.nodes, node, ancestors, remaining, x);
        if x in graph.nodes && graph.nodes[x].status.Ready? {
          ghost var h := graph.nodes;
          assert x !in ancestors - remaining;
          HalfwayStartable(g, h, node, ancestors, remaining, x);
          var done := CompleteNode(graph, x);
          if !done {
            return false;
          }
          StepPreparing(g, h, graph.nodes, node, ancestors, remaining, x);
          remaining := remaining - {x};
          progress := true;
        }
      }
      if !progress {
        return false;
      }
    }
    EndPreparing(g, graph.nodes, node, ancestors);
    return true;
  }

  lemma BeginPreparing(g: Nodes, node: Id, ancestors: set<Id>)
    requires Valid(g) && IsAncestors(g, node, ancestors)
    ensures Preparing(g, g, node, ancestors, ancestors)
  {
    hide Valid, IsAncestors;
  }

  lemma EndPreparing(g: Nodes, h: Nodes, node: Id, ancestors: set<Id>)
    requires Preparing(g, h, node, ancestors, {})
    ensures OnlyPromoted(g, h, ancestors) && AllVerified(h, ancestors) && AllStartable(g, ancestors)
  {
    assert ancestors - {} == ancestors;
  }

  lemma ReadyIfAll(g: Nodes, h: Nodes, node: Id, ancestors: set<Id>, remaining: set<Id>) returns (m: Option<Id>)
    requires Preparing(g, h, node, ancestors, remaining) && remaining != {}
    ensures m.Some? ==> m.value in remaining && m.value in h && h[m.value].status.Ready?
    ensures m.None? ==> !AllStartable(g, ancestors)
  {
    hide Valid, IsAncestors, OnlyPromoted;
    m := None;
    if AllStartable(g, ancestors) {
      forall y | y in remaining ensures y in h && Startable(h[y]) {
        InGraph(g, h, node, ancestors, remaining, y);
        StillStartable(g, h, ancestors - remaining, y);
      }
      var x := SomeReady(h, node, ancestors, remaining);
      m := Some(x);
    }
  }

  lemma InGraph(g: Nodes, h: Nodes, node: Id, ancestors: set<Id>, remaining: set<Id>, x: Id)
    requires Preparing(g, h, node, ancestors, remaining) && x in remaining
    ensures x in h
  {
    assert Reaches(EdgesOf(h), node, x);
    var _ := LastEdge(EdgesOf(h), node, x);
  }

  /** A ready node still to do was startable to begin with, unless its attempts are spent. */
  lemma HalfwayStartable(g: Nodes, h: Nodes, node: Id, ancestors: set<Id>, remaining: set<Id>, x: Id)
    requires Preparing(g, h, node, ancestors, remaining) && x in remaining && x in h && h[x].status.Ready?
    ensures h[x].attempts >= h[x].maxAttempts ==> !AllStartable(g, ancestors)
    ensures h[x].attempts < h[x].maxAttempts ==> Startable(h[x])
  {
    hide Valid, IsAncestors, OnlyPromoted;
    StillStartable(g, h, ancestors - remaining, x);
  }

  // ----- compare_case -----

  datatype Checks = Checks(invalidation: bool, unrelatedPreserved: bool, retryable: bool)

  /** The nodes that are neither the failing node, nor above it, nor below it. */
  predicate Unrelated(x: Id, node: Id, above: set<Id>, below: set<Id>) {
    x != node && x !in above && x !in below
  }

  lemma AncestorSet(g: Nodes, node: Id, list: seq<Id>)
    requires forall x :: x in list <==> Reaches(EdgesOf(g), node, x)
    ensures IsAncestors(g, node, Elements(list))
  {
    hide Reaches;
  }

  lemma AncestorsKnown(g: Nodes, node: Id, above: set<Id>)
    requires IsAncestors(g, node, above)
    ensures forall x | x in above :: x in g
  {
    forall x | x in above ensures x in g {
      var _ := LastEdge(EdgesOf(g), node, x);
    }
  }

  lemma FreshStatus(g: Nodes, x: Id)
    requires Initial(g) && x in g
    ensures (g[x].status.Blocked? || g[x].status.Ready?) && g[x].attempts == 0
  {
    hide Valid;
    assert FreshNode(g[x]);
  }

  /** Once everything above it is verified, the failing node is ready if it was not under way already. */
  lemma TargetReady(g: Nodes, h: Nodes, node: Id, above: set<Id>)
    requires Valid(h) && !Cyclic(EdgesOf(g)) && node in g && IsAncestors(g, node, above)
    requires OnlyPromoted(g, h, above) && AllVerified(h, above)
    ensures node in h && h[node].attempts == g[node].attempts && h[node].maxAttempts == g[node].maxAttempts
    ensures h[node].status.Ready? <==> g[node].status.Blocked? || g[node].status.Ready?
  {
    hide RuntimeOk, NodesOk, Reaches, Cyclic, FullyReviewed;
    NoSelfReach(g, node);
    assert node !in above;
    forall y | y in g[node].dependsOn && y in g ensures y in above {
      Step(EdgesOf(g), node, y);
    }
    DepsKnown(h, node);
    assert h[node].dependsOn == g[node].dependsOn;
    assert DepsSettled(h, h[node]);
  }

  lemma DepsKnown(g: Nodes, x: Id)
    requires Valid(g) && x in g
    ensures forall y | y in g[x].dependsOn :: y in g
  {
    hide RuntimeOk, NodesOk, Stable;
  }

  lemma FailPresented(g: Nodes, h: Nodes, k: Nodes, node: Id, above: set<Id>)
    requires OnlyPromoted(g, h, above) && OnlyPromoted(h, k, {node}) && node in k && Presented(k[node], node)
    requires AllVerified(h, above) && node in h && h[node].status.Ready?
    ensures AllVerified(k, above)
    ensures k.Keys == g.Keys && CanVerify(k, node, EvalFail(k[node], node)) && EvalFail(k[node], node).TextFits()
    ensures OnlyPromoted(g, k, above + {node}) && EdgesOf(k) == EdgesOf(g)
  {
    hide CanVerify, EvalFail, Presented;
    EvalFailAllowed(k, node);
    PromotedTwice(g, h, k, above, {node});
  }

  lemma NeverBoth(g: Nodes, node: Id, x: Id)
    requires !Cyclic(EdgesOf(g))
    ensures !(Reaches(EdgesOf(g), node, x) && Reaches(EdgesOf(g), x, node))
  {
    if Reaches(EdgesOf(g), node, x) && Reaches(EdgesOf(g), x, node) {
      Transitive(EdgesOf(g), node, x, node);
    }
  }

  /** The three checks, from the exact extent of the FAIL. */
  lemma FailKeepsUnrelated(g: Nodes, k: Nodes, final: Nodes, node: Id, above: set<Id>, below: seq<Id>,
    affected: seq<Id>)
    requires Valid(g) && Valid(k) && node in k && Presented(k[node], node)
    requires OnlyPromoted(g, k, above + {node}) && EdgesOf(k) == EdgesOf(g)
    requires IsAncestors(g, node, above) && AllVerified(k, above)
    requires forall x | x in g && Reaches(EdgesOf(g), x, node) :: x in below
    requires Accepted(k, Op.Verify(node, EvalFail(k[node], node), affected))
    requires final == After(k, Op.Verify(node, EvalFail(k[node], node), affected))
    ensures final.Keys == k.Keys && Valid(final)
    ensures forall x | x in k && Unrelated(x, node, above, Elements(below)) :: final[x] == k[x]
    ensures CanRetry(final, node) <==> k[node].attempts < k[node].maxAttempts
    ensures CanRetry(final, node) ==> RetriedReady(final, node)
  {
    hide Structure, RuntimeOk, Stable, Reaches, Initial, After, Accepted, Presented, OnlyPromoted, EvalFail,
      IsAncestors, EdgesOf;
    EvalBlames(k, node);
    AcyclicOf(g);
    PromotedKeys(g, k, above + {node});
    var op := Op.Verify(node, EvalFail(k[node], node), affected);
    FailIsExactAndLocal(k, op);
    KeepsValid(k, op);
    FailLists(k, op);
    FailKeepsLimits(k, op);
    forall x | x in affected ensures x in below {
      assert x in k && Reaches(EdgesOf(k), x, node);
    }
    AboveUntouched(g, k, final, node, above, affected);
  }

  lemma EvalBlames(k: Nodes, node: Id)
    requires node in k && Presented(k[node], node)
    ensures k[node].criteria != []
    ensures EvalFail(k[node], node).Blames(node) == node && EvalFail(k[node], node).result.Fail?
  {
  }

  lemma FailKeepsLimits(k: Nodes, op: Op)
    requires Valid(k) && Accepted(k, op) && IsFail(op) && op.j.Blames(op.id) == op.id
    ensures op.id in k && op.id in After(k, op) && After(k, op)[op.id].maxAttempts == k[op.id].maxAttempts
    ensures After(k, op)[op.id].dependsOn == k[op.id].dependsOn
  {
    hide Valid, Enabled, After, Reaches, Bounded;
    FailStatuses(k, op);
    FailNode(k, op, op.id);
  }

  /** Preparing and presenting the failing node fails nothing below it, and mends nothing. */
  lemma BelowAsBefore(g: Nodes, k: Nodes, node: Id, above: set<Id>, x: Id)
    requires !Cyclic(EdgesOf(g)) && OnlyPromoted(g, k, above + {node}) && IsAncestors(g, node, above)
    requires x in g && Reaches(EdgesOf(g), x, node)
    ensures x in k && (k[x].status.Failed? <==> g[x].status.Failed?)
  {
    hide Reaches, Cyclic;
    NeverBoth(g, node, x);
    NoSelfReach(g, node);
    assert x !in above + {node};
  }

  lemma {:induction false} SelectAll(s: seq<Id>, keep: set<Id>)
    ensures Select(s, keep) == s <==> forall x | x in s :: x in keep
    ensures |Select(s, keep)| <= |s|
  {
    if s != [] {
      SelectAll(s[1..], keep);
      assert s == [s[0]] + s[1..];
      assert s[0] in keep && Select(s, keep) == s ==> Select(s, keep)[1..] == s[1..];
    }
  }

  /** No node below the failing one is failed already. */
  ghost predicate NoneFailedBelow(g: Nodes, node: Id) {
    forall x {:trigger g[x]} | x in g && Reaches(EdgesOf(g), x, node) :: !g[x].status.Failed?
  }

  /** The two lists the comparison holds against each other are the same list exactly when nothing below had failed. */
  lemma ListsAgree(g: Nodes, k: Nodes, node: Id, above: set<Id>, below: seq<Id>)
    requires !Cyclic(EdgesOf(g)) && OnlyPromoted(g, k, above + {node}) && IsAncestors(g, node, above)
    requires EdgesOf(k) == EdgesOf(g) && below == DescendantsIn(EdgesOf(g), node)
    requires forall x :: x in below <==> x in g && Reaches(EdgesOf(g), x, node)
    ensures Downstream(k, node) == below <==> NoneFailedBelow(g, node)
  {
    hide Reaches, Cyclic, OnlyPromoted, IsAncestors, DescendantsIn, EdgesOf;
    var keep := set x | x in k && !k[x].status.Failed?;
    SelectAll(below, keep);
    forall x | x in below ensures x in g && (x in keep <==> !g[x].status.Failed?) {
      BelowAsBefore(g, k, node, above, x);
    }
  }

  ghost predicate RetriedReady(g: Nodes, x: Id)
    requires CanRetry(g, x)
  {
    var h := After(g, Op.Retry(x));
    x in h && h[x].status.Ready?
  }

  lemma AboveUntouched(g: Nodes, k: Nodes, final: Nodes, node: Id, above: set<Id>, affected: seq<Id>)
    requires Valid(k) && Valid(final) && !Cyclic(EdgesOf(g)) && EdgesOf(k) == EdgesOf(g) && node in k
    requires final.Keys == k.Keys && final[node].dependsOn == k[node].dependsOn
    requires IsAncestors(g, node, above) && AllVerified(k, above)
    requires forall x | x in affected :: Reaches(EdgesOf(g), x, node)
    requires forall x | x in k && x != node && x !in affected :: final[x] == k[x]
    ensures CanRetry(final, node) ==> RetriedReady(final, node)
  {
    hide Structure, RuntimeOk, Stable, Reaches, After;
    DepsKnown(k, node);
    forall y | y in final[node].dependsOn ensures y in final && Settled(final[y].status) {
      assert y in EdgesOf(k)[node];
      Step(EdgesOf(k), node, y);
      assert y in above;
      NeverBoth(g, node, y);
      assert y != node by { assert !Reaches(EdgesOf(g), node, node) by { NoSelfReach(g, node); } }
    }
    if CanRetry(final, node) {
      var op := Op.Retry(node);
      assert Accepted(final, op);
      StepSelf(final, op);
      assert DepsSettled(final, final[node]);
    }
  }

  /** What the comparison needs: all ancestors and the failing node can be started, and that node once more. */
  ghost predicate Comparable(g: Nodes, node: Id) {
    && (forall x {:trigger g[x]} | x in g && Reaches(EdgesOf(g), node, x) :: Startable(g[x]))
    && node in g && Startable(g[node]) && g[node].attempts + 1 < g[node].maxAttempts
  }

  lemma ComparableMeans(g: Nodes, node: Id, above: set<Id>)
    requires node in g && IsAncestors(g, node, above)
    ensures Comparable(g, node) <==>
      AllStartable(g, above) && Startable(g[node]) && g[node].attempts + 1 < g[node].maxAttempts
  {
    hide Reaches;
    AncestorsKnown(g, node, above);
  }

  /**
   * `compare_case` up to its three protocol checks, on any graph: it gets to its end exactly when the graph is
   * comparable. Then unrelated nodes are preserved and the failing node is retryable, and the lists agree
   * exactly when no dependent had failed beforehand.
   */
  method CompareCase(graph: Graph, node: Id) returns (ok: bool, checks: Checks)
    requires graph.Consistent() && node in graph.nodes
    modifies graph`nodes
    ensures ok <==> Comparable(old(graph.nodes), node)
    ensures ok ==> checks == Checks(NoneFailedBelow(old(graph.nodes), node), true, true)
  {
    hide Valid, IsAncestors, OnlyPromoted, AllStartable, AllVerified, Presented, EvalFail, After, Reaches, CanVerify,
      Comparable, NoneFailedBelow, Downstream, DescendantsIn, EdgesOf;
    checks := Checks(false, false, false);
    ghost var g := graph.nodes;
    AcyclicOf(g);
    var below := graph.DescendantsOf(node);
    var aboveList := graph.AncestorsOf(node);
    var above := Elements(aboveList);
    AncestorSet(g, node, aboveList);
    ComparableMeans(g, node, above);
    ok := CompleteAncestors(graph, node, above);
    if !ok {
      return;
    }
    ghost var h := graph.nodes;
    TargetReady(g, h, node, above);
    ok := Present(graph, node);
    if !ok {
      return;
    }
    ghost var k := graph.nodes;
    EvalBlames(k, node);
    FailPresented(g, h, k, node, above);
    ListsAgree(g, k, node, above, below);
    var before := graph.nodes;
    var verdict, affected := graph.Verify(node, EvalFail(graph.nodes[node], node));
    FailKeepsUnrelated(g, k, graph.nodes, node, above, below, affected);
    assert forall x :: Unrelated(x, node, above, Elements(below)) <==> x != node && x !in above && x !in below;
    var preserved := forall x | x in before.Keys && x != node && x !in above && x !in below ::
      x in graph.nodes && graph.nodes[x].status == before[x].status;
    var invalidation := affected == below;
    ok := graph.Retry(node);
    var retryable := ok && graph.nodes[node].status.Ready?;
    checks := Checks(invalidation, preserved, retryable);
  }

  /** A case as it is written down, every node fresh: only the failing node's ceiling matters, and every check holds. */
  lemma FreshCase(g: Nodes, node: Id)
    requires Initial(g) && node in g
    ensures Comparable(g, node) <==> g[node].maxAttempts >= 2
    ensures NoneFailedBelow(g, node)
  {
    hide Valid, FreshNode, Reaches;
    InitialSound(g);
    forall x | x in g ensures Startable(g[x]) && g[x].attempts == 0 && !g[x].status.Failed? {
      FreshStatus(g, x);
      assert SoundNode(g[x]);
    }
  }
}
