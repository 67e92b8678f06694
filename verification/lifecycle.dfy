/** What a node's record says along its life: laws of reachable graphs, on the fields themselves. */
module Lifecycle {
  import opened Basics
  import opened Dependencies
  import opened Records
  import opened Operations
  import opened Guards
  import opened Runs
  import opened TaskGraph
  import opened DoubtTrail
  import opened Advice

  // ----- what each status says of the record -----

  /** Nothing of an earlier attempt is left on a node that waits to be started. */
  predicate Blank(n: Node) {
    n.evidence == [] && n.review.None? && n.executor.None? && n.failureReason.None? && !n.submitted
  }

  /** The last entry of the failure history is what stopped the node, and its reason is that entry's. */
  predicate StoppedByItsLast(n: Node) {
    && n.failures != []
    && match n.failures[|n.failures| - 1]
       case VerificationFailure(_, _, reason, _, _, _, _) => n.status.Failed? && n.failureReason == Some(Stated(reason))
       case UpstreamInvalidation(upstream, _) => n.status.Invalidated? && n.failureReason == Some(Upstream(upstream))
  }

  predicate Orderly(n: Node) {
    match n.status
    case Blocked => Blank(n)
    case Ready => Blank(n)
    case Running => n.executor.Some? && n.review.None? && n.failureReason.None? && !n.submitted
    case Awaiting => n.executor.Some? && n.failureReason.None? && n.submitted
    case Verified => n.executor.Some? && n.failureReason.None? && n.submitted
    case Failed => StoppedByItsLast(n)
    case Invalidated => StoppedByItsLast(n)
    case Superseded => n.retired.Some? && n.retired.value.reduced.Some?
  }

  ghost predicate AllOrderly(g: Nodes) {
    forall x {:trigger Orderly(g[x])} | x in g :: Orderly(g[x])
  }

  lemma RewrittenOrderly(g: Nodes, op: Op)
    requires Valid(g) && Accepted(g, op) && !IsFail(op) && (op.id in g ==> Orderly(g[op.id]))
    ensures Orderly(Rewritten(g, op))
  {
    hide Structure, Stable, Bounded, PassGuards, EvidenceOk, Covered, Distinct, DepsSettled, FullyReviewed, SameActor;
    assert op.id in g ==> RuntimeNode(g, g[op.id]);
  }

  lemma PromotedOrderly(n: Node)
    ensures Orderly(n) && n.status.Blocked? ==> Orderly(n.(status := Ready))
  {
  }

  lemma FailedOrderly(g: Nodes, op: Op, x: Id)
    requires Valid(g) && Accepted(g, op) && IsFail(op) && x in g && Orderly(g[x])
    ensures x in After(g, op) && Orderly(After(g, op)[x])
  {
    hide Valid, Enabled, After, Reaches, Bounded;
    FailStatuses(g, op);
    FailNode(g, op, x);
  }

  lemma StepOrderly(g: Nodes, op: Op)
    requires Valid(g) && Accepted(g, op) && AllOrderly(g)
    ensures AllOrderly(After(g, op))
  {
    hide Valid, Enabled, After, Rewritten, Orderly;
    StepKeys(g, op);
    forall x | x in After(g, op) ensures Orderly(After(g, op)[x]) {
      assert x in g ==> Orderly(g[x]);
      if IsFail(op) {
        FailStatuses(g, op);
        FailedOrderly(g, op, x);
      } else if x == op.id {
        StepSelf(g, op);
        RewrittenOrderly(g, op);
        PromotedOrderly(Rewritten(g, op));
      } else {
        StepOther(g, op, x);
        PromotedOrderly(g[x]);
      }
    }
  }

  lemma {:induction false} RunOrderly(g: Nodes, ops: seq<Op>)
    requires Valid(g) && AllOrderly(g) && Run(g, ops)
    ensures AllOrderly(Final(g, ops))
    decreases |ops|
  {
    hide Valid, AllOrderly, Enabled, After;
    if ops != [] {
      KeepsValid(g, ops[0]);
      StepOrderly(g, ops[0]);
      RunOrderly(After(g, ops[0]), ops[1..]);
    }
  }

  lemma InitialOrderly(g: Nodes)
    requires Initial(g)
    ensures Valid(g) && AllOrderly(g)
  {
    hide Valid;
    forall x | x in g ensures Orderly(g[x]) {
      assert FreshNode(g[x]);
    }
  }

  /**
   * In every reachable graph: a blocked or ready node carries nothing of an earlier attempt; a running one has an
   * executor and no verdict; an awaiting or verified one its submission; a failed or invalidated one ends its failure
   * history with what stopped it; a superseded one its reason.
   */
  lemma ReachableOrderly(g: Nodes, x: Id)
    requires Reachable(g) && x in g
    ensures Orderly(g[x])
  {
    hide Valid, Orderly, Initial, Run, Final;
    var start: Nodes, ops: seq<Op> :| Initial(start) && Run(start, ops) && Final(start, ops) == g;
    InitialOrderly(start);
    RunOrderly(start, ops);
  }

  // ----- statuses and dependencies -----

  /** In a valid graph a blocked node waits for something, and one that is ready or beyond waits for nothing. */
  lemma StatusSaysWhatIsDone(g: Nodes, x: Id)
    requires Valid(g) && x in g
    ensures forall y | y in g[x].dependsOn :: y in g
    ensures var done := forall y | y in g[x].dependsOn && y in g :: g[y].status.Verified? || g[y].status.Superseded?;
      && (g[x].status.Blocked? ==> !done)
      && (g[x].status.Ready? || g[x].status.Running? || g[x].status.Awaiting? || g[x].status.Verified? ==> done)
  {
    hide NodesOk, Cyclic, FullyReviewed;
    assert RuntimeNode(g, g[x]);
  }

  // ----- what every accepted record is -----

  predicate Short(t: Text) {
    t.reduced.Some? && t.length <= 32768
  }

  /** The limits and texts of every node of a valid graph. */
  lemma RecordIsInOrder(g: Nodes, x: Id)
    requires Valid(g) && x in g
    ensures 1 <= |g| <= 1000 && !Reaches(EdgesOf(g), x, x)
    ensures var n := g[x];
      && Short(n.description) && Short(n.role) && n.context.sound
      && |n.dependsOn| <= 256 && 1 <= |n.criteria| <= 128
      && (forall i, j | 0 <= i < j < |n.dependsOn| :: n.dependsOn[i] != n.dependsOn[j])
      && (forall i, j | 0 <= i < j < |n.criteria| :: n.criteria[i] != n.criteria[j])
      && 0 <= n.attempts <= n.maxAttempts && 1 <= n.maxAttempts <= 20
      && |n.evidence| <= 512 && (forall e | e in n.evidence :: Short(e.kind) && Short(e.summary))
      && (n.executor.Some? ==> n.executor.value.reduced.Some?)
      && (n.failureReason.Some? && n.failureReason.value.Stated? ==> n.failureReason.value.text.reduced.Some?)
  {
    assert NodeOk(g[x]);
    AcyclicOf(g);
    NoSelfReach(g, x);
  }

  /** What a review says, of a node with these criteria, whichever its result. */
  predicate ReviewSays(r: Review, criteria: seq<Criterion>) {
    && Short(r.reviewer)
    && (r.reason.Some? ==> Short(r.reason.value)) && (r.recommendation.Some? ==> Short(r.recommendation.value))
    && (forall c | c in r.checked :: c in criteria) && (forall c | c in r.failed :: c in criteria)
    && (forall e | e in r.evidence :: e.criterion in criteria && Short(e.kind) && Short(e.summary))
    && |r.checked| <= 128 && |r.failed| <= 128 && |r.evidence| <= 512 && |r.affected| <= 1000
    && (forall i, j | 0 <= i < j < |r.checked| :: r.checked[i] != r.checked[j])
    && (forall i, j | 0 <= i < j < |r.failed| :: r.failed[i] != r.failed[j])
    && (forall i, j | 0 <= i < j < |r.affected| :: r.affected[i] != r.affected[j])
    && (r.result.Pass? ==> r.checked != [] && r.evidence != [])
    && (r.result.Uncertain? ==> r.reason.Some?)
    && (r.result.Fail? ==>
      && r.reason.Some? && r.faulty.Some? && r.recommendation.Some? && r.failed != []
      && r.faultyCriteria.Some? && 1 <= |r.faultyCriteria.value| <= 128
      && forall c | c in r.failed :: exists e :: e in r.evidence && e.criterion == c)
  }

  lemma ReviewMeans(r: Review, criteria: seq<Criterion>)
    requires ReviewOk(r, Elements(criteria))
    ensures ReviewSays(r, criteria)
  {
    hide SameActor;
    assert forall c :: c in Elements(criteria) <==> c in criteria;
    forall c | c in r.checked ensures c in criteria {
      assert c in Elements(r.checked);
    }
    forall c | c in r.failed ensures c in criteria {
      assert c in Elements(r.failed);
    }
    forall e | e in r.evidence ensures e.criterion in criteria {
      assert e.criterion in Covered(r.evidence);
    }
    if r.result.Fail? {
      forall c | c in r.failed ensures exists e :: e in r.evidence && e.criterion == c {
        assert c in Elements(r.failed);
        assert c in Covered(r.evidence);
      }
    }
  }

  /**
   * The reviews of every node of a valid graph: the live one in order and by somebody else than the executor, the
   * archived ones in order and in doubt.
   */
  lemma ReviewsAreInOrder(g: Nodes, x: Id)
    requires Valid(g) && x in g
    ensures var n := g[x];
      && (n.review.Some? ==> ReviewSays(n.review.value, n.criteria))
      && (n.review.Some? && n.executor.Some? ==> n.review.value.reviewer.reduced != n.executor.value.reduced)
      && |n.doubts| <= 512
      && (forall d | d in n.doubts :: ReviewSays(d.review, n.criteria) && d.review.result.Uncertain?)
      && (forall d | d in n.doubts :: d.context.sound && |d.evidence| <= 512)
  {
    hide ReviewSays, ReviewOk;
    var n := g[x];
    assert NodeOk(n);
    if n.review.Some? {
      ReviewMeans(n.review.value, n.criteria);
      ReviewerNamed(n.review.value, n.criteria);
    }
    forall d | d in n.doubts ensures ReviewSays(d.review, n.criteria) && d.review.result.Uncertain? {
      assert DoubtOk(d, Elements(n.criteria));
      ReviewMeans(d.review, n.criteria);
    }
  }

  lemma ReviewerNamed(r: Review, criteria: seq<Criterion>)
    requires ReviewOk(r, Elements(criteria))
    ensures r.reviewer.reduced.Some?
  {
  }

  // ----- what each operation writes -----

  /** A retry files the attempt away whole, and the node starts over with its plan, its budget and its history. */
  lemma RetryTurnsOver(g: Nodes, op: Op)
    requires Valid(g) && Accepted(g, op) && op.Retry?
    ensures op.id in g && op.id in After(g, op)
    ensures var n, m := g[op.id], After(g, op)[op.id];
      && m.archive == n.archive + [Attempt(n.attempts, n.evidence, n.review, n.failureReason)]
      && m.evidence == [] && m.review.None? && m.executor.None? && m.failureReason.None? && !m.submitted
      && (m.status.Ready? || m.status.Blocked?)
      && (m.status.Ready? <==>
            forall y | y in n.dependsOn && y in g :: g[y].status.Verified? || g[y].status.Superseded?)
      && m.(archive := n.archive, evidence := n.evidence, review := n.review, executor := n.executor,
           failureReason := n.failureReason, submitted := n.submitted, status := n.status) == n
  {
    hide NodesOk, Cyclic, RuntimeOk, Stable;
    DepsAreKnown(g, op.id);
  }

  lemma DepsAreKnown(g: Nodes, x: Id)
    requires Valid(g) && x in g
    ensures forall y | y in g[x].dependsOn :: y in g && y != x
  {
    hide NodesOk, Cyclic, RuntimeOk, Stable;
  }

  /** A start takes one attempt and an executor: the one named, or the node's own role. */
  lemma StartTakesAnAttempt(g: Nodes, op: Op)
    requires Valid(g) && Accepted(g, op) && op.Start?
    ensures op.id in g && op.id in After(g, op) && g[op.id].status.Ready? && g[op.id].attempts < g[op.id].maxAttempts
    ensures var n, m := g[op.id], After(g, op)[op.id];
      && m.status.Running? && m.attempts == n.attempts + 1 && m.review.None? && m.failureReason.None?
      && (op.named.Some? && op.named.value.length > 0 ==> m.executor == op.named)
      && (op.named.None? || op.named.value.length == 0 ==> m.executor == Some(n.role))
      && m.(status := n.status, attempts := n.attempts, executor := n.executor, review := n.review,
           failureReason := n.failureReason) == n
  {
    hide Valid, DepsSettled;
  }

  /** A submission is what the reviewer will see, and nothing else of the record moves. */
  lemma SubmissionIsOnRecord(g: Nodes, op: Op)
    requires Valid(g) && Accepted(g, op) && op.Submit?
    ensures op.id in g && op.id in After(g, op) && g[op.id].status.Running?
    ensures forall e | e in op.evidence :: e.criterion in g[op.id].criteria
    ensures var n, m := g[op.id], After(g, op)[op.id];
      && m.status.Awaiting? && m.evidence == op.evidence && m.context == op.context && m.submitted
      && m.(status := n.status, evidence := n.evidence, context := n.context, submitted := n.submitted) == n
  {
    hide Valid, DepsSettled, SameActor;
    assert forall e | e in op.evidence :: e.criterion in Covered(op.evidence);
  }

  /** Standing doubt about a submission is archived with it, by a withdrawal and by every later verdict. */
  lemma DoubtIsArchived(g: Nodes, op: Op)
    requires Valid(g) && Accepted(g, op) && (op.Withdraw? || op.Verify?)
    ensures op.id in g && op.id in After(g, op)
    ensures var n, m := g[op.id], After(g, op)[op.id];
      m.doubts == if n.review.Some? && n.review.value.result.Uncertain? && n.submitted
        then Bounded(n.doubts + [Doubt(n.review.value, n.evidence, n.context)]) else n.doubts
    ensures op.Withdraw? ==> After(g, op)[op.id].status.Running? && After(g, op)[op.id].review.None?
    ensures op.Withdraw? ==> After(g, op)[op.id].evidence == g[op.id].evidence && !After(g, op)[op.id].submitted
  {
    hide Structure, Stable, Reaches, Bounded, AffectedBy, After, FailGuards, PassGuards, DepsSettled, FullyReviewed;
    assert RuntimeNode(g, g[op.id]);
    if IsFail(op) {
      FailStatuses(g, op);
      FailNode(g, op, op.id);
    } else {
      StepSelf(g, op);
    }
  }

  /** A verdict that passes makes the node verified; one in doubt leaves it awaiting; neither touches its submission. */
  lemma VerdictDecides(g: Nodes, op: Op)
    requires Valid(g) && Accepted(g, op) && op.Verify? && !op.j.result.Fail?
    ensures op.id in g && op.id in After(g, op) && g[op.id].status.Awaiting?
    ensures var n, m := g[op.id], After(g, op)[op.id];
      && (if op.j.result.Pass? then m.status.Verified? && m.failureReason.None? else m.status.Awaiting?)
      && m.(status := n.status, failureReason := n.failureReason, review := n.review, doubts := n.doubts) == n
      && (op.j.result.Uncertain? ==> m.failureReason == n.failureReason)
  {
    hide Valid, Reaches, Bounded, PassGuards, After;
    StepSelf(g, op);
  }

  /** A retirement changes a status and leaves a reason. */
  lemma RetirementIsOnRecord(g: Nodes, op: Op)
    requires Valid(g) && Accepted(g, op) && op.Supersede?
    ensures op.id in g && op.id in After(g, op) && !g[op.id].status.Verified? && !g[op.id].status.Superseded?
    ensures var n, m := g[op.id], After(g, op)[op.id];
      m.status.Superseded? && m.retired == Some(op.why) && m.(status := n.status, retired := n.retired) == n
  {
    hide Valid, DepsSettled;
  }

  /** A node is planned as it is asked for: nothing done on it, and ready or blocked. */
  lemma AddedAsPlanned(g: Nodes, id: Id, description: Text, deps: seq<Id>, role: Text, criteria: seq<Criterion>,
    max: int)
    requires Valid(g) && Accepted(g, AddNode(id, Fresh(description, deps, role, criteria, max)))
    ensures var h := After(g, AddNode(id, Fresh(description, deps, role, criteria, max)));
      && id !in g && id in h
      && var m := h[id];
      && (m.status.Ready? || m.status.Blocked?) && Blank(m) && m.attempts == 0 && m.retired.None?
      && m.failures == [] && m.archive == [] && m.doubts == [] && m.grants == []
      && m.description == description && m.dependsOn == deps && m.role == role && m.criteria == criteria
      && m.maxAttempts == max
  {
    hide Valid, Accepts, DepsSettled;
  }

  // ----- the plan, and the ledger of grants -----

  /** No operation changes what a node is for, what it needs, or what it must meet. */
  predicate SamePlan(n: Node, m: Node) {
    n.description == m.description && n.dependsOn == m.dependsOn && n.role == m.role && n.criteria == m.criteria
  }

  /** What the ceiling would be without the grants. */
  function Planned(n: Node): int {
    n.maxAttempts - |n.grants|
  }

  lemma RewrittenPlan(g: Nodes, op: Op)
    requires Accepted(g, op) && !IsFail(op) && op.id in g
    ensures SamePlan(g[op.id], Rewritten(g, op)) && Planned(Rewritten(g, op)) == Planned(g[op.id])
  {
    hide Accepts, Bounded, PassGuards, EvidenceOk, Covered, SameActor;
  }

  lemma StepPlan(g: Nodes, op: Op, x: Id)
    requires Valid(g) && Accepted(g, op) && x in g
    ensures x in After(g, op) && SamePlan(g[x], After(g, op)[x]) && Planned(After(g, op)[x]) == Planned(g[x])
  {
    hide Valid, Enabled, After, Rewritten, Reaches, Bounded;
    if IsFail(op) {
      FailStatuses(g, op);
      FailNode(g, op, x);
    } else if x == op.id {
      StepSelf(g, op);
      RewrittenPlan(g, op);
    } else {
      StepOther(g, op, x);
    }
  }

  /** Over every run a node keeps its plan, and its ceiling rises by one with each grant on its record only. */
  lemma {:induction false} RunKeepsThePlan(g: Nodes, ops: seq<Op>, x: Id)
    requires Valid(g) && Run(g, ops) && x in g
    ensures x in Final(g, ops) && SamePlan(g[x], Final(g, ops)[x])
    ensures Final(g, ops)[x].maxAttempts - |Final(g, ops)[x].grants| == g[x].maxAttempts - |g[x].grants|
    decreases |ops|
  {
    hide Valid, Enabled, After;
    if ops != [] {
      KeepsValid(g, ops[0]);
      StepPlan(g, ops[0], x);
      RunKeepsThePlan(After(g, ops[0]), ops[1..], x);
    }
  }

  /** A grant raises the ceiling by one, up to twenty, and is signed; the attempts spent stay spent. */
  lemma GrantIsSigned(g: Nodes, op: Op)
    requires Valid(g) && Accepted(g, op) && op.GrantAttempt?
    ensures op.id in g && op.id in After(g, op) && (g[op.id].status.Failed? || g[op.id].status.Invalidated?)
    ensures var n, m := g[op.id], After(g, op)[op.id];
      && m.maxAttempts == n.maxAttempts + 1 <= 20 && m.attempts == n.attempts && m.status == n.status
      && m.grants == n.grants + [Grant(op.grantor, op.why, n.attempts)]
      && m.(maxAttempts := n.maxAttempts, grants := n.grants) == n
  {
    hide Valid, DepsSettled;
  }

  // ----- the advice is exact -----

  lemma FirstPending(g: Nodes, deps: seq<Id>, x: Id)
    requires deps != []
    ensures var first := if deps[0] in g && Settled(g[deps[0]].status) then [] else [deps[0]];
      && PendingOf(g, deps) == first + PendingOf(g, deps[1..])
      && PendingOf(g, deps + [x]) == first + PendingOf(g, deps[1..] + [x])
  {
    hide Settled;
    assert (deps + [x])[0] == deps[0] && (deps + [x])[1..] == deps[1..] + [x];
  }

  /** What a blocked node is told to wait for: its unfinished dependencies, each once, in the order of its list. */
  lemma {:induction false} PendingInOrder(g: Nodes, deps: seq<Id>, x: Id)
    ensures PendingOf(g, []) == []
    ensures PendingOf(g, deps + [x]) ==
      PendingOf(g, deps) + if x in g && (g[x].status.Verified? || g[x].status.Superseded?) then [] else [x]
  {
    if deps == [] {
      assert [] + [x] == [x] && [x][1..] == [];
    } else {
      PendingInOrder(g, deps[1..], x);
      FirstPending(g, deps, x);
    }
  }

  /** The action named is the one that can be taken: each exactly when its guard passes. */
  lemma AdviceIsExact(g: Nodes, x: Id)
    requires Valid(g) && Sound(g) && x in g
    ensures Next(g, g[x]) == DoRetry <==> CanRetry(g, x)
    ensures Next(g, g[x]) == DoStart <==> CanStart(g, x, None)
    ensures Next(g, g[x]) == DoSubmit <==> CanSubmit(g, x, [], None, Context([], true))
    ensures Next(g, g[x]) == DoWithdraw <==> exists who :: CanWithdraw(g, x, who)
    ensures Next(g, g[x]) == DoVerify <==> g[x].status.Awaiting? && !exists who :: CanWithdraw(g, x, who)
    ensures Next(g, g[x]) == Escalate <==> (g[x].status.Failed? || g[x].status.Invalidated?) && !CanRetry(g, x)
    ensures Next(g, g[x]) == NoAction <==> g[x].status.Verified? || g[x].status.Superseded?
    ensures Next(g, g[x]).WaitFor? <==> g[x].status.Blocked?
    ensures Next(g, g[x]).WaitFor? ==> forall y :: y in Next(g, g[x]).pending <==>
      y in g[x].dependsOn && y in g && !g[y].status.Verified? && !g[y].status.Superseded?
  {
    hide Structure, Stable, FullyReviewed, DepsSettled;
    var n := g[x];
    assert RuntimeNode(g, n) && SoundNode(n);
    RoleNamed(g, x);
    DepsAreKnown(g, x);
    assert Covered([]) == {};
    if n.status.Awaiting? && n.review.Some? {
      assert CanWithdraw(g, x, n.executor.value);
    }
  }
}
