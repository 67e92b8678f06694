/** An operation's own checks suffice for everything its trailing `validate` demands. */
module Guards {
  import opened Basics
  import opened Dependencies
  import opened Records
  import opened Operations

  lemma LocalStructure(g: Nodes, id: Id, n: Node)
    requires Structure(g) && id in g && n.dependsOn == g[id].dependsOn && NodeOk(n)
    ensures Structure(g[id := n])
  {
    hide Cyclic, NodeOk;
    var h := g[id := n];
    assert EdgesOf(h) == EdgesOf(g);
    assert h.Keys == g.Keys;
    assert |h| == |h.Keys| == |g.Keys|;
  }

  /** Statuses only gained: dependencies that were settled still are. */
  lemma LocalRuntime(g: Nodes, id: Id, n: Node, m: Node)
    requires id in g && RuntimeNode(g, m)
    requires Settled(g[id].status) ==> Settled(n.status)
    ensures RuntimeNode(Promote(g[id := n]), Promoted(g[id := n], m))
  {
    hide FullyReviewed;
    var h := g[id := n];
    PromoteSettles(h, m);
    assert DepsSettled(g, m) ==> DepsSettled(h, m);
    assert FullyReviewed(m) ==> Promoted(h, m) == m || !m.status.Verified?;
  }

  /** Rewriting one record, when no settled status is lost, is accepted if that record is in order. */
  lemma LocalChange(g: Nodes, id: Id, n: Node)
    requires Valid(g) && id in g && n.dependsOn == g[id].dependsOn
    requires NodeOk(n) && RuntimeNode(g, n)
    requires Settled(g[id].status) ==> Settled(n.status)
    ensures Accepts(g[id := n])
  {
    hide Structure, RuntimeNode, Stable, Promoted;
    LocalStructure(g, id, n);
    var h := g[id := n];
    forall x | x in h ensures RuntimeNode(Promote(h), Promote(h)[x]) {
      LocalRuntime(g, id, n, h[x]);
    }
  }

  lemma ArchivedDoubts(n: Node)
    requires NodeOk(n) && Doubtful(n)
    ensures DoubtsOk(Archived(n).doubts, Elements(n.criteria))
  {
    hide Bounded, ReviewOk;
    KeptDoubts(n.doubts, DoubtOf(n), Elements(n.criteria));
  }

  lemma KeptDoubts(log: seq<Doubt>, d: Doubt, criteria: set<Criterion>)
    requires DoubtsOk(log, criteria) && DoubtOk(d, criteria)
    ensures DoubtsOk(Bounded(log + [d]), criteria)
  {
    hide Bounded, DoubtOk;
    var kept := Bounded(log + [d]);
    forall e | e in kept ensures DoubtOk(e, criteria) {
      assert e in log + [d];
    }
  }

  /** A verdict's record is in order exactly when its text is. */
  lemma ReviewRecord(g: Nodes, id: Id, j: Judgement, affected: seq<Id>)
    requires Valid(g) && CanVerify(g, id, j)
    requires if j.result.Fail? then Distinct(affected) && |affected| <= MAX_NODES else affected == []
    ensures ReviewOk(ReviewOf(id, j, affected), Elements(g[id].criteria)) <==> j.TextFits()
  {
    hide Reaches, Cyclic, RuntimeOk, Known, Stable;
    var n := g[id];
    assert NodeOk(n);
    ListLength(j.Checked(), n.criteria);
    ListLength(j.failed, n.criteria);
    var r := ReviewOf(id, j, affected);
    if j.result.Pass? {
      NonEmptyCover(n.criteria, j.Checked(), j.Items());
    }
    if j.result.Fail? {
      ListLength(j.BlamedCriteria(id), g[j.Blames(id)].criteria);
    }
  }

  lemma ListLength(s: seq<Criterion>, criteria: seq<Criterion>)
    requires Distinct(s) && Distinct(criteria) && Elements(s) <= Elements(criteria)
    ensures |s| <= |criteria|
  {
    DistinctCardinality(s);
    DistinctCardinality(criteria);
    SubsetCardinality(Elements(s), Elements(criteria));
  }

  lemma NonEmptyCover(criteria: seq<Criterion>, checked: seq<Criterion>, items: seq<Evidence>)
    requires criteria != [] && Elements(checked) == Elements(criteria) == Covered(items)
    ensures checked != [] && items != []
  {
    assert criteria[0] in Elements(criteria);
    assert criteria[0] in Elements(checked);
    assert criteria[0] in Covered(items);
  }

  lemma WithReviewOk(g: Nodes, id: Id, j: Judgement, affected: seq<Id>)
    requires Valid(g) && CanVerify(g, id, j)
    requires if j.result.Fail? then Distinct(affected) && |affected| <= MAX_NODES else affected == []
    ensures NodeOk(WithReview(g[id], ReviewOf(id, j, affected))) <==> j.TextFits()
  {
    hide Reaches, Cyclic, RuntimeOk, Known, Stable, ReviewOk, EvidenceOk, Distinct, Elements, DoubtsOk, Bounded;
    assert NodeOk(g[id]);
    ReviewRecord(g, id, j, affected);
    if Doubtful(g[id]) {
      ArchivedDoubts(g[id]);
    }
  }

  lemma SubmittedCovers(g: Nodes, op: Op)
    requires Valid(g) && Enabled(g, op) && op.Verify? && op.j.result.Pass?
    ensures FullyReviewed(Passed(g[op.id], ReviewOf(op.id, op.j, [])))
  {
    hide Reaches, Cyclic, RuntimeOk, Known, Stable, ReviewOk, DoubtsOk, Bounded;
    assert NodeOk(g[op.id]);
    NonEmptyCover(g[op.id].criteria, op.j.Checked(), g[op.id].evidence);
  }

  lemma VerdictRecordOk(g: Nodes, op: Op)
    requires Valid(g) && Enabled(g, op) && op.Verify? && !IsFail(op)
    ensures NodeOk(Rewritten(g, op)) <==> TextFits(op)
    ensures RuntimeNode(g, Rewritten(g, op))
  {
    hide Reaches, Cyclic, Known, FullyReviewed, Stable, EvidenceOk, PassGuards, ReviewOk, DoubtsOk, Bounded, Distinct,
      Elements;
    assert RuntimeNode(g, g[op.id]);
    WithReviewOk(g, op.id, op.j, []);
    if op.j.result.Pass? {
      SubmittedCovers(g, op);
    }
  }

  lemma PlainRecordOk(g: Nodes, op: Op)
    requires Valid(g) && Enabled(g, op) && !op.Verify? && !op.AddNode?
    ensures NodeOk(Rewritten(g, op))
    ensures RuntimeNode(g, Rewritten(g, op))
  {
    hide Reaches, Cyclic, Known, ReviewOk, DoubtsOk, Bounded, FullyReviewed, Distinct, Elements, Stable, CanVerify;
    var n := g[op.id];
    assert NodeOk(n) && RuntimeNode(g, n);
    if op.Withdraw? {
      ArchivedDoubts(n);
    }
  }

  /** Every operation but a FAIL: its rewritten record passes every check, given the text. */
  lemma RewrittenOk(g: Nodes, op: Op)
    requires Valid(g) && Enabled(g, op) && !IsFail(op) && !op.AddNode?
    ensures op.id in g
    ensures NodeOk(Rewritten(g, op)) <==> TextFits(op)
    ensures RuntimeNode(g, Rewritten(g, op))
    ensures Rewritten(g, op).dependsOn == g[op.id].dependsOn
    ensures Settled(g[op.id].status) ==> Settled(Rewritten(g, op).status)
  {
    hide NodeOk, RuntimeNode, Valid;
    RewrittenFrame(g, op);
    if op.Verify? {
      VerdictRecordOk(g, op);
    } else {
      PlainRecordOk(g, op);
    }
  }

  lemma RewrittenFrame(g: Nodes, op: Op)
    requires Enabled(g, op) && !IsFail(op) && !op.AddNode?
    ensures op.id in g
    ensures Rewritten(g, op).dependsOn == g[op.id].dependsOn
    ensures Settled(g[op.id].status) ==> Settled(Rewritten(g, op).status)
  {
  }

  lemma AffectedLength(g: Nodes, f: Id, affected: seq<Id>)
    requires |g| <= MAX_NODES && AffectedBy(g, f, affected)
    ensures |affected| <= MAX_NODES
  {
    hide Reaches, InDependencyOrder;
    BoundedList(affected, g.Keys);
    assert |g.Keys| == |g|;
  }

  /** Nothing a node outside the blast radius depends on is inside it. */
  lemma OutsideIsClosed(g: Nodes, f: Id, x: Id, y: Id)
    requires Valid(g) && x in g && f in g && y in g[x].dependsOn
    requires x != f && !Reaches(EdgesOf(g), x, f)
    ensures y in g && y != f && !Reaches(EdgesOf(g), y, f)
  {
    Step(EdgesOf(g), x, y);
    if Reaches(EdgesOf(g), y, f) {
      Transitive(EdgesOf(g), x, y, f);
    }
  }

  lemma DiscardedOk(n: Node, f: Id)
    requires NodeOk(n)
    ensures NodeOk(Discarded(n, f))
  {
    hide ReviewOk, DoubtsOk, EvidenceOk, Distinct, Elements;
  }

  lemma BlamedOk(n: Node, id: Id, f: Id, j: Judgement, affected: seq<Id>)
    requires NodeOk(n) && HasReason(j)
    requires f == id ==> NodeOk(WithReview(n, ReviewOf(id, j, affected)))
    ensures NodeOk(Blamed(n, id, f, j, affected))
  {
    hide ReviewOk, DoubtsOk, EvidenceOk, Distinct, Elements, Bounded;
  }

  lemma FailedRecordOk(g: Nodes, op: Op, x: Id)
    requires Valid(g) && Accepted(g, op) && IsFail(op) && x in g
    ensures NodeOk(Mutated(g, op)[x]) && Mutated(g, op)[x].dependsOn == g[x].dependsOn
  {
    hide Reaches, Cyclic, Known, Stable, InDependencyOrder, NodeOk, RuntimeOk, Covered, Distinct, Elements, EvidenceOk;
    var f := op.j.Blames(op.id);
    AffectedLength(g, f, op.affected);
    var r := ReviewOf(op.id, op.j, op.affected);
    WithReviewOk(g, op.id, op.j, op.affected);
    if x == f {
      BlamedOk(g[x], op.id, f, op.j, op.affected);
    } else {
      DiscardedOk(if x == op.id then WithReview(g[x], r) else g[x], f);
    }
  }

  /** The status a FAIL leaves, node by node. */
  lemma FailedStatus(g: Nodes, op: Op, x: Id)
    requires Enabled(g, op) && IsFail(op) && x in g
    ensures x in Mutated(g, op)
    ensures var f := op.j.Blames(op.id);
      var s := Mutated(g, op)[x].status;
      if x == f then s.Failed?
      else if Reaches(EdgesOf(g), x, f) then s == (if g[x].status.Failed? then Failed else Invalidated)
      else Mutated(g, op)[x] == g[x]
  {
    hide Reaches, InDependencyOrder, AffectedBy, ReviewerGuards, Bounded;
  }

  lemma FailedRuntime(g: Nodes, op: Op, x: Id)
    requires Valid(g) && Enabled(g, op) && IsFail(op) && x in g
    ensures RuntimeNode(Mutated(g, op), Mutated(g, op)[x])
    ensures Mutated(g, op)[x].status.Blocked? ==> !DepsSettled(Mutated(g, op), Mutated(g, op)[x])
  {
    hide Reaches, Structure, FullyReviewed, AfterFail, Mutated, AffectedBy, ReviewerGuards;
    var f := op.j.Blames(op.id);
    var h := Mutated(g, op);
    assert RuntimeNode(g, g[x]);
    FailedStatus(g, op, x);
    if x != f && !Reaches(EdgesOf(g), x, f) {
      forall y | y in g[x].dependsOn ensures y in h && y in g && h[y] == g[y] {
        OutsideIsClosed(g, f, x, y);
        FailedStatus(g, op, y);
      }
      SameDeps(g, h, g[x]);
    }
  }

  lemma SameDeps(g: Nodes, h: Nodes, n: Node)
    requires forall y | y in n.dependsOn :: y in g && y in h && h[y].status == g[y].status
    ensures DepsSettled(h, n) <==> DepsSettled(g, n)
  {
  }

  lemma FailAccepted(g: Nodes, op: Op)
    requires Valid(g) && Accepted(g, op) && IsFail(op)
    ensures Accepts(Mutated(g, op)) && Promote(Mutated(g, op)) == Mutated(g, op)
  {
    hide Cyclic, NodeOk, RuntimeNode, DepsSettled, Enabled, AfterFail;
    var h := Mutated(g, op);
    assert h.Keys == g.Keys by { FailKeys(g, op); }
    forall x | x in g
      ensures NodeOk(h[x]) && h[x].dependsOn == g[x].dependsOn && RuntimeNode(h, h[x])
      ensures h[x].status.Blocked? ==> !DepsSettled(h, h[x])
    {
      FailedRecordOk(g, op, x);
      FailedRuntime(g, op, x);
    }
    assert EdgesOf(h) == EdgesOf(g);
    assert |h| == |h.Keys| == |g.Keys|;
    StablePromotes(h);
  }

  lemma FailKeys(g: Nodes, op: Op)
    requires Enabled(g, op) && IsFail(op)
    ensures Mutated(g, op).Keys == g.Keys
  {
  }

  lemma FailWithBadText(g: Nodes, op: Op)
    requires Valid(g) && Enabled(g, op) && IsFail(op) && !TextFits(op)
    ensures !Structure(Mutated(g, op))
  {
    hide Reaches, Cyclic, Known, Stable, InDependencyOrder, ReviewOk, DoubtsOk, EvidenceOk, FullyReviewed, RuntimeOk;
    var f := op.j.Blames(op.id);
    AffectedLength(g, f, op.affected);
    ReviewRecord(g, op.id, op.j, op.affected);
    var n := Mutated(g, op)[op.id];
    assert g[op.id].status.Awaiting?;
    assert n.review == Some(ReviewOf(op.id, op.j, op.affected));
    assert n.criteria == g[op.id].criteria;
    assert !NodeOk(n);
  }

  /**
   * The trailing `validate` accepts exactly when no label or sentence of a verdict is blank or over the
   * limit; every other operation's own checks are enough on their own.
   */
  lemma TrailingValidate(g: Nodes, op: Op)
    requires Valid(g) && Enabled(g, op)
    ensures Accepts(Mutated(g, op)) <==> TextFits(op)
    ensures Structure(Mutated(g, op)) <==> TextFits(op)
  {
    hide Cyclic, NodeOk, RuntimeNode, Enabled, AfterFail, Rewritten, RuntimeOk, Known, Stable;
    if IsFail(op) {
      if TextFits(op) { FailAccepted(g, op); } else { FailWithBadText(g, op); }
    } else if op.AddNode? {
      AddedAccepted(g, op);
    } else {
      RewrittenOk(g, op);
      if TextFits(op) {
        LocalChange(g, op.id, Rewritten(g, op));
      } else {
        assert Mutated(g, op)[op.id] == Rewritten(g, op);
      }
    }
  }

  lemma AddedAccepted(g: Nodes, op: Op)
    requires Enabled(g, op) && op.AddNode?
    ensures Accepts(Mutated(g, op)) && TextFits(op)
  {
  }

  /** No accepted operation leaves the standing invariant. */
  lemma KeepsValid(g: Nodes, op: Op)
    requires Valid(g) && Accepted(g, op)
    ensures Valid(After(g, op))
  {
    hide Accepts, Valid, Enabled, Mutated;
    TrailingValidate(g, op);
    AcceptedIsValid(Mutated(g, op));
  }
}
