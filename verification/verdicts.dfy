/** What a verdict does and who may give it, said of the verdict's own fields and of the labels as they reduce. */
module Verdicts {
  import opened Basics
  import opened Dependencies
  import opened Records
  import opened Operations
  import opened Guards
  import opened Runs
  import opened TaskGraph
  import opened Advice
  import opened Completion

  // ----- which node a FAIL strikes -----

  /**
   * A FAIL that names a node fails that node, which is the reviewed one or a verified ancestor of it, and then the
   * reviewed one is invalidated with its attempt back. A FAIL that names none fails the reviewed node. The list is
   * the dependents of the failed node that were not failed, and everything beside it and them is untouched.
   */
  lemma FailStrikesTheNamed(g: Nodes, op: Op)
    requires Valid(g) && Accepted(g, op) && IsFail(op)
    ensures var f, h := (match op.j.faulty case Some(a) => a case None => op.id), After(g, op);
      && f in g && op.id in g && h.Keys == g.Keys
      && h[f].status.Failed? && h[f].attempts == g[f].attempts
      && (f != op.id ==> Reaches(EdgesOf(g), op.id, f) && g[f].status.Verified?)
      && (f != op.id ==> h[op.id].status.Invalidated? && h[op.id].attempts == g[op.id].attempts - 1)
      && (forall i, j | 0 <= i < j < |op.affected| ::
            op.affected[i] != op.affected[j] && !Reaches(EdgesOf(g), op.affected[i], op.affected[j]))
      && (forall x :: x in op.affected <==> x in g && Reaches(EdgesOf(g), x, f) && !g[x].status.Failed?)
      && (forall x | x in op.affected && x in g ::
            h[x].status.Invalidated? &&
            h[x].attempts == g[x].attempts -
              (if g[x].status.Running? || g[x].status.Awaiting? || g[x].status.Verified? then 1 else 0))
      && (forall x | x in g && x != f && x !in op.affected :: h[x] == g[x])
  {
    hide Valid, Accepted, AffectedBy, Reaches, After, InDependencyOrder, Distinct;
    FailIsExactAndLocal(g, op);
    FailStatuses(g, op);
    FailLists(g, op);
    AffectedInOrder(g, op.j.Blames(op.id), op.affected);
  }

  lemma AffectedInOrder(g: Nodes, f: Id, affected: seq<Id>)
    requires AffectedBy(g, f, affected)
    ensures forall i, j | 0 <= i < j < |affected| ::
      affected[i] != affected[j] && !Reaches(EdgesOf(g), affected[i], affected[j])
  {
    hide Reaches;
  }

  /** What the failed node's record gains, and what it keeps. */
  lemma FailIsOnRecord(g: Nodes, op: Op)
    requires Valid(g) && Accepted(g, op) && IsFail(op)
    ensures var f := match op.j.faulty case Some(a) => a case None => op.id;
      f in g && f in After(g, op) && op.j.reason.Some?
    ensures var f := match op.j.faulty case Some(a) => a case None => op.id;
      var m := After(g, op)[f];
      var criteria := if f == op.id && op.j.faultyCriteria == [] then op.j.failed else op.j.faultyCriteria;
      && m.failureReason == Some(Stated(op.j.reason.value))
      && m.failures == g[f].failures + [VerificationFailure(op.id, g[f].attempts, op.j.reason.value, op.j.failed,
           criteria, op.j.reviewer, op.affected)]
      && (f != op.id ==> m.review.None? && m.doubts == g[f].doubts)
      && m.(status := g[f].status, failureReason := g[f].failureReason, failures := g[f].failures,
           review := g[f].review, doubts := g[f].doubts) == g[f]
  {
    hide Valid, Accepted, Reaches, Bounded;
    FailStatuses(g, op);
    FailNode(g, op, op.j.Blames(op.id));
  }

  /** What a discarded dependent's record gains, and what it keeps. */
  lemma DiscardIsOnRecord(g: Nodes, op: Op, x: Id)
    requires Valid(g) && Accepted(g, op) && IsFail(op) && x in op.affected
    ensures var f := match op.j.faulty case Some(a) => a case None => op.id;
      x in g && x in After(g, op) && After(g, op)[x].failureReason == Some(Upstream(f))
      && After(g, op)[x].failures == g[x].failures + [UpstreamInvalidation(f, g[x].status)]
    ensures x != op.id ==> After(g, op)[x].(status := g[x].status, attempts := g[x].attempts,
      failureReason := g[x].failureReason, failures := g[x].failures) == g[x]
  {
    hide Valid, Accepted, Reaches, Bounded;
    FailLists(g, op);
    FailNode(g, op, x);
    NotBelowItself(g, op.j.Blames(op.id));
  }

  /** The live review every verdict leaves on the reviewed node. */
  lemma ReviewIsOnRecord(g: Nodes, op: Op)
    requires Valid(g) && Accepted(g, op) && op.Verify?
    ensures op.id in g && op.id in After(g, op) && After(g, op)[op.id].review.Some?
    ensures var r, j := After(g, op)[op.id].review.value, op.j;
      && r.result == j.result && r.reviewer == j.reviewer && r.reason == j.reason && r.failed == j.failed
      && r.affected == op.affected && (!j.result.Fail? ==> r.affected == [])
      && r.checked == (match j.checked case Some(c) => c case None => if j.result.Fail? then j.failed else [])
      && r.evidence == (match j.evidence case Some(e) => e case None => [])
      && r.faulty == (if !j.result.Fail? then None else if j.faulty.Some? then j.faulty else Some(op.id))
      && (r.recommendation == j.recommendation || (j.result.Fail? && r.recommendation.Some?))
  {
    hide Valid, Reaches, Bounded, AffectedBy, FailGuards, PassGuards, ReviewerGuards, After;
    if IsFail(op) {
      FailStatuses(g, op);
      FailNode(g, op, op.id);
    } else {
      StepSelf(g, op);
    }
  }

  // ----- who may give it -----

  /** No verdict is accepted from a label that reduces to the executor's, nor to the executor's of the node named. */
  lemma VerdictIsIndependent(g: Nodes, op: Op)
    requires Accepted(g, op) && op.Verify?
    ensures op.id in g && op.j.reviewer.reduced.Some?
    ensures g[op.id].executor.Some? ==> g[op.id].executor.value.reduced != op.j.reviewer.reduced
    ensures op.j.faulty.Some? ==> op.j.faulty.value in g
    ensures op.j.faulty.Some? && g[op.j.faulty.value].executor.Some? ==>
      g[op.j.faulty.value].executor.value.reduced != op.j.reviewer.reduced
  {
    hide Reaches, AffectedBy, PassGuards, EvidenceOk, Covered, Elements, Distinct;
  }

  /** What an accepted verdict has to show, result by result. */
  lemma VerdictIsInOrder(g: Nodes, op: Op)
    requires Accepted(g, op) && op.Verify?
    ensures op.id in g && g[op.id].status.Awaiting?
    ensures !op.j.result.Pass? ==> op.j.reason.Some? && op.j.reason.value.reduced.Some?
    ensures !op.j.result.Fail? ==> op.j.faulty.None? && op.j.faultyCriteria == []
    ensures forall c | c in op.j.failed :: c in g[op.id].criteria
    ensures op.j.checked.Some? ==> forall c | c in op.j.checked.value :: c in g[op.id].criteria
    ensures op.j.evidence.Some? ==> forall e | e in op.j.evidence.value :: e.criterion in g[op.id].criteria
    ensures op.j.result.Pass? ==> op.j.checked.Some? && forall c | c in g[op.id].criteria :: c in op.j.checked.value
    ensures op.j.result.Fail? ==> op.j.failed != [] && op.j.evidence.Some?
    ensures op.j.result.Fail? ==>
      forall c | c in op.j.failed :: exists e :: e in op.j.evidence.value && e.criterion == c
    ensures op.j.result.Fail? && op.j.faulty.Some? && op.j.faulty.value != op.id ==>
      && op.j.faultyCriteria != []
      && op.j.faulty.value in g && forall c | c in op.j.faultyCriteria :: c in g[op.j.faulty.value].criteria
  {
    hide Reaches, AffectedBy, EvidenceOk, SameActor;
    var n, j := g[op.id], op.j;
    forall c ensures c in Elements(n.criteria) <==> c in n.criteria {}
    forall c ensures c in Elements(j.failed) <==> c in j.failed {}
    forall e | e in j.Items() ensures e.criterion in Covered(j.Items()) {}
    forall c | c in j.Checked() ensures c in Elements(j.Checked()) {}
    forall c | c in j.faultyCriteria ensures c in Elements(j.faultyCriteria) {}
  }

  /**
   * In every valid graph a verified node was reviewed by somebody whose label does not reduce to its executor's, and
   * each of its criteria was submitted for, checked and reviewed on evidence.
   */
  lemma VerifiedIsReviewed(g: Nodes, x: Id)
    requires Valid(g) && x in g && g[x].status.Verified?
    ensures g[x].executor.Some? && g[x].review.Some? && g[x].review.value.result.Pass?
    ensures g[x].executor.value.reduced.Some? && g[x].review.value.reviewer.reduced.Some?
    ensures g[x].executor.value.reduced != g[x].review.value.reviewer.reduced
    ensures forall c | c in g[x].criteria ::
      && c in g[x].review.value.checked
      && (exists e :: e in g[x].evidence && e.criterion == c)
      && (exists e :: e in g[x].review.value.evidence && e.criterion == c)
  {
    hide Cyclic, Known, LimitsOk, EvidenceOk, DoubtsOk, DepsSettled;
    var n := g[x];
    assert NodeOk(n) && RuntimeNode(g, n);
    forall c | c in n.criteria
      ensures c in n.review.value.checked && c in Covered(n.evidence) && c in Covered(n.review.value.evidence)
    {
      assert c in Elements(n.criteria);
    }
  }

  /** A named submitter is held to the executor's label up to reduction, and to nothing else. */
  lemma SubmitterIsTheExecutor(g: Nodes, id: Id, evidence: seq<Evidence>, actor: Text, context: Context)
    ensures CanSubmit(g, id, evidence, Some(actor), context) <==>
      && CanSubmit(g, id, evidence, None, context)
      && actor.reduced.Some? && g[id].executor.Some? && g[id].executor.value.reduced == actor.reduced
  {
    hide EvidenceOk, Covered, Elements;
  }

  /** So is whoever withdraws a submission. */
  lemma WithdrawerIsTheExecutor(g: Nodes, id: Id, actor: Text)
    ensures CanWithdraw(g, id, actor) <==>
      && id in g && g[id].status.Awaiting? && g[id].submitted
      && g[id].review.Some? && g[id].review.value.result.Uncertain?
      && actor.reduced.Some? && g[id].executor.Some? && g[id].executor.value.reduced == actor.reduced
  {
  }

  /** Spelling a label another way, with the same reduced form, changes no check on it. */
  lemma SpellingIsNoDisguise(
      g: Nodes, id: Id, j: Judgement, evidence: seq<Evidence>, context: Context, a: Text, b: Text)
    requires a.reduced == b.reduced
    ensures CanVerify(g, id, j.(reviewer := a)) <==> CanVerify(g, id, j.(reviewer := b))
    ensures CanSubmit(g, id, evidence, Some(a), context) <==> CanSubmit(g, id, evidence, Some(b), context)
    ensures CanWithdraw(g, id, a) <==> CanWithdraw(g, id, b)
  {
    hide Reaches, EvidenceOk, Covered, Elements, Distinct, CanSubmit, CanWithdraw;
    SubmitterIsTheExecutor(g, id, evidence, a, context);
    SubmitterIsTheExecutor(g, id, evidence, b, context);
    WithdrawerIsTheExecutor(g, id, a);
    WithdrawerIsTheExecutor(g, id, b);
  }

  // ----- what can be decided of a node under review -----

  /** A label that is neither of two. */
  function Outsider(a: Option<Text>, b: Option<Text>): Text {
    if !SameActor(Some(Voice(0)), a) && !SameActor(Some(Voice(0)), b) then Voice(0)
    else if !SameActor(Some(Voice(1)), a) && !SameActor(Some(Voice(1)), b) then Voice(1)
    else Voice(2)
  }

  lemma OutsiderIsNeither(a: Option<Text>, b: Option<Text>)
    ensures !SameActor(Some(Outsider(a, b)), a) && !SameActor(Some(Outsider(a, b)), b)
    ensures !Outsider(a, b).Blank() && Outsider(a, b).InBound()
  {
  }

  /** A FAIL on `n` that blames node `a`. */
  function Blaming(n: Node, a: Id, m: Node): Judgement
    requires n.criteria != [] && m.criteria != []
  {
    Judgement(Fail, Outsider(n.executor, m.executor), None, Some(FullEvidence(n.criteria)), Some(Voice(8)), Some(a),
      None, [n.criteria[0]], [m.criteria[0]])
  }

  /** Some list of the dependents a FAIL would invalidate is in dependency order. */
  lemma SomeAffected(g: Nodes, f: Id) returns (affected: seq<Id>)
    requires Valid(g)
    ensures AffectedBy(g, f, affected)
  {
    hide Reaches, Structure, RuntimeOk, Stable, InDependencyOrder;
    AcyclicOf(g);
    DepsInside(g);
    var o := SomeOrder(EdgesOf(g));
    affected := Select(o, set x | x in g && Reaches(EdgesOf(g), x, f) && !g[x].status.Failed?);
    SelectedOrder(o, EdgesOf(g), set x | x in g && Reaches(EdgesOf(g), x, f) && !g[x].status.Failed?);
  }

  lemma DepsInside(g: Nodes)
    requires Valid(g)
    ensures Inside(EdgesOf(g))
  {
    hide RuntimeOk, NodesOk, Stable, Cyclic;
  }

  lemma SomeOrder(d: Edges) returns (o: seq<Id>)
    requires !Cyclic(d) && Inside(d)
    ensures Topological(o, d)
  {
    hide Cyclic;
    o := [];
    while d.Keys - Elements(o) != {}
      invariant Distinct(o) && Elements(o) <= d.Keys
      invariant forall k | 0 <= k < |o| :: o[k] in d && forall x | x in d[o[k]] :: x in o[..k]
      decreases d.Keys - Elements(o)
    {
      var m := MinimalMember(d, d.Keys - Elements(o));
      assert forall x | x in d[m] :: x in Elements(o);
      AddElement(o, m);
      assert m !in Elements(o);
      assert forall k | 0 <= k < |o| :: (o + [m])[..k] == o[..k];
      assert (o + [m])[..|o|] == o;
      o := o + [m];
    }
    forall x | x in d.Keys ensures x in Elements(o) {
      assert x !in d.Keys - Elements(o);
    }
  }

  lemma BlamingAccepted(g: Nodes, x: Id, a: Id, affected: seq<Id>)
    requires Valid(g) && x in g && g[x].status.Awaiting? && a in g
    requires a == x || (Reaches(EdgesOf(g), x, a) && g[a].status.Verified?)
    requires AffectedBy(g, a, affected)
    ensures g[x].criteria != [] && g[a].criteria != []
    ensures Accepted(g, Verify(x, Blaming(g[x], a, g[a]), affected))
  {
    hide Cyclic, Known, RuntimeOk, EvidenceOk, DoubtsOk, Reaches, AffectedBy, FullEvidence, Covered;
    assert NodeOk(g[x]) && NodeOk(g[a]);
    var c := g[x].criteria;
    FullCovers(c);
    OutsiderIsNeither(g[x].executor, g[a].executor);
    assert c[0] in c && Elements([c[0]]) <= Elements(c);
    assert g[a].criteria[0] in g[a].criteria && Elements([g[a].criteria[0]]) <= Elements(g[a].criteria);
    assert |FullEvidence(c)| == |c|;
  }

  /**
   * A verdict on a node can fail exactly that node and its verified ancestors: each of them by some verdict, and
   * nothing else by any.
   */
  lemma WhatAVerdictCanFail(g: Nodes, x: Id, a: Id)
    requires Valid(g) && x in g && g[x].status.Awaiting? && a in g && !g[a].status.Failed?
    ensures (exists j, affected {:trigger Verify(x, j, affected)} :: Accepted(g, Verify(x, j, affected)) &&
              a in After(g, Verify(x, j, affected)) && After(g, Verify(x, j, affected))[a].status.Failed?)
      <==> a == x || (Reaches(EdgesOf(g), x, a) && g[a].status.Verified?)
  {
    hide Valid, Enabled, AffectedBy, Reaches, After, InDependencyOrder, Distinct, Blaming;
    if a == x || (Reaches(EdgesOf(g), x, a) && g[a].status.Verified?) {
      var affected := SomeAffected(g, a);
      BlamingAccepted(g, x, a, affected);
      BlamingNames(g[x], a, g[a]);
      var op := Verify(x, Blaming(g[x], a, g[a]), affected);
      FailStrikesTheNamed(g, op);
    }
    forall j, affected
      | Accepted(g, Verify(x, j, affected)) && a in After(g, Verify(x, j, affected))
        && After(g, Verify(x, j, affected))[a].status.Failed?
      ensures a == x || (Reaches(EdgesOf(g), x, a) && g[a].status.Verified?)
    {
      OnlyTheNamedFails(g, Verify(x, j, affected), a);
    }
  }

  lemma BlamingNames(n: Node, a: Id, m: Node)
    requires n.criteria != [] && m.criteria != []
    ensures Blaming(n, a, m).result.Fail? && Blaming(n, a, m).faulty == Some(a)
  {
  }

  lemma OnlyTheNamedFails(g: Nodes, op: Op, a: Id)
    requires Valid(g) && Accepted(g, op) && op.Verify? && a in g && !g[a].status.Failed? && a in After(g, op)
    ensures After(g, op)[a].status.Failed? ==> a == op.id || (Reaches(EdgesOf(g), op.id, a) && g[a].status.Verified?)
  {
    hide Valid, Accepted, AffectedBy, Reaches, After, InDependencyOrder, Distinct;
    if IsFail(op) {
      FailStrikesTheNamed(g, op);
    } else if a != op.id {
      StepOther(g, op, a);
    }
  }

  /** A node under review can be passed exactly when its submission speaks of every criterion and of nothing else. */
  lemma WhatCanBePassed(g: Nodes, x: Id)
    requires Valid(g) && x in g && g[x].status.Awaiting?
    ensures (exists j: Judgement {:trigger Verify(x, j, [])} :: j.result.Pass? && Accepted(g, Verify(x, j, [])))
      <==> (forall c :: c in g[x].criteria <==> exists e :: e in g[x].evidence && e.criterion == c)
  {
    hide Valid, Elements, EvidenceOk, Distinct, FullEvidence;
    CoversExactly(g[x]);
    if Complies(g[x]) {
      ApprovalAccepted(g, x);
      assert Approval(g[x]).result.Pass?;
    }
  }

  lemma CoversExactly(n: Node)
    ensures Complies(n) <==> forall c :: c in n.criteria <==> exists e :: e in n.evidence && e.criterion == c
  {
    if Complies(n) {
      forall c ensures c in n.criteria <==> exists e :: e in n.evidence && e.criterion == c {
        assert c in n.criteria <==> c in Elements(n.criteria);
        assert c in Covered(n.evidence) <==> exists e :: e in n.evidence && e.criterion == c;
      }
    }
    if forall c :: c in n.criteria <==> exists e :: e in n.evidence && e.criterion == c {
      forall c ensures c in Covered(n.evidence) <==> c in Elements(n.criteria) {
        assert c in Covered(n.evidence) <==> exists e :: e in n.evidence && e.criterion == c;
      }
    }
  }

  // ----- the text of it -----

  predicate Sentence(t: Option<Text>) {
    t.Some? ==> t.value.reduced.Some? && t.value.length <= 32768
  }

  /**
   * Past its own checks, a verdict goes through exactly when its label and sentences are neither blank nor longer
   * than 32768, except that a FAIL may leave its recommendation empty.
   */
  lemma VerdictTextExactly(g: Nodes, op: Op)
    requires Valid(g) && Enabled(g, op) && op.Verify?
    ensures Accepts(Mutated(g, op)) <==>
      && op.j.reviewer.length <= 32768 && Sentence(op.j.reason)
      && (Sentence(op.j.recommendation) || (op.j.result.Fail? && op.j.recommendation.value.length == 0))
  {
    hide Valid, Accepts, Mutated, PassGuards, FailGuards, AffectedBy;
    TrailingValidate(g, op);
  }
}
