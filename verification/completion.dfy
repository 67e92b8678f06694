/** Exactly which graphs can still be brought to completion by ordinary work. */
module Completion {
  import opened Basics
  import opened Dependencies
  import opened Records
  import opened Operations
  import opened Guards
  import opened Runs
  import opened Termination
  import opened DoubtTrail
  import opened Advice

  /** Retrying, starting, submitting, reviewing and withdrawing: no decision of a person's is needed. */
  predicate Ordinary(ops: seq<Op>) {
    forall op {:trigger op in ops} | op in ops :: !op.GrantAttempt? && !op.Supersede? && !op.AddNode?
  }

  predicate Spent(n: Node) {
    (n.status.Failed? || n.status.Invalidated?) && n.attempts >= n.maxAttempts
  }

  predicate NoneSpent(g: Nodes) {
    forall x {:trigger g[x]} | x in g :: !Spent(g[x])
  }

  ghost predicate Completes(g: Nodes, ops: seq<Op>) {
    Run(g, ops) && Ordinary(ops) && Complete(Final(g, ops))
  }

  // ----- one step closer -----

  function ItemFor(c: Criterion): Evidence { Evidence(c, Voice(5), Voice(6)) }

  function FullEvidence(criteria: seq<Criterion>): (r: seq<Evidence>)
    ensures |r| == |criteria|
  {
    seq(|criteria|, i requires 0 <= i < |criteria| => ItemFor(criteria[i]))
  }

  lemma FullCovers(criteria: seq<Criterion>)
    ensures Covered(FullEvidence(criteria)) == Elements(criteria)
    ensures |criteria| <= MAX_EVIDENCE ==> EvidenceOk(FullEvidence(criteria))
  {
    var items := FullEvidence(criteria);
    forall c | c in criteria ensures c in Covered(items) {
      var i :| 0 <= i < |criteria| && criteria[i] == c;
      assert items[i] in items && items[i].criterion == c;
    }
  }

  function Approval(n: Node): Judgement {
    Judgement(Pass, Stranger(n), Some(n.criteria), Some(FullEvidence(n.criteria)), None, None, None, [], [])
  }

  predicate Complies(n: Node) {
    Covered(n.evidence) == Elements(n.criteria)
  }

  /** The next ordinary operation on a node that waits for nothing. */
  function Onward(n: Node, x: Id): Op {
    match n.status
    case Ready => Start(x, None)
    case Running => Submit(x, FullEvidence(n.criteria), None, Context([], true))
    case Awaiting =>
      if Complies(n) then Verify(x, Approval(n), [])
      else if n.review.Some? then Withdraw(x, if n.executor.Some? then n.executor.value else n.role)
      else Verify(x, Undecided(n), [])
    case _ => Retry(x)
  }

  function Effort(n: Node): nat {
    match n.status
    case Failed => 8
    case Invalidated => 8
    case Blocked => 7
    case Ready => 6
    case Running => 3
    case Awaiting => if Complies(n) then 2 else if n.review.Some? then 4 else 5
    case Verified => 0
    case Superseded => 0
  }

  lemma ApprovalAccepted(g: Nodes, x: Id)
    requires Valid(g) && x in g && g[x].status.Awaiting? && Complies(g[x])
    ensures Accepted(g, Verify(x, Approval(g[x]), []))
  {
    hide Cyclic, Known, RuntimeOk, EvidenceOk, DoubtsOk, Elements, Covered;
    assert NodeOk(g[x]);
    StrangerIsOther(g[x]);
    FullCovers(g[x].criteria);
    assert Elements<Criterion>([]) <= Elements(g[x].criteria) by { NothingListed(g[x].criteria); }
  }

  lemma NothingListed(criteria: seq<Criterion>)
    ensures Elements<Criterion>([]) <= Elements(criteria)
  {
  }

  lemma OnwardAccepted(g: Nodes, x: Id)
    requires Valid(g) && Sound(g) && x in g && !Settled(g[x].status) && !g[x].status.Blocked? && !Spent(g[x])
    ensures Accepted(g, Onward(g[x], x)) && Onward(g[x], x).id == x && !IsFail(Onward(g[x], x))
  {
    hide Structure, FullyReviewed, Elements, Covered, DepsSettled, FullEvidence;
    var n := g[x];
    assert RuntimeNode(g, n) && SoundNode(n);
    match n.status
    case Ready => RoleNamed(g, x);
    case Running => FullCovers(n.criteria); CriteriaFew(g, x);
    case Awaiting =>
      if Complies(n) {
        ApprovalAccepted(g, x);
      } else if n.review.None? {
        UndecidedAccepted(g, x);
      }
    case _ =>
  }

  lemma CriteriaFew(g: Nodes, x: Id)
    requires Valid(g) && x in g
    ensures |g[x].criteria| <= MAX_EVIDENCE
  {
    hide Cyclic, Known, RuntimeOk, EvidenceOk, DoubtsOk;
    assert NodeOk(g[x]);
  }

  lemma OnwardRewrites(g: Nodes, x: Id)
    requires Valid(g) && x in g && DepsSettled(g, g[x])
    requires !Settled(g[x].status) && !g[x].status.Blocked?
    requires Accepted(g, Onward(g[x], x)) && !IsFail(Onward(g[x], x))
    ensures Effort(Rewritten(g, Onward(g[x], x))) + 1 <= Effort(g[x])
    ensures !Rewritten(g, Onward(g[x], x)).status.Failed? && !Rewritten(g, Onward(g[x], x)).status.Invalidated?
  {
    hide Structure, Elements, Covered, DepsSettled, FullEvidence, Bounded, FullyReviewed, EvidenceOk, Enabled;
    FullCovers(g[x].criteria);
    assert RuntimeNode(g, g[x]);
  }

  /** One ordinary step that brings the graph closer and spends nobody's budget. */
  lemma Advance(g: Nodes, bound: nat) returns (op: Op)
    requires Valid(g) && Sound(g) && NoneSpent(g) && Within(g, bound) && !Complete(g)
    ensures Accepted(g, op) && Ordinary([op])
    ensures After(g, op).Keys == g.Keys && NoneSpent(After(g, op))
    ensures Total(After(g, op), Effort, bound) + 1 <= Total(g, Effort, bound)
  {
    hide Valid, Sound, Complete, DepsSettled, Enabled, After, Effort, Total, Rewritten;
    var x := NoDeadlock(g);
    op := Onward(g[x], x);
    assert !Spent(g[x]);
    OnwardAccepted(g, x);
    OnwardRewrites(g, x);
    StepKeys(g, op);
    assert g.Keys + {x} == g.Keys;
    StepSelf(g, op);
    var h := After(g, op);
    BlockedEffort(Rewritten(g, op));
    forall y | y in g && y != x ensures Effort(h[y]) <= Effort(g[y]) && !Spent(h[y]) {
      StepOther(g, op, y);
      assert !Spent(g[y]);
      BlockedEffort(g[y]);
    }
    TotalFalls(g, h, Effort, bound, x, 1);
  }

  lemma BlockedEffort(n: Node)
    ensures n.status.Blocked? ==> Effort(n.(status := Ready)) <= Effort(n) && !Spent(n.(status := Ready))
  {
    hide Complies;
  }

  lemma {:induction false} Finish(g: Nodes, bound: nat) returns (ops: seq<Op>)
    requires Valid(g) && Sound(g) && NoneSpent(g) && Within(g, bound)
    ensures Completes(g, ops)
    decreases Total(g, Effort, bound)
  {
    hide Valid, Sound, NoneSpent, Complete, Enabled, After, Total, TextFits;
    if Complete(g) {
      ops := [];
    } else {
      var op := Advance(g, bound);
      KeepsValid(g, op);
      StepSound(g, op);
      var rest := Finish(After(g, op), bound);
      ops := [op] + rest;
      assert ops[1..] == rest;
      assert op in [op];
    }
  }

  // ----- and no other way -----

  lemma SpentStays(g: Nodes, op: Op, x: Id)
    requires Valid(g) && Accepted(g, op) && Ordinary([op]) && x in g && Spent(g[x])
    ensures x in After(g, op) && Spent(After(g, op)[x])
  {
    hide Valid, Enabled, After, Rewritten, Reaches, Bounded;
    assert op in [op];
    StepKeys(g, op);
    if IsFail(op) {
      FailStatuses(g, op);
      FailNode(g, op, x);
    } else if x == op.id {
      SpentRefuses(g, op);
    } else {
      StepOther(g, op, x);
    }
  }

  lemma SpentRefuses(g: Nodes, op: Op)
    requires Accepted(g, op) && op.id in g && Spent(g[op.id])
    ensures op.GrantAttempt? || op.Supersede? || op.AddNode?
  {
    hide Accepts, PassGuards, FailGuards, AffectedBy;
  }

  lemma {:induction false} SpentForever(g: Nodes, ops: seq<Op>, x: Id)
    requires Valid(g) && Run(g, ops) && Ordinary(ops) && x in g && Spent(g[x])
    ensures x in Final(g, ops) && Spent(Final(g, ops)[x])
    decreases |ops|
  {
    hide Valid, Enabled, After, Spent;
    if ops != [] {
      OrdinaryParts(ops);
      SpentStays(g, ops[0], x);
      KeepsValid(g, ops[0]);
      SpentForever(After(g, ops[0]), ops[1..], x);
    }
  }

  lemma OrdinaryParts(ops: seq<Op>)
    requires ops != [] && Ordinary(ops)
    ensures Ordinary([ops[0]]) && Ordinary(ops[1..])
  {
    assert ops[0] in ops;
    forall op | op in ops[1..] ensures !op.GrantAttempt? && !op.Supersede? && !op.AddNode? {
      assert op in ops;
    }
  }

  lemma SpentNeverCompletes(g: Nodes, ops: seq<Op>, x: Id)
    requires Valid(g) && x in g && Spent(g[x])
    ensures !Completes(g, ops)
  {
    hide Valid, Run, Final;
    if Completes(g, ops) {
      SpentForever(g, ops, x);
    }
  }

  /**
   * Some run of ordinary work completes the graph if and only if no failed or invalidated node has spent its
   * attempts: from every reachable state, superseded nodes or not.
   */
  lemma CompletableExactly(g: Nodes)
    requires Valid(g) && Sound(g)
    ensures (exists ops :: Completes(g, ops)) <==> NoneSpent(g)
  {
    hide Valid, Sound, Run, Final, Completes;
    if NoneSpent(g) {
      var bound := SomeBound(g);
      var ops := Finish(g, bound);
      assert Completes(g, ops);
    }
    if x :| x in g && Spent(g[x]) {
      forall ops ensures !Completes(g, ops) {
        SpentNeverCompletes(g, ops, x);
      }
    }
  }

  lemma ReachableCompletable(g: Nodes)
    requires Reachable(g)
    ensures (exists ops :: Completes(g, ops)) <==> NoneSpent(g)
  {
    hide Valid, Sound, Reachable, Completes, NoneSpent;
    ReachableSound(g);
    CompletableExactly(g);
  }

  // ----- without supersede, only a failed node can be spent -----

  ghost predicate CleanNode(n: Node) {
    && Balance(n) == 0 && !n.status.Superseded?
    && (!n.status.Failed? ==> Fails(n.failures) < n.maxAttempts)
  }

  ghost predicate Clean(g: Nodes) {
    forall x {:trigger g[x]} | x in g :: CleanNode(g[x])
  }

  lemma RewrittenClean(g: Nodes, op: Op)
    requires Accepted(g, op) && !IsFail(op) && !op.Supersede? && (op.id in g ==> CleanNode(g[op.id]))
    ensures CleanNode(Rewritten(g, op))
  {
    hide Bounded, PassGuards, EvidenceOk, Distinct, Structure, RuntimeOk, Fails;
    if op.AddNode? {
      AddedClean(g, op);
    }
  }

  lemma AddedClean(g: Nodes, op: Op)
    requires Enabled(g, op) && op.AddNode?
    ensures CleanNode(op.node)
  {
    hide Cyclic, RuntimeOk, EvidenceOk, DoubtsOk, Distinct;
    assert NodeOk(g[op.id := op.node][op.id]);
    NoFails();
  }

  lemma StepClean(g: Nodes, op: Op)
    requires Valid(g) && Clean(g) && Accepted(g, op) && !op.Supersede?
    ensures Clean(After(g, op))
  {
    hide Valid, Enabled, After, Rewritten, Reaches, Balance, Fails, CleanNode;
    StepKeys(g, op);
    forall x | x in After(g, op) ensures CleanNode(After(g, op)[x]) {
      if IsFail(op) {
        assert CleanNode(g[x]);
        FailClean(g, op, x);
      } else if x == op.id {
        StepSelf(g, op);
        RewrittenClean(g, op);
        ReadyClean(Rewritten(g, op));
      } else {
        StepOther(g, op, x);
        ReadyClean(g[x]);
      }
    }
  }

  lemma ReadyClean(n: Node)
    ensures CleanNode(n) && n.status.Blocked? ==> CleanNode(n.(status := Ready))
  {
    hide Fails;
  }

  lemma FailClean(g: Nodes, op: Op, x: Id)
    requires Valid(g) && Accepted(g, op) && IsFail(op) && x in g && x in After(g, op) && CleanNode(g[x])
    ensures CleanNode(After(g, op)[x])
  {
    hide Valid, Enabled, After, Reaches, Balance, Fails, Bounded;
    StepBalance(g, op, x);
    FailStatuses(g, op);
    FailNode(g, op, x);
    FailsAppend(g[x].failures, UpstreamInvalidation(op.j.Blames(op.id), g[x].status));
  }

  predicate NoSupersede(ops: seq<Op>) {
    forall op {:trigger op in ops} | op in ops :: !op.Supersede?
  }

  lemma {:induction false} RunClean(g: Nodes, ops: seq<Op>)
    requires Valid(g) && Clean(g) && Run(g, ops) && NoSupersede(ops)
    ensures Clean(Final(g, ops))
    decreases |ops|
  {
    hide Valid, Clean, Enabled, After;
    if ops != [] {
      assert ops[0] in ops;
      KeepsValid(g, ops[0]);
      StepClean(g, ops[0]);
      forall op | op in ops[1..] ensures !op.Supersede? {
        assert op in ops;
      }
      RunClean(After(g, ops[0]), ops[1..]);
    }
  }

  lemma InitialClean(g: Nodes)
    requires Initial(g)
    ensures Clean(g)
  {
    hide Cyclic, EvidenceOk, DoubtsOk, Distinct, Fails;
    forall x | x in g ensures CleanNode(g[x]) {
      assert FreshNode(g[x]) && NodeOk(g[x]);
      NoFails();
    }
  }

  /** From every state reached without supersede in which no failed node has spent its budget, work can be finished. */
  lemma CompletableWithoutSupersede(g: Nodes, ops: seq<Op>)
    requires Initial(g) && Run(g, ops)
    requires forall op {:trigger op in ops} | op in ops :: !op.Supersede?
    requires forall x {:trigger Final(g, ops)[x]} | x in Final(g, ops) && Final(g, ops)[x].status.Failed? ::
      Final(g, ops)[x].attempts < Final(g, ops)[x].maxAttempts
    ensures exists more :: Completes(Final(g, ops), more)
  {
    hide Valid, Sound, Run, Final, Fails, Completes;
    InitialSound(g);
    InitialClean(g);
    RunSound(g, ops);
    RunClean(g, ops);
    var h := Final(g, ops);
    forall x | x in h ensures !Spent(h[x]) {
      assert CleanNode(h[x]);
    }
    CompletableExactly(h);
  }
}
