/** Whole runs of the state machine: what every sequence of accepted operations keeps, and how long it can be. */
module Runs {
  import opened Basics
  import opened Dependencies
  import opened Records
  import opened Operations
  import opened Guards

  /** Every operation of the list is accepted where it is made. A refused one changes nothing and is left out. */
  ghost predicate Run(g: Nodes, ops: seq<Op>)
    decreases |ops|
  {
    ops == [] || (Accepted(g, ops[0]) && Run(After(g, ops[0]), ops[1..]))
  }

  ghost function Final(g: Nodes, ops: seq<Op>): Nodes
    requires Run(g, ops)
    decreases |ops|
  {
    if ops == [] then g else Final(After(g, ops[0]), ops[1..])
  }

  /** A node as `init` or `add_node` leaves it: fresh, and promoted if nothing holds it back. */
  predicate FreshNode(n: Node) {
    (n.status.Blocked? || n.status.Ready?)
    && n.(status := Blocked) == Fresh(n.description, n.dependsOn, n.role, n.criteria, n.maxAttempts)
  }

  ghost predicate Initial(g: Nodes) {
    Valid(g) && forall x {:trigger FreshNode(g[x])} | x in g :: FreshNode(g[x])
  }

  predicate AllFresh(g: Nodes) {
    forall x {:trigger g[x]} | x in g ::
      g[x] == Fresh(g[x].description, g[x].dependsOn, g[x].role, g[x].criteria, g[x].maxAttempts)
  }

  /** A document of fresh nodes, once loaded, is where runs begin. */
  lemma FreshDocumentIsInitial(g: Nodes)
    requires Accepts(g) && AllFresh(g)
    ensures Initial(Promote(g))
  {
    hide Structure, RuntimeOk, Valid, Accepts, DepsSettled;
    AcceptedIsValid(g);
    var h := Promote(g);
    forall x | x in h ensures FreshNode(h[x]) {
      assert h[x] == g[x] || h[x] == g[x].(status := Ready);
    }
  }

  /** `init` writes a graph of one fresh node: it loads exactly when that record is in order, and the node is ready. */
  lemma InitLoads(id: Id, description: Text, role: Text, criteria: seq<Criterion>, max: int)
    ensures var g := map[id := Fresh(description, [], role, criteria, max)];
      && (Accepts(g) <==> NodeOk(g[id]))
      && (Accepts(g) ==> Initial(Promote(g)) && Promote(g)[id].status.Ready?)
      && var n := Promote(g)[id];
      && n.description == description && n.role == role && n.criteria == criteria && n.maxAttempts == max
      && n.dependsOn == [] && n.attempts == 0 && n.evidence == [] && n.executor.None? && n.review.None?
  {
    hide NodeOk;
    var n := Fresh(description, [], role, criteria, max);
    var g := map[id := n];
    assert |g| == 1;
    NoWalkFromOne(g, id);
    assert Promote(g)[id] == n.(status := Ready);
    if NodeOk(n) {
      assert Accepts(g);
      FreshDocumentIsInitial(g);
    }
  }

  lemma NoWalkFromOne(g: Nodes, id: Id)
    requires g.Keys == {id} && g[id].dependsOn == []
    ensures !Cyclic(EdgesOf(g))
  {
    forall x, p: seq<Id> ensures !Joins(EdgesOf(g), p, x, x) {
      if |p| >= 2 && p[0] in EdgesOf(g) {
        assert p[0] == id;
        assert p[0 + 1] !in EdgesOf(g)[p[0]];
      }
    }
  }

  lemma {:induction false} RunKeepsValid(g: Nodes, ops: seq<Op>)
    requires Valid(g) && Run(g, ops)
    ensures Valid(Final(g, ops))
    decreases |ops|
  {
    hide Valid, Enabled, After;
    if ops != [] {
      KeepsValid(g, ops[0]);
      RunKeepsValid(After(g, ops[0]), ops[1..]);
    }
  }

  /** Some run from fresh nodes leads there. */
  ghost predicate Reachable(g: Nodes) {
    exists start: Nodes, ops: seq<Op> {:trigger Run(start, ops)} ::
      Initial(start) && Run(start, ops) && Final(start, ops) == g
  }

  // ----- one step, one node -----

  lemma StepKeys(g: Nodes, op: Op)
    requires Valid(g) && Accepted(g, op)
    ensures After(g, op).Keys == g.Keys + {op.id}
    ensures op.AddNode? <==> op.id !in g
  {
    hide Valid, Structure, RuntimeOk, Stable, AffectedBy;
    if IsFail(op) {
      FailKeys(g, op);
    }
  }

  lemma StepOther(g: Nodes, op: Op, x: Id)
    requires Valid(g) && Accepted(g, op) && !IsFail(op) && x in g && x != op.id
    ensures x in After(g, op)
    ensures After(g, op)[x] == g[x] || (g[x].status.Blocked? && After(g, op)[x] == g[x].(status := Ready))
  {
    hide Valid, Enabled, Rewritten, DepsSettled;
  }

  lemma StepSelf(g: Nodes, op: Op)
    requires Valid(g) && Accepted(g, op) && !IsFail(op)
    ensures op.id in After(g, op)
    ensures var n := Rewritten(g, op);
      After(g, op)[op.id] == n || (n.status.Blocked? && After(g, op)[op.id] == n.(status := Ready))
  {
    hide Valid, Enabled, Rewritten, DepsSettled;
  }

  lemma StepFail(g: Nodes, op: Op)
    requires Valid(g) && Accepted(g, op) && IsFail(op)
    ensures op.id in g && op.j.reason.Some? && op.j.Blames(op.id) in g
    ensures After(g, op) == AfterFail(g, op.id, op.j, op.affected)
  {
    hide Valid, AffectedBy, Accepts, AfterFail, Promote;
    FailAccepted(g, op);
  }

  /** What a FAIL leaves of one node: the blamed one, a dependent of it, or any other, which is untouched. */
  lemma FailNode(g: Nodes, op: Op, x: Id)
    requires Valid(g) && Accepted(g, op) && IsFail(op) && x in g
    ensures op.id in g && op.j.reason.Some? && op.j.Blames(op.id) in g && x in After(g, op)
    ensures var f := op.j.Blames(op.id);
      var r := ReviewOf(op.id, op.j, op.affected);
      After(g, op)[x] ==
        if x == f then Blamed(g[x], op.id, f, op.j, op.affected)
        else if Reaches(EdgesOf(g), x, f) then Discarded(if x == op.id then WithReview(g[x], r) else g[x], f)
        else g[x]
  {
    hide Valid, AffectedBy, Reaches, ReviewerGuards, WithReview, Blamed, Discarded;
    StepFail(g, op);
  }

  /** Of the nodes in review, the blamed one held an attempt and the reviewed one awaits. */
  lemma FailStatuses(g: Nodes, op: Op)
    requires Accepted(g, op) && IsFail(op)
    ensures op.id in g && g[op.id].status.Awaiting?
    ensures op.j.Blames(op.id) in g && Active(g[op.j.Blames(op.id)].status)
    ensures op.id != op.j.Blames(op.id) ==>
      g[op.j.Blames(op.id)].status.Verified? && Reaches(EdgesOf(g), op.id, op.j.Blames(op.id))
  {
    hide Reaches, AffectedBy;
  }

  // ----- the exact extent of a FAIL -----

  /**
   * An accepted FAIL leaves the blamed node failed; lists, in dependency order, exactly its dependents that
   * were not already failed; makes each of those invalidated, taking one attempt back exactly from those that
   * were running, awaiting or verified; and leaves every record outside the blamed node and its dependents alone.
   */
  lemma FailIsExactAndLocal(g: Nodes, op: Op)
    requires Valid(g) && Accepted(g, op) && IsFail(op)
    ensures var f, h := op.j.Blames(op.id), After(g, op);
      && h.Keys == g.Keys && f in g
      && h[f].status.Failed? && h[f].attempts == g[f].attempts
      && AffectedBy(g, f, op.affected)
      && (forall x | x in op.affected && x in g ::
            h[x].status.Invalidated? && h[x].attempts == g[x].attempts - (if Active(g[x].status) then 1 else 0))
      && (forall x | x in g && x != f && x !in op.affected :: h[x] == g[x])
  {
    hide Valid, RuntimeNode, AffectedBy, Reaches, AfterFail, After, ReviewerGuards, FailGuards;
    var f, h := op.j.Blames(op.id), After(g, op);
    StepKeys(g, op);
    FailStatuses(g, op);
    FailLists(g, op);
    forall x | x in g
      ensures x == f ==> h[x].status.Failed? && h[x].attempts == g[x].attempts
      ensures x in op.affected ==>
        h[x].status.Invalidated? && h[x].attempts == g[x].attempts - (if Active(g[x].status) then 1 else 0)
      ensures x != f && x !in op.affected ==> h[x] == g[x]
    {
      FailNode(g, op, x);
      HoldsAttempt(g, x);
      NotBelowItself(g, f);
    }
  }

  lemma FailLists(g: Nodes, op: Op)
    requires Accepted(g, op) && IsFail(op)
    ensures AffectedBy(g, op.j.Blames(op.id), op.affected)
    ensures forall x :: x in op.affected <==>
      x in g && Reaches(EdgesOf(g), x, op.j.Blames(op.id)) && !g[x].status.Failed?
  {
    hide Reaches, FailGuards;
  }

  lemma NotBelowItself(g: Nodes, f: Id)
    requires Valid(g)
    ensures !Reaches(EdgesOf(g), f, f)
  {
  }

  lemma HoldsAttempt(g: Nodes, x: Id)
    requires Valid(g) && x in g
    ensures Active(g[x].status) ==> g[x].attempts >= 1
    ensures 0 <= g[x].attempts <= g[x].maxAttempts <= MAX_ATTEMPTS
  {
    hide Cyclic, Reaches, DepsSettled;
    assert RuntimeNode(g, g[x]) && NodeOk(g[x]);
  }

  // ----- the attempt ledger -----

  /** Failed reviews on the node's own record. */
  function Fails(h: seq<Failure>): nat {
    if h == [] then 0 else Fails(h[..|h| - 1]) + if h[|h| - 1].VerificationFailure? then 1 else 0
  }

  lemma FailsAppend(h: seq<Failure>, e: Failure)
    ensures Fails(h + [e]) == Fails(h) + if e.VerificationFailure? then 1 else 0
  {
    assert (h + [e])[..|h|] == h;
  }

  /** Attempts that no failed review and no live state accounts for. */
  function Balance(n: Node): int {
    n.attempts - Fails(n.failures) - if Active(n.status) then 1 else 0
  }

  /** Whether the operation retires the node while it holds an unjudged attempt. */
  ghost function RetiredNow(g: Nodes, op: Op, x: Id): nat {
    if op.Supersede? && op.id == x && x in g && Active(g[x].status) then 1 else 0
  }

  ghost function TimesRetired(g: Nodes, ops: seq<Op>, x: Id): nat
    requires Run(g, ops)
    decreases |ops|
  {
    if ops == [] then 0 else RetiredNow(g, ops[0], x) + TimesRetired(After(g, ops[0]), ops[1..], x)
  }

  lemma DiscardedBalance(n: Node, f: Id)
    requires Active(n.status) ==> n.attempts >= 1
    ensures Balance(Discarded(n, f)) == Balance(n)
  {
    FailsAppend(n.failures, UpstreamInvalidation(f, n.status));
  }

  lemma BlamedBalance(n: Node, id: Id, f: Id, j: Judgement, affected: seq<Id>)
    requires Active(n.status) && j.reason.Some?
    ensures Balance(Blamed(n, id, f, j, affected)) == Balance(n)
  {
    hide Bounded;
    FailsAppend(n.failures, VerificationFailure(id, n.attempts, j.reason.value, j.failed, j.BlamedCriteria(id),
      j.reviewer, affected));
  }

  lemma RewrittenBalance(g: Nodes, op: Op)
    requires Accepted(g, op) && !IsFail(op)
    ensures Balance(Rewritten(g, op)) == (if op.id in g then Balance(g[op.id]) else 0) + RetiredNow(g, op, op.id)
  {
    hide Bounded, Fails, Accepts, PassGuards;
    assert Fails([]) == 0 by { NoFails(); }
  }

  lemma NoFails()
    ensures Fails([]) == 0
  {
  }

  lemma StepBalance(g: Nodes, op: Op, x: Id)
    requires Valid(g) && Accepted(g, op) && x in After(g, op)
    ensures Balance(After(g, op)[x]) == (if x in g then Balance(g[x]) else 0) + RetiredNow(g, op, x)
  {
    hide Valid, After, Accepted, Fails, Rewritten, Reaches, Blamed, Discarded, WithReview;
    StepKeys(g, op);
    if !IsFail(op) {
      StepSelf(g, op);
      RewrittenBalance(g, op);
      if x != op.id {
        StepOther(g, op, x);
      }
    } else {
      FailStatuses(g, op);
      FailNode(g, op, x);
      HoldsAttempt(g, x);
      var f := op.j.Blames(op.id);
      var r := ReviewOf(op.id, op.j, op.affected);
      BlamedOrDiscarded(g[x], op, f, r);
    }
  }

  lemma BlamedOrDiscarded(n: Node, op: Op, f: Id, r: Review)
    requires op.Verify? && op.j.reason.Some? && (Active(n.status) ==> n.attempts >= 1)
    ensures Active(n.status) ==> Balance(Blamed(n, op.id, f, op.j, op.affected)) == Balance(n)
    ensures Balance(Discarded(n, f)) == Balance(n)
    ensures Balance(Discarded(WithReview(n, r), f)) == Balance(n)
  {
    hide Bounded, Fails, Blamed;
    DiscardedBalance(n, f);
    DiscardedBalance(WithReview(n, r), f);
    if Active(n.status) {
      BlamedBalance(n, op.id, f, op.j, op.affected);
    }
  }

  lemma {:induction false} RunBalance(g: Nodes, ops: seq<Op>, x: Id)
    requires Valid(g) && Run(g, ops) && x in Final(g, ops)
    ensures Balance(Final(g, ops)[x]) == (if x in g then Balance(g[x]) else 0) + TimesRetired(g, ops, x)
    decreases |ops|
  {
    assert x !in g && ops != [] ==> RetiredNow(g, ops[0], x) == 0;
    hide Valid, Enabled, After, Balance, RetiredNow;
    if ops != [] {
      var h := After(g, ops[0]);
      KeepsValid(g, ops[0]);
      RunBalance(h, ops[1..], x);
      StepKeys(g, ops[0]);
      if x in h {
        StepBalance(g, ops[0], x);
      } else {
      }
    }
  }

  /**
   * The attempt ledger: in every reachable state a node's attempts are its failed reviews, plus the times it
   * was retired with an unjudged attempt in hand, plus one if it holds an attempt now.
   */
  lemma AttemptLedger(g: Nodes, ops: seq<Op>, x: Id)
    requires Initial(g) && Run(g, ops) && x in Final(g, ops)
    ensures var n := Final(g, ops)[x];
      n.attempts == Fails(n.failures) + TimesRetired(g, ops, x) + if Active(n.status) then 1 else 0
  {
    hide Valid, Run, Final, Fails, TimesRetired;
    RunBalance(g, ops, x);
    if x in g {
      assert FreshNode(g[x]);
      NoFails();
    }
  }

  /** No reachable refund is clamped: whoever is refunded holds an attempt. */
  lemma RefundNeverClamped(g: Nodes, ops: seq<Op>, op: Op, x: Id)
    requires Initial(g) && Run(g, ops) && Accepted(Final(g, ops), op) && IsFail(op)
    requires x in op.affected && x in Final(g, ops) && Active(Final(g, ops)[x].status)
    ensures After(Final(g, ops), op).Keys == Final(g, ops).Keys
    ensures 0 <= After(Final(g, ops), op)[x].attempts == Final(g, ops)[x].attempts - 1
  {
    hide Valid, Run, Final, After, Accepted, AffectedBy;
    RunKeepsValid(g, ops);
    FailIsExactAndLocal(Final(g, ops), op);
    HoldsAttempt(Final(g, ops), x);
  }
}
