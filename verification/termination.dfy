/** How long a run over a fixed set of nodes can be. */
module Termination {
  import opened Basics
  import opened Dependencies
  import opened Records
  import opened Operations
  import opened Guards
  import opened Runs

  // ----- sums over the nodes -----

  /** The sum of a weight over the nodes with ids below `bound`. */
  function Total(g: Nodes, w: Node -> nat, bound: nat): nat {
    if bound == 0 then 0 else Total(g, w, bound - 1) + if bound - 1 in g then w(g[bound - 1]) else 0
  }

  predicate Within(g: Nodes, bound: nat) {
    forall x {:trigger x in g} | x in g :: x < bound
  }

  /** If one node's weight falls by `drop` and no other's rises, the total falls by as much. */
  lemma {:induction false} TotalFalls(g: Nodes, h: Nodes, w: Node -> nat, bound: nat, x: Id, drop: int)
    requires h.Keys == g.Keys && x in g && w(h[x]) + drop <= w(g[x])
    requires forall y {:trigger h[y]} | y in g && y != x :: w(h[y]) <= w(g[y])
    ensures Total(h, w, bound) + (if x < bound then drop else 0) <= Total(g, w, bound)
  {
    if bound > 0 {
      TotalFalls(g, h, w, bound - 1, x, drop);
      if bound - 1 in g && bound - 1 != x {
        assert w(h[bound - 1]) <= w(g[bound - 1]);
      }
    }
  }

  lemma {:induction false} TotalSame(g: Nodes, h: Nodes, w: Node -> nat, bound: nat)
    requires h.Keys == g.Keys && forall y {:trigger h[y]} | y in g :: w(h[y]) == w(g[y])
    ensures Total(h, w, bound) == Total(g, w, bound)
  {
    if bound > 0 {
      TotalSame(g, h, w, bound - 1);
    }
  }

  lemma {:induction false} TotalAtMost(g: Nodes, w: Node -> nat, bound: nat, each: nat)
    requires forall y {:trigger g[y]} | y in g :: w(g[y]) <= each
    ensures Total(g, w, bound) <= each * |g|
    decreases bound
  {
    if bound > 0 {
      var last := bound - 1;
      if last in g {
        OneFewer(g, last);
        WithoutLast(g, g - {last}, w, last);
        TotalAtMost(g - {last}, w, last, each);
        OneMoreTimes(each, |g - {last}|);
      } else {
        TotalAtMost(g, w, last, each);
      }
    }
  }

  lemma OneFewer(g: Nodes, last: Id)
    requires last in g
    ensures |g| == |g - {last}| + 1
    ensures forall y {:trigger (g - {last})[y]} | y in g - {last} :: y in g && (g - {last})[y] == g[y]
  {
    var rest := g - {last};
    assert g.Keys == rest.Keys + {last};
    assert |rest| == |rest.Keys| && |g| == |g.Keys|;
  }

  lemma OneMoreTimes(each: nat, n: nat)
    ensures each * (n + 1) == each * n + each
  {
  }

  lemma {:induction false} WithoutLast(g: Nodes, rest: Nodes, w: Node -> nat, bound: nat)
    requires forall y | y < bound :: (y in rest <==> y in g) && (y in g ==> rest[y] == g[y])
    ensures Total(rest, w, bound) == Total(g, w, bound)
  {
    if bound > 0 {
      WithoutLast(g, rest, w, bound - 1);
    }
  }

  // ----- the three weights -----

  /** Failures a node can still be blamed for. */
  function FailuresLeft(n: Node): nat {
    Max(0, MAX_ATTEMPTS - Fails(n.failures))
  }

  /** How far a node is from rest. Doubt on a submission sends it back, so it stands above running. */
  function Rank(n: Node): nat {
    match n.status
    case Failed => 6
    case Invalidated => 6
    case Blocked => 5
    case Ready => 4
    case Running => 2
    case Awaiting => if n.review.Some? then 3 else 1
    case Verified => 0
    case Superseded => 0
  }

  function GrantsLeft(n: Node): nat {
    Max(0, MAX_ATTEMPTS - n.maxAttempts)
  }

  /** Nodes never outspend their own record: it holds of every reachable graph. */
  ghost predicate Honest(g: Nodes) {
    forall x {:trigger g[x]} | x in g :: Balance(g[x]) >= 0
  }

  lemma StepHonest(g: Nodes, op: Op)
    requires Valid(g) && Honest(g) && Accepted(g, op)
    ensures Honest(After(g, op))
  {
    hide Valid, Enabled, Balance, After;
    forall x | x in After(g, op) ensures Balance(After(g, op)[x]) >= 0 {
      StepBalance(g, op, x);
    }
  }

  lemma FailsWithinLimit(g: Nodes, x: Id)
    requires Valid(g) && Honest(g) && x in g
    ensures Fails(g[x].failures) + (if Active(g[x].status) then 1 else 0) <= MAX_ATTEMPTS
  {
    hide Valid, Fails;
    HoldsAttempt(g, x);
    assert Balance(g[x]) >= 0;
  }

  // ----- what one operation does to each weight -----

  lemma OneNodeRank(g: Nodes, op: Op)
    requires Valid(g) && Accepted(g, op) && !IsFail(op) && !op.AddNode?
    ensures op.id in g
    ensures Rank(Rewritten(g, op)) <=
      Rank(g[op.id]) + (if IsUncertain(op) then 2 else if op.GrantAttempt? then 0 else -1)
  {
    hide Structure, FullyReviewed, PassGuards, DepsSettled, Bounded, EvidenceOk;
    assert RuntimeNode(g, g[op.id]);
  }

  lemma OneNodeBudgets(g: Nodes, op: Op)
    requires Valid(g) && Accepted(g, op) && !IsFail(op) && !op.AddNode?
    ensures op.id in g
    ensures FailuresLeft(Rewritten(g, op)) == FailuresLeft(g[op.id])
    ensures GrantsLeft(Rewritten(g, op)) == GrantsLeft(g[op.id]) - if op.GrantAttempt? then 1 else 0
  {
    hide Valid, Fails, PassGuards, DepsSettled, Bounded, EvidenceOk;
  }

  lemma SameWeightsReady(n: Node)
    requires n.status.Blocked?
    ensures FailuresLeft(n.(status := Ready)) == FailuresLeft(n)
    ensures GrantsLeft(n.(status := Ready)) == GrantsLeft(n)
    ensures Rank(n.(status := Ready)) <= Rank(n)
  {
    hide Fails;
  }

  /** Every operation but a FAIL, seen through the three totals. */
  lemma QuietStep(g: Nodes, op: Op, bound: nat)
    requires Valid(g) && Accepted(g, op) && !IsFail(op) && !op.AddNode? && Within(g, bound)
    ensures Total(After(g, op), FailuresLeft, bound) == Total(g, FailuresLeft, bound)
    ensures Total(After(g, op), GrantsLeft, bound) + (if op.GrantAttempt? then 1 else 0) <= Total(g, GrantsLeft, bound)
    ensures Total(After(g, op), Rank, bound) <=
      Total(g, Rank, bound) + (if IsUncertain(op) then 2 else if op.GrantAttempt? then 0 else -1)
  {
    hide Valid, Enabled, After, Rewritten, Rank, FailuresLeft, GrantsLeft, Total;
    var h := After(g, op);
    StepKeys(g, op);
    StepSelf(g, op);
    OneNodeRank(g, op);
    OneNodeBudgets(g, op);
    var n := Rewritten(g, op);
    if n.status.Blocked? {
      SameWeightsReady(n);
    }
    forall x | x in g && x != op.id
      ensures FailuresLeft(h[x]) == FailuresLeft(g[x])
      ensures GrantsLeft(h[x]) <= GrantsLeft(g[x]) && Rank(h[x]) <= Rank(g[x])
    {
      StepOther(g, op, x);
      if g[x].status.Blocked? {
        SameWeightsReady(g[x]);
      }
    }
    assert op.id < bound;
    TotalSame(g, h, FailuresLeft, bound);
    TotalFalls(g, h, GrantsLeft, bound, op.id, if op.GrantAttempt? then 1 else 0);
    TotalFalls(g, h, Rank, bound, op.id, if IsUncertain(op) then -2 else if op.GrantAttempt? then 0 else 1);
  }

  lemma FailWeights(g: Nodes, op: Op, x: Id)
    requires Valid(g) && Honest(g) && Accepted(g, op) && IsFail(op) && x in g
    ensures x in After(g, op) && op.j.Blames(op.id) in g
    ensures FailuresLeft(After(g, op)[x]) == FailuresLeft(g[x]) - if x == op.j.Blames(op.id) then 1 else 0
    ensures GrantsLeft(After(g, op)[x]) == GrantsLeft(g[x])
  {
    hide Valid, Enabled, After, Fails, Reaches, Bounded;
    FailStatuses(g, op);
    FailNode(g, op, x);
    FailsWithinLimit(g, x);
    var f := op.j.Blames(op.id);
    FailsAppend(g[x].failures, UpstreamInvalidation(f, g[x].status));
    FailsAppend(g[x].failures, VerificationFailure(op.id, g[x].attempts, op.j.reason.value, op.j.failed,
      op.j.BlamedCriteria(op.id), op.j.reviewer, op.affected));
  }

  lemma RankAtMost(g: Nodes, bound: nat)
    ensures Total(g, Rank, bound) <= 6 * |g|
  {
    TotalAtMost(g, Rank, bound, 6);
  }

  /** A FAIL spends one failure for good and takes no grant. */
  lemma FailStep(g: Nodes, op: Op, bound: nat)
    requires Valid(g) && Honest(g) && Accepted(g, op) && IsFail(op) && Within(g, bound)
    ensures After(g, op).Keys == g.Keys
    ensures Total(After(g, op), FailuresLeft, bound) + 1 <= Total(g, FailuresLeft, bound)
    ensures Total(After(g, op), GrantsLeft, bound) == Total(g, GrantsLeft, bound)
  {
    hide Valid, Honest, Enabled, After, Total, FailuresLeft, GrantsLeft;
    StepKeys(g, op);
    FailStatuses(g, op);
    var h := After(g, op);
    forall x | x in g
      ensures FailuresLeft(h[x]) == FailuresLeft(g[x]) - if x == op.j.Blames(op.id) then 1 else 0
      ensures GrantsLeft(h[x]) == GrantsLeft(g[x])
    {
      FailWeights(g, op, x);
    }
    TotalFalls(g, h, FailuresLeft, bound, op.j.Blames(op.id), 1);
    TotalSame(g, h, GrantsLeft, bound);
  }

  // ----- the measure -----

  /** The lexicographic measure -- failures left, then ranks and grants -- as one number. */
  function Potential(g: Nodes, bound: nat): nat {
    (6 * |g| + 1) * Total(g, FailuresLeft, bound) + Total(g, Rank, bound) + Total(g, GrantsLeft, bound)
  }

  lemma OneFailureFewer(size: nat, before: nat, after: nat)
    requires after + 1 <= before
    ensures (6 * size + 1) * after + 6 * size + 1 <= (6 * size + 1) * before
  {
    assert (6 * size + 1) * (after + 1) == (6 * size + 1) * after + 6 * size + 1;
    assert (6 * size + 1) * (before - after - 1) >= 0;
  }

  /** Every accepted operation but an UNCERTAIN verdict lowers the measure; that one raises it by at most two. */
  lemma PotentialFalls(g: Nodes, op: Op, bound: nat)
    requires Valid(g) && Honest(g) && Accepted(g, op) && !op.AddNode? && Within(g, bound)
    ensures After(g, op).Keys == g.Keys
    ensures Potential(After(g, op), bound) + 1 <= Potential(g, bound) + if IsUncertain(op) then 3 else 0
  {
    hide Valid, Honest, Enabled, After, Total, Rank, FailuresLeft, GrantsLeft;
    StepKeys(g, op);
    assert g.Keys + {op.id} == g.Keys;
    assert |After(g, op)| == |After(g, op).Keys| == |g.Keys| == |g|;
    if IsFail(op) {
      FailStep(g, op, bound);
      RankAtMost(After(g, op), bound);
      OneFailureFewer(|g|, Total(g, FailuresLeft, bound), Total(After(g, op), FailuresLeft, bound));
    } else {
      QuietStep(g, op, bound);
    }
  }

  function CountUncertain(ops: seq<Op>): nat {
    if ops == [] then 0 else CountUncertain(ops[1..]) + if IsUncertain(ops[0]) then 1 else 0
  }

  function CountFails(ops: seq<Op>): nat {
    if ops == [] then 0 else CountFails(ops[1..]) + if IsFail(ops[0]) then 1 else 0
  }

  /** The positions, from the k-th on, of verdicts with that result. */
  function VerdictsAt(ops: seq<Op>, k: nat, result: Verdict): set<int> {
    set i | k <= i < |ops| && ops[i].Verify? && ops[i].j.result == result
  }

  lemma OneMoreVerdict(ops: seq<Op>, k: nat, result: Verdict)
    requires k < |ops|
    ensures |VerdictsAt(ops, k, result)| ==
      |VerdictsAt(ops, k + 1, result)| + if ops[k].Verify? && ops[k].j.result == result then 1 else 0
  {
    var rest := VerdictsAt(ops, k + 1, result);
    if ops[k].Verify? && ops[k].j.result == result {
      assert VerdictsAt(ops, k, result) == rest + {k};
    } else {
      assert VerdictsAt(ops, k, result) == rest;
    }
  }

  lemma {:induction false} CountsFrom(ops: seq<Op>, k: nat)
    requires k <= |ops|
    ensures CountUncertain(ops[k..]) == |VerdictsAt(ops, k, Uncertain)|
    ensures CountFails(ops[k..]) == |VerdictsAt(ops, k, Fail)|
    decreases |ops| - k
  {
    if k == |ops| {
      assert VerdictsAt(ops, k, Uncertain) == {} && VerdictsAt(ops, k, Fail) == {};
    } else {
      hide VerdictsAt;
      CountsFrom(ops, k + 1);
      assert ops[k..][0] == ops[k] && ops[k..][1..] == ops[k + 1..];
      OneMoreVerdict(ops, k, Uncertain);
      OneMoreVerdict(ops, k, Fail);
    }
  }

  /** The two counts are numbers of positions in the run. */
  lemma CountsMean(ops: seq<Op>)
    ensures CountUncertain(ops) == |VerdictsAt(ops, 0, Uncertain)|
    ensures CountFails(ops) == |VerdictsAt(ops, 0, Fail)|
  {
    CountsFrom(ops, 0);
    assert ops[0..] == ops;
  }

  predicate FixedNodes(ops: seq<Op>) {
    forall op {:trigger op in ops} | op in ops :: !op.AddNode?
  }

  lemma FixedTail(ops: seq<Op>)
    requires ops != [] && FixedNodes(ops)
    ensures !ops[0].AddNode? && FixedNodes(ops[1..])
  {
    assert ops[0] in ops;
    forall op | op in ops[1..] ensures !op.AddNode? {
      assert op in ops;
    }
  }

  lemma {:induction false} RunIsShort(g: Nodes, ops: seq<Op>, bound: nat)
    requires Valid(g) && Honest(g) && Run(g, ops) && FixedNodes(ops) && Within(g, bound)
    ensures |ops| <= Potential(g, bound) + 3 * CountUncertain(ops)
    decreases |ops|
  {
    hide Valid, Honest, Enabled, After, Potential;
    if ops != [] {
      FixedTail(ops);
      PotentialFalls(g, ops[0], bound);
      KeepsValid(g, ops[0]);
      StepHonest(g, ops[0]);
      RunIsShort(After(g, ops[0]), ops[1..], bound);
    }
  }

  lemma {:induction false} FailsSpend(g: Nodes, ops: seq<Op>, bound: nat)
    requires Valid(g) && Honest(g) && Run(g, ops) && FixedNodes(ops) && Within(g, bound)
    ensures CountFails(ops) <= Total(g, FailuresLeft, bound)
    decreases |ops|
  {
    hide Valid, Honest, Enabled, After, Total, FailuresLeft;
    if ops != [] {
      FixedTail(ops);
      StepKeys(g, ops[0]);
      assert g.Keys + {ops[0].id} == g.Keys;
      if IsFail(ops[0]) {
        FailStep(g, ops[0], bound);
      } else {
        QuietStep(g, ops[0], bound);
      }
      KeepsValid(g, ops[0]);
      StepHonest(g, ops[0]);
      FailsSpend(After(g, ops[0]), ops[1..], bound);
    }
  }

  lemma SomeBound(g: Nodes) returns (bound: nat)
    ensures Within(g, bound)
    decreases |g|
  {
    if g == map[] {
      bound := 0;
    } else {
      var x :| x in g;
      var rest := map y | y in g && y != x :: g[y];
      assert g.Keys == rest.Keys + {x};
      assert |rest| == |rest.Keys| == |g.Keys| - 1;
      bound := SomeBound(rest);
      assert forall y | y in g :: y in rest || y == x;
      bound := if bound <= x then x + 1 else bound;
    }
  }

  lemma PotentialAtMost(g: Nodes, bound: nat)
    requires Valid(g)
    ensures Total(g, FailuresLeft, bound) <= MAX_ATTEMPTS * |g|
    ensures Potential(g, bound) <= (6 * |g| + 1) * (MAX_ATTEMPTS * |g|) + 6 * |g| + MAX_ATTEMPTS * |g|
  {
    hide FailuresLeft, GrantsLeft, Rank, Total;
    RankAtMost(g, bound);
    BudgetsAtMost(g, bound);
    var spare := MAX_ATTEMPTS * |g| - Total(g, FailuresLeft, bound);
    assert (6 * |g| + 1) * spare >= 0;
    assert (6 * |g| + 1) * (MAX_ATTEMPTS * |g|) ==
      (6 * |g| + 1) * Total(g, FailuresLeft, bound) + (6 * |g| + 1) * spare;
  }

  lemma BudgetsAtMost(g: Nodes, bound: nat)
    requires Valid(g)
    ensures Total(g, FailuresLeft, bound) <= MAX_ATTEMPTS * |g|
    ensures Total(g, GrantsLeft, bound) <= MAX_ATTEMPTS * |g|
  {
    hide Valid, Fails, Total;
    forall x | x in g ensures GrantsLeft(g[x]) <= MAX_ATTEMPTS {
      HoldsAttempt(g, x);
    }
    TotalAtMost(g, FailuresLeft, bound, MAX_ATTEMPTS);
    TotalAtMost(g, GrantsLeft, bound, MAX_ATTEMPTS);
  }

  /** Over a fixed set of nodes, at most MAX_ATTEMPTS failures per node can ever be accepted. */
  lemma FailsAreBounded(g: Nodes, ops: seq<Op>)
    requires Valid(g) && Honest(g) && Run(g, ops)
    requires forall op {:trigger op in ops} | op in ops :: !op.AddNode?
    ensures CountFails(ops) <= MAX_ATTEMPTS * |g|
  {
    hide Valid, Honest, Run, Total;
    var bound := SomeBound(g);
    FailsSpend(g, ops, bound);
    PotentialAtMost(g, bound);
  }

  /**
   * A run with no UNCERTAIN verdict is finite, with an explicit bound; each UNCERTAIN verdict buys three more steps.
   * Grants, retirements, withdrawals and retries are all allowed steps.
   */
  lemma RunsTerminate(g: Nodes, ops: seq<Op>)
    requires Valid(g) && Honest(g) && Run(g, ops)
    requires forall op {:trigger op in ops} | op in ops :: !op.AddNode?
    ensures |ops| <= (6 * |g| + 1) * (MAX_ATTEMPTS * |g|) + 6 * |g| + MAX_ATTEMPTS * |g| + 3 * CountUncertain(ops)
  {
    hide Valid, Honest, Run, Potential;
    var bound := SomeBound(g);
    RunIsShort(g, ops, bound);
    PotentialAtMost(g, bound);
  }

  lemma InitialHonest(g: Nodes)
    requires Initial(g)
    ensures Honest(g)
  {
    hide Valid, Fails;
    forall x | x in g ensures Balance(g[x]) >= 0 {
      assert FreshNode(g[x]);
      HoldsAttempt(g, x);
      NoFails();
    }
  }

  lemma {:induction false} RunHonest(g: Nodes, ops: seq<Op>)
    requires Valid(g) && Honest(g) && Run(g, ops)
    ensures Valid(Final(g, ops)) && Honest(Final(g, ops))
    decreases |ops|
  {
    hide Valid, Honest, Enabled, After;
    if ops != [] {
      KeepsValid(g, ops[0]);
      StepHonest(g, ops[0]);
      RunHonest(After(g, ops[0]), ops[1..]);
    }
  }

  lemma ReachableHonest(g: Nodes)
    requires Reachable(g)
    ensures Valid(g) && Honest(g)
  {
    hide Valid, Honest, Final, Run, FreshNode;
    var start: Nodes, ops: seq<Op> :| Initial(start) && Run(start, ops) && Final(start, ops) == g;
    InitialHonest(start);
    RunHonest(start, ops);
  }

  /** Both bounds hold from every reachable state on. */
  lemma ReachableRunsTerminate(g: Nodes, ops: seq<Op>)
    requires Reachable(g) && Run(g, ops)
    requires forall op {:trigger op in ops} | op in ops :: !op.AddNode?
    ensures CountFails(ops) <= MAX_ATTEMPTS * |g|
    ensures |ops| <= (6 * |g| + 1) * (MAX_ATTEMPTS * |g|) + 6 * |g| + MAX_ATTEMPTS * |g| + 3 * CountUncertain(ops)
  {
    hide Valid, Honest, Run, Reachable;
    ReachableHonest(g);
    FailsAreBounded(g, ops);
    RunsTerminate(g, ops);
  }
}
