/** What the statuses of a graph imply about each other, and what `_next_action` tells a caller to do. */
module Advice {
  import opened Basics
  import opened Dependencies
  import opened Records
  import opened Operations
  import opened Guards
  import opened Runs
  import opened DoubtTrail

  // ----- settled ancestors -----

  /** Every node strictly between the two ends of the walk is verified. */
  ghost predicate VerifiedInside(g: Nodes, p: seq<Id>) {
    forall i {:trigger p[i]} | 0 < i < |p| - 1 :: p[i] in g && g[p[i]].status.Verified?
  }

  predicate Going(s: Status) {
    s.Ready? || Active(s)
  }

  lemma GoingDeps(g: Nodes, x: Id)
    requires Valid(g) && x in g && Going(g[x].status)
    ensures DepsSettled(g, g[x])
  {
    hide Structure, Stable, DepsSettled;
    assert RuntimeNode(g, g[x]);
  }

  /** A node that is going has only settled ancestors, as far as the path to them runs through verified nodes. */
  lemma {:induction false} SettledAlongVerified(g: Nodes, p: seq<Id>)
    requires Valid(g) && Walk(EdgesOf(g), p) && p[0] in g && Going(g[p[0]].status)
    requires VerifiedInside(g, p)
    ensures p[|p| - 1] in g && Settled(g[p[|p| - 1]].status)
    decreases |p|
  {
    hide Valid;
    GoingDeps(g, p[0]);
    assert p[1] in g[p[0]].dependsOn;
    if |p| > 2 {
      assert p[1] in g && g[p[1]].status.Verified?;
      var q := p[1..];
      forall i | 0 < i < |q| - 1 ensures q[i] in g && g[q[i]].status.Verified? {
        assert q[i] == p[i + 1];
      }
      SettledAlongVerified(g, q);
    }
  }

  /** Every node above `x` is verified: what the comment on the review packet counts on. */
  ghost predicate VerifiedAbove(g: Nodes, x: Id) {
    forall a {:trigger Reaches(EdgesOf(g), x, a)} | Reaches(EdgesOf(g), x, a) :: a in g && g[a].status.Verified?
  }

  ghost predicate SettledAbove(g: Nodes, x: Id) {
    forall a {:trigger Reaches(EdgesOf(g), x, a)} | Reaches(EdgesOf(g), x, a) :: a in g && Settled(g[a].status)
  }

  ghost predicate NoneSupersededAbove(g: Nodes, x: Id) {
    forall a {:trigger Reaches(EdgesOf(g), x, a)} | Reaches(EdgesOf(g), x, a) :: a in g ==> !g[a].status.Superseded?
  }

  /** Whatever was superseded above `x` waits for nothing: its own dependencies are settled. */
  ghost predicate RetiredInOrder(g: Nodes, x: Id) {
    forall a {:trigger Reaches(EdgesOf(g), x, a)} | Reaches(EdgesOf(g), x, a) ::
      a in g && g[a].status.Superseded? ==> DepsSettled(g, g[a])
  }

  lemma {:induction false} SettledAlong(g: Nodes, p: seq<Id>)
    requires Valid(g) && Walk(EdgesOf(g), p) && p[0] in g && Going(g[p[0]].status) && RetiredInOrder(g, p[0])
    ensures p[|p| - 1] in g && Settled(g[p[|p| - 1]].status)
    decreases |p|
  {
    hide Valid, Reaches, RetiredInOrder;
    var q, m := p[..|p| - 1], p[|p| - 2];
    assert p[|p| - 1] in g[m].dependsOn;
    if |p| == 2 {
      GoingDeps(g, m);
    } else {
      SettledAlong(g, q);
      WalkReaches(g, q);
      if g[m].status.Verified? {
        GoingDeps(g, m);
      } else {
        RetiredDeps(g, p[0], m);
      }
    }
  }

  lemma WalkReaches(g: Nodes, p: seq<Id>)
    requires Walk(EdgesOf(g), p)
    ensures Reaches(EdgesOf(g), p[0], p[|p| - 1])
  {
    assert Joins(EdgesOf(g), p, p[0], p[|p| - 1]);
  }

  lemma RetiredDeps(g: Nodes, x: Id, a: Id)
    requires RetiredInOrder(g, x) && Reaches(EdgesOf(g), x, a) && a in g && g[a].status.Superseded?
    ensures DepsSettled(g, g[a])
  {
    hide Reaches, DepsSettled;
  }

  lemma SettledAt(g: Nodes, x: Id, a: Id)
    requires Valid(g) && x in g && Going(g[x].status) && RetiredInOrder(g, x) && Reaches(EdgesOf(g), x, a)
    ensures a in g && Settled(g[a].status)
  {
    hide Valid, RetiredInOrder;
    var p :| Joins(EdgesOf(g), p, x, a);
    SettledAlong(g, p);
  }

  /** All ancestors of a going node are settled if and only if each superseded one has its own dependencies settled. */
  lemma UpstreamIsSettled(g: Nodes, x: Id)
    requires Valid(g) && x in g && Going(g[x].status)
    ensures SettledAbove(g, x) <==> RetiredInOrder(g, x)
  {
    hide Structure, RuntimeOk, Stable, Reaches;
    if RetiredInOrder(g, x) {
      forall a | Reaches(EdgesOf(g), x, a) ensures a in g && Settled(g[a].status) {
        SettledAt(g, x, a);
      }
    }
    if SettledAbove(g, x) {
      forall a | Reaches(EdgesOf(g), x, a) && a in g ensures DepsSettled(g, g[a]) {
        forall y | y in g[a].dependsOn ensures y in g && Settled(g[y].status) {
          DepsInGraph(g, a, y);
          Step(EdgesOf(g), a, y);
          Transitive(EdgesOf(g), x, a, y);
        }
      }
    }
  }

  lemma DepsInGraph(g: Nodes, x: Id, y: Id)
    requires Valid(g) && x in g && y in g[x].dependsOn
    ensures x in EdgesOf(g) && y in EdgesOf(g) && y in EdgesOf(g)[x]
  {
    hide RuntimeOk, NodesOk, Stable;
  }

  /** All ancestors of a going node are verified, as a packet lists them, if and only if none of them is superseded. */
  lemma UpstreamIsVerified(g: Nodes, x: Id)
    requires Valid(g) && x in g && Going(g[x].status)
    ensures VerifiedAbove(g, x) <==> NoneSupersededAbove(g, x)
  {
    hide Valid, Reaches;
    UpstreamIsSettled(g, x);
  }

  function Task(deps: seq<Id>): Node {
    Fresh(Text(Some(0), 0, 1), deps, Text(Some(0), 0, 1), [0], 2)
  }

  /** A chain of three, as planned. */
  function Planned(): Nodes {
    map[0 := Task([]), 1 := Task([0]), 2 := Task([1])]
  }

  /** Its middle node is superseded before its own dependency is done, and the last one is worked on to a submission. */
  function Bypassing(): seq<Op> {
    [Supersede(1, Voice(0)), Start(2, None), Submit(2, [], None, Context([], true))]
  }

  /** The plan as loaded, after the first operation, after the second, and after the last. */
  function Loaded(): Nodes {
    map[0 := Task([]).(status := Ready), 1 := Task([0]), 2 := Task([1])]
  }

  function Skipped(): Nodes {
    map[0 := Task([]).(status := Ready), 1 := Retired(Task([0]), Voice(0)), 2 := Task([1]).(status := Ready)]
  }

  function Begun(): Nodes {
    map[0 := Task([]).(status := Ready), 1 := Retired(Task([0]), Voice(0)), 2 := Started(Task([1]), Task([1]).role)]
  }

  function Bypassed(): Nodes {
    map[0 := Task([]).(status := Ready), 1 := Retired(Task([0]), Voice(0)),
        2 := Submitted(Started(Task([1]), Task([1]).role), [], Context([], true))]
  }

  lemma PlannedEdges()
    ensures EdgesOf(Planned()) == map[0 := [], 1 := [0], 2 := [1]] == EdgesOf(Bypassed())
  {
  }

  lemma ChainOrder()
    ensures Topological([0, 1, 2], map[0 := [], 1 := [0], 2 := [1]])
  {
    var d: Edges, o: seq<Id> := map[0 := [], 1 := [0], 2 := [1]], [0, 1, 2];
    assert Elements(o) == d.Keys;
    assert o[..1] == [0] && o[..2] == [0, 1];
  }

  lemma PlannedAcyclic()
    ensures !Cyclic(EdgesOf(Planned())) && Reaches(EdgesOf(Planned()), 2, 0)
  {
    hide Planned, EdgesOf, Cyclic, Topological, Reaches;
    PlannedEdges();
    ChainOrder();
    var d := EdgesOf(Planned());
    OrderExcludesCycles(d, [0, 1, 2]);
    Step(d, 2, 1);
    Step(d, 1, 0);
    Transitive(d, 2, 1, 0);
  }

  lemma TaskOk(deps: seq<Id>)
    requires |deps| <= 1
    ensures NodeOk(Task(deps)) && Task(deps).dependsOn == deps && Task(deps).status.Blocked?
  {
    assert Elements([0]) == {0};
  }

  lemma PlannedPromotes()
    ensures Promote(Planned()) == Loaded()
  {
    var g := Planned();
    assert DepsSettled(g, g[0]) && !DepsSettled(g, g[1]) && !DepsSettled(g, g[2]);
  }

  lemma PlannedStructure()
    ensures Structure(Planned())
  {
    hide Cyclic, NodeOk, EdgesOf, Reaches, Task;
    var g := Planned();
    PlannedAcyclic();
    assert |g| == 3 by { assert g.Keys == {0, 1, 2}; }
    TaskOk([]);
    TaskOk([0]);
    TaskOk([1]);
  }

  lemma LoadedRuntime()
    ensures RuntimeOk(Loaded())
  {
    hide FullyReviewed;
    assert DepsSettled(Loaded(), Loaded()[0]);
  }

  lemma LoadedIsInitial()
    ensures Initial(Loaded())
  {
    hide Structure, RuntimeOk, Valid, Promote, Initial;
    PlannedPromotes();
    PlannedStructure();
    LoadedRuntime();
    FreshDocumentIsInitial(Planned());
  }

  lemma Skips()
    ensures Accepted(Loaded(), Bypassing()[0]) && After(Loaded(), Bypassing()[0]) == Skipped()
  {
    var h := Loaded()[1 := Retired(Task([0]), Voice(0))];
    assert DepsSettled(h, h[2]);
    hide CanStart, CanSubmit, CanVerify, CanWithdraw, CanRetry, CanGrant, CanAdd, DepsSettled;
  }

  lemma Begins()
    ensures Accepted(Skipped(), Bypassing()[1]) && After(Skipped(), Bypassing()[1]) == Begun()
  {
    hide CanSubmit, CanVerify, CanWithdraw, CanRetry, CanGrant, CanAdd, CanSupersede, DepsSettled;
  }

  lemma Submits()
    ensures Accepted(Begun(), Bypassing()[2]) && After(Begun(), Bypassing()[2]) == Bypassed()
  {
    hide CanStart, CanVerify, CanWithdraw, CanRetry, CanGrant, CanAdd, CanSupersede, DepsSettled;
    assert Covered([]) == {};
  }

  lemma BypassingRuns()
    ensures Run(Loaded(), Bypassing()) && Final(Loaded(), Bypassing()) == Bypassed()
  {
    hide Accepted, Enabled, After, Loaded, Skipped, Begun, Bypassed;
    Skips();
    Begins();
    Submits();
    var ops := Bypassing();
    assert ops[1..] == [ops[1], ops[2]] && ops[1..][1..] == [ops[2]] && ops[1..][1..][1..] == [];
  }

  /**
   * The condition is needed: a run from a plan to a graph where the awaiting node has an unfinished ancestor,
   * past one that was superseded with its reason.
   */
  lemma SupersededBreaksIt()
    ensures Promote(Planned()) == Loaded() && Initial(Loaded())
    ensures Run(Loaded(), Bypassing()) && Final(Loaded(), Bypassing()) == Bypassed() && Valid(Bypassed())
    ensures Bypassed()[2].status.Awaiting? && Bypassed()[1].retired.Some? && !SettledAbove(Bypassed(), 2)
  {
    hide Valid, Run, Final, Reaches, EdgesOf, FreshNode, Promote, Loaded;
    PlannedPromotes();
    LoadedIsInitial();
    BypassingRuns();
    RunKeepsValid(Loaded(), Bypassing());
    PlannedEdges();
    PlannedAcyclic();
    assert Reaches(EdgesOf(Bypassed()), 2, 0);
  }

  // ----- no deadlock -----

  ghost predicate Complete(g: Nodes) {
    forall x {:trigger g[x]} | x in g :: Settled(g[x].status)
  }

  /** In every incomplete graph some unsettled node waits for nothing, and it is not blocked. */
  lemma NoDeadlock(g: Nodes) returns (x: Id)
    requires Valid(g) && !Complete(g)
    ensures x in g && !Settled(g[x].status) && DepsSettled(g, g[x]) && !g[x].status.Blocked?
  {
    hide Cyclic, RuntimeOk, NodesOk;
    var left := set y | y in g && !Settled(g[y].status);
    var y :| y in g && !Settled(g[y].status);
    assert y in left;
    x := MinimalMember(EdgesOf(g), left);
    forall z | z in g[x].dependsOn ensures z in g && Settled(g[z].status) {
      assert z in EdgesOf(g)[x];
      assert z !in left;
    }
  }

  // ----- the advice -----

  datatype NextAction =
    | WaitFor(pending: seq<Id>)
    | DoStart
    | DoSubmit
    | DoWithdraw
    | DoVerify
    | Escalate
    | DoRetry
    | NoAction

  function PendingOf(g: Nodes, deps: seq<Id>): (r: seq<Id>)
    ensures forall x :: x in r <==> x in deps && !(x in g && Settled(g[x].status))
  {
    if deps == [] then []
    else
      assert deps == [deps[0]] + deps[1..];
      (if deps[0] in g && Settled(g[deps[0]].status) then [] else [deps[0]]) + PendingOf(g, deps[1..])
  }

  /** `_next_action`. */
  function Next(g: Nodes, n: Node): NextAction {
    match n.status
    case Blocked => WaitFor(PendingOf(g, n.dependsOn))
    case Ready => DoStart
    case Running => DoSubmit
    case Awaiting => if n.review.Some? && n.review.value.result.Uncertain? then DoWithdraw else DoVerify
    case Failed => if n.attempts >= n.maxAttempts then Escalate else DoRetry
    case Invalidated => if n.attempts >= n.maxAttempts then Escalate else DoRetry
    case Verified => NoAction
    case Superseded => NoAction
  }

  function Voice(k: nat): Text { Text(Some(k), 0, 4) }

  /** A label that names somebody else. */
  function Stranger(n: Node): Text {
    if n.executor == Some(Voice(0)) || SameActor(Some(Voice(0)), n.executor) then Voice(1) else Voice(0)
  }

  lemma StrangerIsOther(n: Node)
    ensures !SameActor(Some(Stranger(n)), n.executor) && !Stranger(n).Blank()
  {
  }

  function Undecided(n: Node): Judgement {
    Judgement(Uncertain, Stranger(n), None, None, Some(Voice(7)), None, None, [], [])
  }

  lemma UndecidedAccepted(g: Nodes, x: Id)
    requires x in g && g[x].status.Awaiting?
    ensures Accepted(g, Verify(x, Undecided(g[x]), []))
  {
    StrangerIsOther(g[x]);
    assert Elements<Criterion>([]) == {};
    assert Covered([]) == {};
  }

  /** The same verdict with a reason over the limit. */
  function Overlong(n: Node): Judgement {
    Undecided(n).(reason := Some(Text(Some(7), 0, MAX_TEXT + 1)))
  }

  /** On every node under review there is a verdict that passes its own checks, is written, and is then refused. */
  lemma WrittenThenRefused(g: Nodes, x: Id)
    requires Valid(g) && x in g && g[x].status.Awaiting?
    ensures var op := Verify(x, Overlong(g[x]), []);
      Enabled(g, op) && !Accepted(g, op) && !Accepts(Mutated(g, op)) && Mutated(g, op) != g
  {
    hide Valid, Accepts, Bounded;
    StrangerIsOther(g[x]);
    assert Elements<Criterion>([]) == {};
    assert Covered([]) == {};
    var op := Verify(x, Overlong(g[x]), []);
    TrailingValidate(g, op);
    NotOnRecord(g, x);
  }

  lemma NotOnRecord(g: Nodes, x: Id)
    requires Valid(g) && x in g
    ensures g[x].review.Some? ==> TextOk(g[x].review.value.reason)
  {
    hide Cyclic, Known, RuntimeOk, EvidenceOk, DoubtsOk, LimitsOk, CriteriaList;
    assert NodeOk(g[x]);
  }

  /** One such input: the awaiting node of the chain above, under an UNCERTAIN verdict. */
  lemma BypassedIsRefused()
    ensures Valid(Bypassed()) && Bypassed()[2].status.Awaiting?
    ensures var op := Verify(2, Overlong(Bypassed()[2]), []);
      Enabled(Bypassed(), op) && !Accepts(Mutated(Bypassed(), op))
  {
    hide Valid, Accepts, Enabled, Mutated, Overlong, Run, Final, Promote, Initial;
    SupersededBreaksIt();
    WrittenThenRefused(Bypassed(), 2);
  }

  /** The action named for a node can be taken: its guard passes for some arguments. */
  ghost predicate CanTake(g: Nodes, x: Id, a: NextAction) {
    match a
    case WaitFor(pending) => pending != []
    case DoStart => exists named :: CanStart(g, x, named)
    case DoSubmit => exists items, actor, context :: CanSubmit(g, x, items, actor, context)
    case DoWithdraw => exists who :: CanWithdraw(g, x, who)
    case DoVerify => exists j :: CanVerify(g, x, j)
    case Escalate => exists why :: CanSupersede(g, x, why)
    case DoRetry => CanRetry(g, x)
    case NoAction => x in g && Settled(g[x].status)
  }

  /** In every sound graph, and so in every reachable one, the advice given for each node can be followed. */
  lemma AdviceIsTruthful(g: Nodes, x: Id)
    requires Valid(g) && Sound(g) && x in g
    ensures CanTake(g, x, Next(g, g[x]))
  {
    hide Structure, DepsSettled, FullyReviewed, Known;
    var n := g[x];
    assert RuntimeNode(g, n) && SoundNode(n);
    match n.status
    case Blocked => BlockedPends(g, x);
    case Ready => RoleNamed(g, x); assert CanStart(g, x, None);
    case Running => EmptySubmission(g, x);
    case Awaiting =>
      if n.review.Some? {
        assert SameActor(n.executor, n.executor);
        assert CanWithdraw(g, x, n.executor.value);
      } else {
        UndecidedAccepted(g, x);
        assert CanVerify(g, x, Undecided(n));
      }
    case Failed => assert CanSupersede(g, x, Voice(0));
    case Invalidated => assert CanSupersede(g, x, Voice(0));
    case _ =>
  }

  lemma ReachableAdvice(g: Nodes, x: Id)
    requires Reachable(g) && x in g
    ensures CanTake(g, x, Next(g, g[x]))
  {
    hide Valid, Sound, Reachable, CanTake, Next;
    ReachableSound(g);
    AdviceIsTruthful(g, x);
  }

  lemma BlockedPends(g: Nodes, x: Id)
    requires Valid(g) && x in g && g[x].status.Blocked?
    ensures PendingOf(g, g[x].dependsOn) != []
  {
    hide Structure, RuntimeOk;
    assert !DepsSettled(g, g[x]);
    var y :| y in g[x].dependsOn && !(y in g && Settled(g[y].status));
    assert y in PendingOf(g, g[x].dependsOn);
  }

  lemma RoleNamed(g: Nodes, x: Id)
    requires Valid(g) && x in g
    ensures !ExecutorFor(g[x], None).Blank()
  {
    hide Cyclic, Known, RuntimeOk, LimitsOk, EvidenceOk, DoubtsOk;
    assert NodeOk(g[x]);
  }

  lemma EmptySubmission(g: Nodes, x: Id)
    requires x in g && g[x].status.Running?
    ensures exists items, actor, context :: CanSubmit(g, x, items, actor, context)
  {
    assert Covered([]) == {};
    assert CanSubmit(g, x, [], None, Context([], true));
  }
}
