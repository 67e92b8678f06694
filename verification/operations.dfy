/**
 * The named operations of `Graph`: for each, the checks it makes before it touches anything and the
 * document it has written when it calls `validate` at its end.
 */
module Operations {
  import opened Basics
  import opened Dependencies
  import opened Records

  // ----- start -----

  function ExecutorFor(n: Node, named: Option<Text>): Text {
    if named.Some? && named.value.length > 0 then named.value else n.role
  }

  predicate CanStart(g: Nodes, id: Id, named: Option<Text>) {
    && id in g && !ExecutorFor(g[id], named).Blank()
    && g[id].status.Ready? && g[id].attempts < g[id].maxAttempts
  }

  function Started(n: Node, executor: Text): Node {
    n.(status := Running, attempts := n.attempts + 1, executor := Some(executor), review := None, failureReason := None)
  }

  // ----- submit -----

  predicate CanSubmit(g: Nodes, id: Id, evidence: seq<Evidence>, actor: Option<Text>, context: Context) {
    && id in g && g[id].status.Running?
    && (actor.Some? ==> !actor.value.Blank() && SameActor(actor, g[id].executor))
    && EvidenceOk(evidence) && Covered(evidence) <= Elements(g[id].criteria)
    && context.sound
  }

  function Submitted(n: Node, evidence: seq<Evidence>, context: Context): Node {
    n.(evidence := evidence, context := context, status := Awaiting, submitted := true)
  }

  // ----- verify -----

  datatype Judgement = Judgement(
    result: Verdict,
    reviewer: Text,
    checked: Option<seq<Criterion>>,
    evidence: Option<seq<Evidence>>,
    reason: Option<Text>,
    faulty: Option<Id>,
    recommendation: Option<Text>,
    failed: seq<Criterion>,
    faultyCriteria: seq<Criterion>)
  {
    function Checked(): seq<Criterion> {
      if checked.Some? then checked.value else if result.Fail? then failed else []
    }

    function Items(): seq<Evidence> {
      if evidence.Some? then evidence.value else []
    }

    /** The node a FAIL blames. */
    function Blames(id: Id): Id {
      if faulty.Some? then faulty.value else id
    }

    function BlamedCriteria(id: Id): seq<Criterion> {
      if Blames(id) == id && faultyCriteria == [] then failed else faultyCriteria
    }

    /** An absent or empty recommendation of a FAIL is replaced by a stock sentence. */
    function Advice(id: Id): Option<Text> {
      if !result.Fail? then recommendation
      else if recommendation.Some? && recommendation.value.length > 0 then recommendation
      else Some(Text(Some(0), Blames(id), 256))
    }

    /** No label or sentence of the verdict is blank or over the text limit. */
    predicate TextFits() {
      && reviewer.InBound() && TextOk(reason)
      && (TextOk(recommendation) || (result.Fail? && recommendation.Some? && recommendation.value.length == 0))
    }
  }

  predicate HasReason(j: Judgement) {
    j.reason.Some? && !j.reason.value.Blank()
  }

  predicate ReviewerGuards(n: Node, j: Judgement) {
    && n.status.Awaiting?
    && !j.reviewer.Blank() && !SameActor(Some(j.reviewer), n.executor)
    && (j.result.Pass? ==> j.checked.Some?)
    && (!j.result.Uncertain? ==> j.evidence.Some?)
    && Distinct(j.Checked()) && Elements(j.Checked()) <= Elements(n.criteria)
    && Distinct(j.failed) && Elements(j.failed) <= Elements(n.criteria)
    && EvidenceOk(j.Items()) && Covered(j.Items()) <= Elements(n.criteria)
    && (!j.result.Fail? ==> j.faulty.None? && j.faultyCriteria == [])
  }

  predicate PassGuards(n: Node, j: Judgement) {
    Elements(j.Checked()) == Elements(n.criteria) == Covered(n.evidence) == Covered(j.Items())
  }

  ghost predicate FailGuards(g: Nodes, id: Id, j: Judgement) {
    var f := j.Blames(id);
    && HasReason(j)
    && f in g && (f != id ==> Reaches(EdgesOf(g), id, f) && g[f].status.Verified?)
    && !SameActor(Some(j.reviewer), g[f].executor)
    && j.BlamedCriteria(id) != [] && Distinct(j.BlamedCriteria(id))
    && Elements(j.BlamedCriteria(id)) <= Elements(g[f].criteria)
    && j.failed != []
    && j.Items() != [] && Elements(j.failed) <= Covered(j.Items())
  }

  ghost predicate CanVerify(g: Nodes, id: Id, j: Judgement) {
    && id in g && ReviewerGuards(g[id], j)
    && match j.result
       case Pass => PassGuards(g[id], j)
       case Uncertain => HasReason(j)
       case Fail => FailGuards(g, id, j)
  }

  /** The review record a verdict leaves; `affected` is filled in for a FAIL only. */
  function ReviewOf(id: Id, j: Judgement, affected: seq<Id>): Review {
    Review(j.result, j.reviewer, j.Checked(), j.Items(), j.reason,
      if j.result.Fail? then Some(j.Blames(id)) else None,
      j.Advice(id), j.failed,
      if j.result.Fail? then Some(j.BlamedCriteria(id)) else None, affected)
  }

  /** Whether the live review is doubt that a later verdict or a withdrawal must archive. */
  predicate Doubtful(n: Node) {
    n.review.Some? && n.review.value.result.Uncertain? && n.submitted
  }

  function DoubtOf(n: Node): Doubt
    requires n.review.Some?
  {
    Doubt(n.review.value, n.evidence, n.context)
  }

  /** `_archive_review`. */
  function Archived(n: Node): Node
    requires n.review.Some?
  {
    n.(doubts := Bounded(n.doubts + [DoubtOf(n)]))
  }

  /** `_record_verification`. */
  function WithReview(n: Node, r: Review): Node {
    (if Doubtful(n) then Archived(n) else n).(review := Some(r))
  }

  function Passed(n: Node, r: Review): Node {
    WithReview(n, r).(status := Verified, failureReason := None)
  }

  /** The node a FAIL blames: a reopened ancestor also loses its PASS. */
  function Blamed(n: Node, id: Id, f: Id, j: Judgement, affected: seq<Id>): Node
    requires j.reason.Some?
  {
    var reviewed := if f == id then WithReview(n, ReviewOf(id, j, affected)) else n.(review := None);
    reviewed.(status := Failed, failureReason := Some(Stated(j.reason.value)),
      failures := n.failures +
        [VerificationFailure(id, n.attempts, j.reason.value, j.failed, j.BlamedCriteria(id), j.reviewer, affected)])
  }

  function Max(a: int, b: int): int { if a < b then b else a }

  /** A dependent of the blamed node: skipped if already failed, else invalidated and refunded if it held an attempt. */
  function Discarded(n: Node, f: Id): Node {
    if n.status.Failed? then n
    else n.(
      failures := n.failures + [UpstreamInvalidation(f, n.status)],
      attempts := if Active(n.status) then Max(0, n.attempts - 1) else n.attempts,
      status := Invalidated,
      failureReason := Some(Upstream(f)))
  }

  ghost function AfterFail(g: Nodes, id: Id, j: Judgement, affected: seq<Id>): Nodes
    requires j.reason.Some?
  {
    var f := j.Blames(id);
    map x | x in g ::
      if x == f then Blamed(g[x], id, f, j, affected)
      else
        var n := if x == id then WithReview(g[x], ReviewOf(id, j, affected)) else g[x];
        if Reaches(EdgesOf(g), x, f) then Discarded(n, f) else n
  }

  /** The dependents a FAIL invalidates, in dependency order. */
  ghost predicate AffectedBy(g: Nodes, f: Id, affected: seq<Id>) {
    && Distinct(affected)
    && (forall x :: x in affected <==> x in g && Reaches(EdgesOf(g), x, f) && !g[x].status.Failed?)
    && InDependencyOrder(affected, EdgesOf(g))
  }

  // ----- withdraw, retry, grant, supersede, add -----

  predicate CanWithdraw(g: Nodes, id: Id, actor: Text) {
    && id in g && g[id].status.Awaiting?
    && g[id].review.Some? && g[id].review.value.result.Uncertain?
    && !actor.Blank() && SameActor(Some(actor), g[id].executor)
    && g[id].submitted
  }

  function Withdrawn(n: Node): Node
    requires n.review.Some?
  {
    Archived(n).(review := None, submitted := false, status := Running)
  }

  predicate CanRetry(g: Nodes, id: Id) {
    && id in g && (g[id].status.Failed? || g[id].status.Invalidated?)
    && g[id].attempts < g[id].maxAttempts
  }

  function Retried(g: Nodes, n: Node): Node {
    n.(archive := n.archive + [Attempt(n.attempts, n.evidence, n.review, n.failureReason)],
       evidence := [], review := None, executor := None, failureReason := None, submitted := false,
       status := if DepsSettled(g, n) then Ready else Blocked)
  }

  predicate CanGrant(g: Nodes, id: Id, grantor: Text, reason: Text) {
    && id in g && !grantor.Blank() && !reason.Blank()
    && (g[id].status.Failed? || g[id].status.Invalidated?)
    && g[id].maxAttempts < MAX_ATTEMPTS
  }

  function Granted(n: Node, grantor: Text, reason: Text): Node {
    n.(maxAttempts := n.maxAttempts + 1, grants := n.grants + [Grant(grantor, reason, n.attempts)])
  }

  predicate CanSupersede(g: Nodes, id: Id, reason: Text) {
    id in g && !reason.Blank() && !g[id].status.Verified? && !g[id].status.Superseded?
  }

  function Retired(n: Node, reason: Text): Node {
    n.(status := Superseded, retired := Some(reason))
  }

  /** A node as `add_node` and `init` create it. */
  function Fresh(description: Text, deps: seq<Id>, role: Text, criteria: seq<Criterion>, max: int): Node {
    Node(description, deps, role, criteria, Blocked, [], 0, max,
      None, None, None, Context([], true), false, [], [], [], [], None)
  }

  ghost predicate CanAdd(g: Nodes, id: Id, n: Node) {
    && id !in g && n == Fresh(n.description, n.dependsOn, n.role, n.criteria, n.maxAttempts)
    && Accepts(g[id := n])
  }

  // ----- one type for all of them -----

  datatype Op =
    | Start(id: Id, named: Option<Text>)
    | Submit(id: Id, evidence: seq<Evidence>, actor: Option<Text>, context: Context)
    | Verify(id: Id, j: Judgement, affected: seq<Id>)
    | Withdraw(id: Id, who: Text)
    | Retry(id: Id)
    | GrantAttempt(id: Id, grantor: Text, why: Text)
    | Supersede(id: Id, why: Text)
    | AddNode(id: Id, node: Node)

  predicate IsFail(op: Op) { op.Verify? && op.j.result.Fail? }
  predicate IsUncertain(op: Op) { op.Verify? && op.j.result.Uncertain? }

  /** The operation passes its own checks. `affected` is the list a FAIL goes on to compute. */
  ghost predicate Enabled(g: Nodes, op: Op) {
    match op
    case Start(id, named) => CanStart(g, id, named)
    case Submit(id, evidence, actor, context) => CanSubmit(g, id, evidence, actor, context)
    case Verify(id, j, affected) =>
      CanVerify(g, id, j) && (if j.result.Fail? then AffectedBy(g, j.Blames(id), affected) else affected == [])
    case Withdraw(id, who) => CanWithdraw(g, id, who)
    case Retry(id) => CanRetry(g, id)
    case GrantAttempt(id, grantor, why) => CanGrant(g, id, grantor, why)
    case Supersede(id, why) => CanSupersede(g, id, why)
    case AddNode(id, node) => CanAdd(g, id, node)
  }

  /** The new record of the node an operation other than a FAIL names. */
  ghost function Rewritten(g: Nodes, op: Op): Node
    requires Enabled(g, op) && !IsFail(op)
  {
    match op
    case Start(id, named) => Started(g[id], ExecutorFor(g[id], named))
    case Submit(id, evidence, _, context) => Submitted(g[id], evidence, context)
    case Verify(id, j, _) =>
      if j.result.Pass? then Passed(g[id], ReviewOf(id, j, [])) else WithReview(g[id], ReviewOf(id, j, []))
    case Withdraw(id, _) => Withdrawn(g[id])
    case Retry(id) => Retried(g, g[id])
    case GrantAttempt(id, grantor, why) => Granted(g[id], grantor, why)
    case Supersede(id, why) => Retired(g[id], why)
    case AddNode(_, node) => node
  }

  /** The document when the trailing `validate` is called. */
  ghost function Mutated(g: Nodes, op: Op): Nodes
    requires Enabled(g, op)
  {
    if IsFail(op) then AfterFail(g, op.id, op.j, op.affected) else g[op.id := Rewritten(g, op)]
  }

  /** The document after it: `validate` promotes. */
  ghost function After(g: Nodes, op: Op): Nodes
    requires Enabled(g, op)
  {
    Promote(Mutated(g, op))
  }

  predicate TextFits(op: Op) {
    op.Verify? ==> op.j.TextFits()
  }

  /** The operation runs to its end without raising. */
  ghost predicate Accepted(g: Nodes, op: Op) {
    Enabled(g, op) && TextFits(op)
  }
}
