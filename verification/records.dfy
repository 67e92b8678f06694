/** What a task graph stores, and the checks `validate` makes on it. */
module Records {
  import opened Basics
  import opened Dependencies

  const MAX_NODES := 1000
  const MAX_DEPENDENCIES := 256
  const MAX_CRITERIA := 128
  const MAX_EVIDENCE := 512
  const MAX_TEXT := 32768
  const MAX_ATTEMPTS := 20
  const MAX_REVIEW_HISTORY_BYTES := 1048576

  /**
   * A string as the graph treats it: its stripped and case-folded form, absent when blank, and its length.
   * `spelling` tells apart strings that reduce to the same form.
   */
  datatype Text = Text(reduced: Option<nat>, spelling: nat, length: nat) {
    predicate Blank() { reduced.None? }
    predicate InBound() { reduced.Some? && length <= MAX_TEXT }
  }

  type Criterion = nat

  datatype Status = Blocked | Ready | Running | Awaiting | Verified | Failed | Invalidated | Superseded
  datatype Verdict = Pass | Fail | Uncertain

  predicate Settled(s: Status) { s.Verified? || s.Superseded? }

  /** The states that hold an attempt nobody has discarded or judged a failure. */
  predicate Active(s: Status) { s.Running? || s.Awaiting? || s.Verified? }

  datatype Evidence = Evidence(criterion: Criterion, kind: Text, summary: Text)

  /** `sound` is the verdict of the path checks on a review context. */
  datatype Context = Context(files: seq<nat>, sound: bool)

  datatype Review = Review(
    result: Verdict,
    reviewer: Text,
    checked: seq<Criterion>,
    evidence: seq<Evidence>,
    reason: Option<Text>,
    faulty: Option<Id>,
    recommendation: Option<Text>,
    failed: seq<Criterion>,
    faultyCriteria: Option<seq<Criterion>>,
    affected: seq<Id>)

  /** An UNCERTAIN review that left the live slot, with the submission it was about. */
  datatype Doubt = Doubt(review: Review, evidence: seq<Evidence>, context: Context)

  datatype Failure =
    | VerificationFailure(at: Id, attempt: int, reason: Text, failed: seq<Criterion>,
                          faultyCriteria: seq<Criterion>, reviewer: Text, affected: seq<Id>)
    | UpstreamInvalidation(upstream: Id, previous: Status)

  datatype Attempt = Attempt(number: int, evidence: seq<Evidence>, review: Option<Review>, why: Option<Cause>)
  datatype Cause = Stated(text: Text) | Upstream(node: Id)
  datatype Grant = Grant(grantor: Text, reason: Text, atAttempts: int)

  datatype Node = Node(
    description: Text,
    dependsOn: seq<Id>,
    role: Text,
    criteria: seq<Criterion>,
    status: Status,
    evidence: seq<Evidence>,
    attempts: int,
    maxAttempts: int,
    failureReason: Option<Cause>,
    executor: Option<Text>,
    review: Option<Review>,
    context: Context,
    submitted: bool,
    failures: seq<Failure>,
    archive: seq<Attempt>,
    doubts: seq<Doubt>,
    grants: seq<Grant>,
    retired: Option<Text>)

  type Nodes = map<Id, Node>

  /** What a document says beside its nodes. */
  datatype Header = Header(version: int, objective: Text) {
    predicate Ok() { version == 1 && objective.InBound() }
  }

  /** Two labels name the same actor; an absent or blank one never matches. */
  predicate SameActor(left: Option<Text>, right: Option<Text>) {
    left.Some? && right.Some? && left.value.reduced.Some? && left.value.reduced == right.value.reduced
  }

  // ----- per-record checks -----

  predicate EvidenceOk(items: seq<Evidence>) {
    |items| <= MAX_EVIDENCE && forall e | e in items :: e.kind.InBound() && e.summary.InBound()
  }

  function Covered(items: seq<Evidence>): set<Criterion> {
    set e | e in items :: e.criterion
  }

  predicate TextOk(t: Option<Text>) {
    t.Some? ==> t.value.InBound()
  }

  predicate CriteriaList(s: seq<Criterion>, expected: set<Criterion>) {
    Distinct(s) && |s| <= MAX_CRITERIA && Elements(s) <= expected
  }

  /** `_validate_verification`. */
  predicate ReviewOk(r: Review, expected: set<Criterion>) {
    && r.reviewer.InBound()
    && TextOk(r.reason) && TextOk(r.recommendation)
    && CriteriaList(r.checked, expected) && CriteriaList(r.failed, expected)
    && Distinct(r.affected) && |r.affected| <= MAX_NODES
    && EvidenceOk(r.evidence) && Covered(r.evidence) <= expected
    && (r.faultyCriteria.Some? ==> Distinct(r.faultyCriteria.value) && |r.faultyCriteria.value| <= MAX_CRITERIA)
    && match r.result
       case Pass => r.checked != [] && r.evidence != []
       case Uncertain => r.reason.Some?
       case Fail =>
         && r.reason.Some? && r.faulty.Some? && r.recommendation.Some?
         && r.failed != [] && r.faultyCriteria.Some? && r.faultyCriteria.value != []
         && r.evidence != [] && Elements(r.failed) <= Covered(r.evidence)
  }

  predicate DoubtOk(d: Doubt, expected: set<Criterion>) {
    ReviewOk(d.review, expected) && d.review.result.Uncertain? && EvidenceOk(d.evidence) && d.context.sound
  }

  predicate DoubtsOk(h: seq<Doubt>, expected: set<Criterion>) {
    |h| <= MAX_EVIDENCE && forall d | d in h :: DoubtOk(d, expected)
  }

  predicate LimitsOk(n: Node) {
    && Distinct(n.dependsOn) && |n.dependsOn| <= MAX_DEPENDENCIES
    && Distinct(n.criteria) && 0 < |n.criteria| <= MAX_CRITERIA
    && 0 <= n.attempts <= n.maxAttempts && 1 <= n.maxAttempts <= MAX_ATTEMPTS
  }

  /** `_validate_node`. */
  predicate NodeOk(n: Node) {
    && n.description.InBound() && n.role.InBound()
    && LimitsOk(n)
    && EvidenceOk(n.evidence)
    && (n.failureReason.Some? && n.failureReason.value.Stated? ==> !n.failureReason.value.text.Blank())
    && (n.executor.Some? ==> !n.executor.value.Blank())
    && (n.review.Some? ==> ReviewOk(n.review.value, Elements(n.criteria)))
    && (n.review.Some? ==> !SameActor(Some(n.review.value.reviewer), n.executor))
    && DoubtsOk(n.doubts, Elements(n.criteria))
    && n.context.sound
  }

  // ----- whole-graph checks -----

  function EdgesOf(g: Nodes): Edges {
    map id | id in g :: g[id].dependsOn
  }

  predicate Known(g: Nodes) {
    forall id, x {:trigger x in g[id].dependsOn} | id in g && x in g[id].dependsOn :: x in g && x != id
  }

  predicate NodesOk(g: Nodes) {
    forall id {:trigger g[id]} | id in g :: NodeOk(g[id])
  }

  /** Everything `validate` checks before it promotes. */
  ghost predicate Structure(g: Nodes) {
    0 < |g| <= MAX_NODES && NodesOk(g) && Known(g) && !Cyclic(EdgesOf(g))
  }

  predicate DepsSettled(g: Nodes, n: Node) {
    forall x | x in n.dependsOn :: x in g && Settled(g[x].status)
  }

  predicate FullyReviewed(n: Node) {
    && n.evidence != []
    && n.review.Some? && n.review.value.result.Pass?
    && !SameActor(Some(n.review.value.reviewer), n.executor)
    && Covered(n.evidence) == Elements(n.criteria)
    && Covered(n.review.value.evidence) == Elements(n.criteria) == Elements(n.review.value.checked)
  }

  /** One node's share of `_validate_runtime_consistency`. */
  predicate RuntimeNode(g: Nodes, n: Node) {
    && (n.status.Ready? ==> DepsSettled(g, n))
    && (Active(n.status) ==> DepsSettled(g, n) && n.attempts >= 1)
    && (n.status.Running? ==> n.review.None?)
    && (n.status.Awaiting? && n.review.Some? ==> n.review.value.result.Uncertain?)
    && (Active(n.status) ==> n.executor.Some? && !n.executor.value.Blank())
    && (n.status.Verified? ==> FullyReviewed(n))
  }

  predicate RuntimeOk(g: Nodes) {
    forall id {:trigger g[id]} | id in g :: RuntimeNode(g, g[id])
  }

  /** `_promote_blocked_nodes`: a blocked node whose dependencies are settled becomes ready. */
  function Promoted(g: Nodes, n: Node): Node {
    if n.status.Blocked? && DepsSettled(g, n) then n.(status := Ready) else n
  }

  function Promote(g: Nodes): (r: Nodes)
    ensures r.Keys == g.Keys
  {
    map id | id in g :: Promoted(g, g[id])
  }

  /** What `validate` accepts, and the state it leaves behind. */
  ghost predicate Accepts(g: Nodes) {
    Structure(g) && RuntimeOk(Promote(g))
  }

  predicate Stable(g: Nodes) {
    forall id {:trigger g[id]} | id in g :: g[id].status.Blocked? ==> !DepsSettled(g, g[id])
  }

  /** A graph as `Graph.__init__` and every accepted operation leave it. */
  ghost predicate Valid(g: Nodes) {
    Structure(g) && RuntimeOk(g) && Stable(g)
  }

  lemma PromoteSettles(g: Nodes, n: Node)
    ensures DepsSettled(Promote(g), n) <==> DepsSettled(g, n)
  {
  }

  lemma PromoteStable(g: Nodes)
    ensures Stable(Promote(g))
  {
    forall id | id in g ensures Promote(g)[id].status.Blocked? ==> !DepsSettled(Promote(g), Promote(g)[id]) {
      PromoteSettles(g, g[id]);
    }
  }

  lemma StablePromotes(g: Nodes)
    requires Stable(g)
    ensures Promote(g) == g
  {
  }

  lemma PromoteStructure(g: Nodes)
    requires Structure(g)
    ensures Structure(Promote(g))
  {
    assert EdgesOf(Promote(g)) == EdgesOf(g);
    assert |Promote(g)| == |Promote(g).Keys| == |g.Keys|;
    assert forall id | id in g :: NodeOk(g[id]) ==> NodeOk(Promoted(g, g[id]));
  }

  /** An accepted document, once promoted, satisfies the standing invariant. */
  lemma AcceptedIsValid(g: Nodes)
    requires Accepts(g)
    ensures Valid(Promote(g))
  {
    PromoteStructure(g);
    PromoteStable(g);
  }

  // ----- the bounded trail of doubt -----

  /** The length of one serialised record: any function of the record, since nothing but its being a size is used. */
  const DoubtBytes: Doubt -> nat

  /** The length of the list's serialised form: brackets, records and separators. */
  function TrailBytes(h: seq<Doubt>): nat {
    if h == [] then 2 else if |h| == 1 then 2 + DoubtBytes(h[0]) else TrailBytes(h[1..]) + 2 + DoubtBytes(h[0])
  }

  predicate Fits(h: seq<Doubt>) {
    |h| <= MAX_EVIDENCE && TrailBytes(h) <= MAX_REVIEW_HISTORY_BYTES
  }

  lemma EmptyFits()
    ensures Fits([])
  {
  }

  /** What the trail keeps of a log: drop from the front until the rest fits. */
  function Bounded(log: seq<Doubt>): (r: seq<Doubt>)
    ensures Fits(r) && |r| <= |log| && r == log[|log| - |r|..]
    decreases |log|
  {
    if Fits(log) then log
    else
      EmptyFits();
      assert log != [];
      Bounded(log[1..])
  }

  /** Validating a valid graph accepts it and changes nothing. */
  lemma ValidIsAccepted(g: Nodes)
    requires Valid(g)
    ensures Structure(g) && Accepts(g) && Promote(g) == g
  {
    hide Structure, RuntimeOk;
    StablePromotes(g);
  }
}
