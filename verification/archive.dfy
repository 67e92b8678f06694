/** Folding several graph documents, which may be copies or successors of one another, into one set of counts. */
module Archive {
  import opened Basics

  /** An evidence item; its summary is all that tells two apart. */
  datatype Item = Item(summary: string, kind: string)

  datatype Verification = Verification(
    result: string,
    reviewer: string,
    checked: seq<string>,
    failed: seq<string>,
    submitted: Option<seq<Item>>)

  /** A review with the evidence it saw. */
  datatype Review = Review(verification: Verification, evidence: seq<Item>)

  /** A node of a document. What is no object with an id, or no usable archived attempt, is passed over. */
  datatype Archived = Unusable | Archived(review: Review)
  datatype NodeDoc =
    | Malformed
    | NodeDoc(id: string, status: string, attempts: int, history: seq<Archived>, live: Option<Review>)
  datatype Document = Document(objective: string, nodes: seq<NodeDoc>)

  type Key = (string, string)
  datatype ReviewKey = ReviewKey(result: string, reviewer: string, checked: seq<string>, failed: seq<string>,
    summaries: seq<string>)

  function Summaries(items: seq<Item>): seq<string> {
    seq(|items|, i requires 0 <= i < |items| => items[i].summary)
  }

  /** `_review_key`. */
  function KeyOf(r: Review): ReviewKey {
    var v := r.verification;
    ReviewKey(v.result, v.reviewer, v.checked, v.failed, Summaries(r.evidence))
  }

  function Lower(s: string): string {
    seq(|s|, i requires 0 <= i < |s| => if 'A' <= s[i] <= 'Z' then s[i] - 'A' + 'a' else s[i])
  }

  predicate Finished(n: NodeDoc) {
    n.NodeDoc? && (n.status == "verified" || n.status == "superseded")
  }

  /** `_prefer`. */
  predicate Prefer(candidate: NodeDoc, existing: NodeDoc)
    requires candidate.NodeDoc? && existing.NodeDoc?
  {
    if Finished(candidate) != Finished(existing) then Finished(candidate) else candidate.attempts > existing.attempts
  }

  function HistoryOf(history: seq<Archived>): seq<Review> {
    if history == [] then []
    else HistoryOf(history[..|history| - 1])
         + match history[|history| - 1] { case Unusable => [] case Archived(r) => [r] }
  }

  function ReviewsOf(n: NodeDoc): seq<Review>
    requires n.NodeDoc?
  {
    HistoryOf(n.history) + if n.live.Some? then [n.live.value] else []
  }

  /** `_reviews`. */
  method Reviews(n: NodeDoc) returns (found: seq<Review>)
    requires n.NodeDoc?
    ensures found == ReviewsOf(n)
  {
    found := [];
    for i := 0 to |n.history|
      invariant found == HistoryOf(n.history[..i])
    {
      assert n.history[..i + 1][..i] == n.history[..i];
      if n.history[i].Archived? {
        found := found + [n.history[i].review];
      }
    }
    assert n.history[..|n.history|] == n.history;
    if n.live.Some? {
      found := found + [n.live.value];
    }
  }

  // ----- what the documents hold -----

  datatype Seen = Seen(key: Key, node: NodeDoc)

  function SeenIn(objective: string, nodes: seq<NodeDoc>): (r: seq<Seen>)
    ensures forall x | x in r :: x.node.NodeDoc?
  {
    if nodes == [] then []
    else
      var last := nodes[|nodes| - 1];
      SeenIn(objective, nodes[..|nodes| - 1]) + if last.NodeDoc? then [Seen((objective, last.id), last)] else []
  }

  function AllSeen(documents: seq<Document>): (r: seq<Seen>)
    ensures forall x | x in r :: x.node.NodeDoc?
  {
    if documents == [] then []
    else
      var last := documents[|documents| - 1];
      AllSeen(documents[..|documents| - 1]) + SeenIn(last.objective, last.nodes)
  }

  predicate Usable(seen: seq<Seen>) {
    forall x | x in seen :: x.node.NodeDoc?
  }

  /** The record kept for each node. */
  function Best(seen: seq<Seen>): (m: map<Key, NodeDoc>)
    requires Usable(seen)
    ensures forall k | k in m :: m[k].NodeDoc?
  {
    if seen == [] then map[]
    else
      var m, last := Best(seen[..|seen| - 1]), seen[|seen| - 1];
      assert last in seen;
      if last.key in m && !Prefer(last.node, m[last.key]) then m else m[last.key := last.node]
  }

  type Kept = map<Key, map<ReviewKey, Review>>

  function ReviewsAt(kept: Kept, key: Key): map<ReviewKey, Review> {
    if key in kept then kept[key] else map[]
  }

  function Keep(kept: Kept, key: Key, reviews: seq<Review>): Kept {
    if reviews == [] then kept
    else
      var front, last := Keep(kept, key, reviews[..|reviews| - 1]), reviews[|reviews| - 1];
      front[key := ReviewsAt(front, key)[KeyOf(last) := last]]
  }

  /** The reviews kept, of every copy of a node. */
  function Collected(seen: seq<Seen>): Kept
    requires Usable(seen)
  {
    if seen == [] then map[]
    else
      assert seen[|seen| - 1] in seen;
      Keep(Collected(seen[..|seen| - 1]), seen[|seen| - 1].key, ReviewsOf(seen[|seen| - 1].node))
  }

  function WithStatus(m: map<Key, NodeDoc>, status: string): set<Key> {
    set k | k in m && m[k].NodeDoc? && m[k].status == status
  }

  function WithAttempts(m: map<Key, NodeDoc>, attempts: int): set<Key> {
    set k | k in m && m[k].NodeDoc? && m[k].attempts == attempts
  }

  /** The kept reviews whose result reads, in lower case, as given. */
  function Judged(kept: Kept, result: string): set<(Key, ReviewKey)> {
    set k, r | k in kept && r in kept[k] && Lower(kept[k][r].verification.result) == result :: (k, r)
  }

  datatype Report = Report(total: nat, verified: nat, superseded: nat, histogram: map<int, nat>, passed: nat,
    failed: nat)

  /** The counts, said of the folded maps. */
  ghost predicate Reports(r: Report, m: map<Key, NodeDoc>, kept: Kept) {
    && r.total == |m|
    && r.verified == |WithStatus(m, "verified")| && r.superseded == |WithStatus(m, "superseded")|
    && (forall a: int :: a in r.histogram <==> WithAttempts(m, a) != {})
    && (forall a: int {:trigger r.histogram[a]} | a in r.histogram :: r.histogram[a] == |WithAttempts(m, a)|)
    && r.passed == |Judged(kept, "pass")| && r.failed == |Judged(kept, "fail")|
  }

  method KeepReviews(kept: Kept, key: Key, n: NodeDoc) returns (r: Kept)
    requires n.NodeDoc?
    ensures r == Keep(kept, key, ReviewsOf(n))
  {
    hide ReviewsOf;
    var reviews := Reviews(n);
    r := kept;
    for i := 0 to |reviews|
      invariant r == Keep(kept, key, reviews[..i])
    {
      assert reviews[..i + 1][..i] == reviews[..i];
      r := r[key := ReviewsAt(r, key)[KeyOf(reviews[i]) := reviews[i]]];
    }
    assert reviews[..|reviews|] == reviews;
  }

  lemma OneMoreSeen(seen: seq<Seen>, x: Seen)
    requires Usable(seen) && x.node.NodeDoc?
    ensures Usable(seen + [x])
    ensures Collected(seen + [x]) == Keep(Collected(seen), x.key, ReviewsOf(x.node))
    ensures var m := Best(seen);
      Best(seen + [x]) == if x.key in m && !Prefer(x.node, m[x.key]) then m else m[x.key := x.node]
  {
    hide Keep, ReviewsOf, Prefer;
    assert (seen + [x])[..|seen|] == seen;
  }

  /** The first half of `report_from_documents`: the fold. */
  method FoldDocuments(documents: seq<Document>) returns (byNode: map<Key, NodeDoc>, kept: Kept)
    ensures byNode == Best(AllSeen(documents)) && kept == Collected(AllSeen(documents))
  {
    hide Best, Collected, Keep, ReviewsOf, Prefer;
    byNode, kept := map[], map[];
    NothingSeen();
    for i := 0 to |documents|
      invariant byNode == Best(AllSeen(documents[..i])) && kept == Collected(AllSeen(documents[..i]))
    {
      assert documents[..i + 1][..i] == documents[..i];
      var document := documents[i];
      ghost var before := AllSeen(documents[..i]);
      assert before + SeenIn(document.objective, document.nodes[..0]) == before;
      for j := 0 to |document.nodes|
        invariant byNode == Best(before + SeenIn(document.objective, document.nodes[..j]))
        invariant kept == Collected(before + SeenIn(document.objective, document.nodes[..j]))
      {
        assert document.nodes[..j + 1][..j] == document.nodes[..j];
        var node := document.nodes[j];
        if node.NodeDoc? {
          var key := (document.objective, node.id);
          ghost var sofar := before + SeenIn(document.objective, document.nodes[..j]);
          OneMoreSeen(sofar, Seen(key, node));
          assert before + SeenIn(document.objective, document.nodes[..j + 1]) == sofar + [Seen(key, node)];
          kept := KeepReviews(kept, key, node);
          if key !in byNode || Prefer(node, byNode[key]) {
            byNode := byNode[key := node];
          }
        } else {
          assert SeenIn(document.objective, document.nodes[..j + 1]) == SeenIn(document.objective, document.nodes[..j]);
        }
      }
      assert document.nodes[..|document.nodes|] == document.nodes;
    }
    assert documents[..|documents|] == documents;
  }

  lemma NothingSeen()
    ensures Best([]) == map[] && Collected([]) == map[]
  {
  }

  // ----- counting -----

  lemma OneMoreCounted<T>(all: set<T>, done: set<T>, x: T)
    requires x !in done
    ensures |all * (done + {x})| == |all * done| + if x in all then 1 else 0
    ensures x in all ==> all * (done + {x}) != {}
    ensures x !in all ==> all * (done + {x}) == all * done
  {
    if x in all {
      assert all * (done + {x}) == all * done + {x};
      assert x in all * (done + {x});
    } else {
      assert all * (done + {x}) == all * done;
    }
  }

  lemma AllCounted<T>(all: set<T>, done: set<T>)
    requires all <= done
    ensures all * done == all
  {
  }

  ghost predicate Tallied(m: map<Key, NodeDoc>, done: set<Key>, histogram: map<int, nat>) {
    && (forall a: int {:trigger a in histogram} :: a in histogram <==> WithAttempts(m, a) * done != {})
    && (forall a: int {:trigger histogram[a]} | a in histogram :: histogram[a] == |WithAttempts(m, a) * done|)
  }

  lemma OneMoreTallied(m: map<Key, NodeDoc>, done: set<Key>, histogram: map<int, nat>, k: Key)
    requires Tallied(m, done, histogram) && k in m && m[k].NodeDoc? && k !in done
    ensures var a := m[k].attempts;
      Tallied(m, done + {k}, histogram[a := (if a in histogram then histogram[a] else 0) + 1])
  {
    var n := histogram[m[k].attempts := (if m[k].attempts in histogram then histogram[m[k].attempts] else 0) + 1];
    forall a: int
      ensures a in n <==> WithAttempts(m, a) * (done + {k}) != {}
      ensures a in n ==> n[a] == |WithAttempts(m, a) * (done + {k})|
    {
      OneMoreCounted(WithAttempts(m, a), done, k);
      assert a in histogram <==> WithAttempts(m, a) * done != {};
      assert WithAttempts(m, a) * done == {} ==> |WithAttempts(m, a) * done| == 0;
    }
  }

  method CountStatus(m: map<Key, NodeDoc>, status: string) returns (n: nat)
    requires forall k | k in m :: m[k].NodeDoc?
    ensures n == |WithStatus(m, status)|
  {
    n := 0;
    var todo := m.Keys;
    assert m.Keys - todo == {};
    while todo != {}
      invariant todo <= m.Keys
      invariant n == |WithStatus(m, status) * (m.Keys - todo)|
    {
      var k :| k in todo;
      assert m.Keys - (todo - {k}) == m.Keys - todo + {k};
      OneMoreCounted(WithStatus(m, status), m.Keys - todo, k);
      if m[k].status == status {
        n := n + 1;
      }
      todo := todo - {k};
    }
    AllCounted(WithStatus(m, status), m.Keys - todo);
  }

  method CountAttempts(m: map<Key, NodeDoc>) returns (histogram: map<int, nat>)
    requires forall k | k in m :: m[k].NodeDoc?
    ensures Tallied(m, m.Keys, histogram)
  {
    assert Tallied(m, {}, map[]);
    hide Tallied;
    histogram := map[];
    var todo := m.Keys;
    assert m.Keys - todo == {};
    while todo != {}
      invariant todo <= m.Keys
      invariant Tallied(m, m.Keys - todo, histogram)
    {
      var k :| k in todo;
      assert m.Keys - (todo - {k}) == m.Keys - todo + {k};
      OneMoreTallied(m, m.Keys - todo, histogram, k);
      var a := m[k].attempts;
      histogram := histogram[a := (if a in histogram then histogram[a] else 0) + 1];
      todo := todo - {k};
    }
    assert m.Keys - todo == m.Keys;
  }

  ghost predicate Visited(kept: Kept, keys: set<Key>, counted: set<(Key, ReviewKey)>) {
    forall k: Key, r: ReviewKey {:trigger (k, r) in counted} ::
      (k, r) in counted <==> k in keys && k in kept && r in kept[k]
  }

  method CountReviews(m: map<Key, NodeDoc>, kept: Kept) returns (passed: nat, failed: nat)
    requires kept.Keys <= m.Keys
    ensures passed == |Judged(kept, "pass")| && failed == |Judged(kept, "fail")|
  {
    hide Judged, Lower;
    passed, failed := 0, 0;
    var todo := m.Keys;
    ghost var counted: set<(Key, ReviewKey)> := {};
    while todo != {}
      invariant todo <= m.Keys && Visited(kept, m.Keys - todo, counted)
      invariant passed == |Judged(kept, "pass") * counted| && failed == |Judged(kept, "fail") * counted|
    {
      var k :| k in todo;
      var reviews := ReviewsAt(kept, k);
      var left := reviews.Keys;
      ghost var before := counted;
      while left != {}
        invariant left <= reviews.Keys
        invariant forall x: Key, r: ReviewKey {:trigger (x, r) in counted} ::
          (x, r) in counted <==> (x, r) in before || (x == k && r in reviews && r !in left)
        invariant passed == |Judged(kept, "pass") * counted| && failed == |Judged(kept, "fail") * counted|
      {
        var r :| r in left;
        OneMoreCounted(Judged(kept, "pass"), counted, (k, r));
        OneMoreCounted(Judged(kept, "fail"), counted, (k, r));
        JudgedMeans(kept, k, r);
        var result := Lower(reviews[r].verification.result);
        if result == "pass" {
          passed := passed + 1;
        } else if result == "fail" {
          failed := failed + 1;
        }
        counted := counted + {(k, r)};
        left := left - {r};
      }
      todo := todo - {k};
    }
    forall result, p | p in Judged(kept, result) ensures p in counted {
      JudgedMeans(kept, p.0, p.1);
      JudgedInside(kept, result, p);
    }
    AllCounted(Judged(kept, "pass"), counted);
    AllCounted(Judged(kept, "fail"), counted);
  }

  lemma JudgedMeans(kept: Kept, k: Key, r: ReviewKey)
    ensures k in kept && r in kept[k] ==>
      forall result :: (k, r) in Judged(kept, result) <==> Lower(kept[k][r].verification.result) == result
  {
    hide Lower;
  }

  lemma JudgedInside(kept: Kept, result: string, p: (Key, ReviewKey))
    requires p in Judged(kept, result)
    ensures p.0 in kept && p.1 in kept[p.0] && p == (p.0, p.1)
  {
  }

  /** `report_from_documents`. */
  method ReportFromDocuments(documents: seq<Document>) returns (r: Report)
    ensures Reports(r, Best(AllSeen(documents)), Collected(AllSeen(documents)))
  {
    hide Best, Collected, AllSeen, Judged, WithStatus, WithAttempts;
    var byNode, kept := FoldDocuments(documents);
    KeptNodes(AllSeen(documents));
    var verified := CountStatus(byNode, "verified");
    var superseded := CountStatus(byNode, "superseded");
    var histogram := CountAttempts(byNode);
    var passed, failed := CountReviews(byNode, kept);
    r := Report(|byNode|, verified, superseded, histogram, passed, failed);
    forall a: int ensures WithAttempts(byNode, a) * byNode.Keys == WithAttempts(byNode, a) {
      AttemptKeys(byNode, a);
    }
  }

  lemma AttemptKeys(m: map<Key, NodeDoc>, a: int)
    ensures WithAttempts(m, a) * m.Keys == WithAttempts(m, a)
  {
  }

  // ----- what the folded maps are -----

  ghost predicate HasKey(seen: seq<Seen>, k: Key) {
    exists x :: x in seen && x.key == k
  }

  ghost predicate HasReview(seen: seq<Seen>, k: Key, r: ReviewKey)
    requires Usable(seen)
  {
    exists x, v {:trigger v in ReviewsOf(x.node)} :: x in seen && x.key == k && v in ReviewsOf(x.node) && KeyOf(v) == r
  }

  /** No copy of a node is preferred to the one kept, which is one of them. */
  lemma {:induction false} BestIsBest(seen: seq<Seen>, k: Key)
    requires Usable(seen)
    ensures k in Best(seen) <==> HasKey(seen, k)
    ensures k in Best(seen) ==> Seen(k, Best(seen)[k]) in seen
    ensures k in Best(seen) ==> forall x | x in seen && x.key == k :: !Prefer(x.node, Best(seen)[k])
  {
    if seen != [] {
      var front, last := seen[..|seen| - 1], seen[|seen| - 1];
      assert seen == front + [last];
      assert last in seen;
      BestIsBest(front, k);
      if HasKey(front, k) {
        var x :| x in front && x.key == k;
        assert x in seen;
      }
    }
  }

  lemma {:induction false} KeepMeans(kept: Kept, key: Key, reviews: seq<Review>, k: Key, r: ReviewKey)
    ensures r in ReviewsAt(Keep(kept, key, reviews), k) <==>
      r in ReviewsAt(kept, k) || (k == key && exists v :: v in reviews && KeyOf(v) == r)
    ensures (r in ReviewsAt(kept, k) ==> KeyOf(ReviewsAt(kept, k)[r]) == r) ==>
      r in ReviewsAt(Keep(kept, key, reviews), k) ==> KeyOf(ReviewsAt(Keep(kept, key, reviews), k)[r]) == r
  {
    hide KeyOf, ReviewsAt;
    if reviews != [] {
      var front, last := reviews[..|reviews| - 1], reviews[|reviews| - 1];
      assert reviews == front + [last];
      KeepMeans(kept, key, front, k, r);
      KeepOne(Keep(kept, key, front), key, last, k);
      assert forall v :: v in reviews <==> v in front || v == last;
    }
  }

  lemma KeepOne(kept: Kept, key: Key, v: Review, k: Key)
    ensures ReviewsAt(kept[key := ReviewsAt(kept, key)[KeyOf(v) := v]], k) ==
      if k == key then ReviewsAt(kept, key)[KeyOf(v) := v] else ReviewsAt(kept, k)
  {
  }

  /** A review is kept exactly when some copy of its node carries it, and under its own key. */
  lemma {:induction false} CollectedMeans(seen: seq<Seen>, k: Key, r: ReviewKey)
    requires Usable(seen)
    ensures r in ReviewsAt(Collected(seen), k) <==> HasReview(seen, k, r)
    ensures r in ReviewsAt(Collected(seen), k) ==> KeyOf(ReviewsAt(Collected(seen), k)[r]) == r
  {
    assert ReviewsAt(Collected([]), k) == map[];
    hide KeyOf, Keep, ReviewsOf, ReviewsAt;
    if seen == [] {
    } else {
      var front, last := seen[..|seen| - 1], seen[|seen| - 1];
      assert seen == front + [last];
      assert last in seen;
      CollectedMeans(front, k, r);
      KeepMeans(Collected(front), last.key, ReviewsOf(last.node), k, r);
      if HasReview(front, k, r) {
        var x, v :| x in front && x.key == k && v in ReviewsOf(x.node) && KeyOf(v) == r;
        assert x in seen;
      }
      if HasReview(seen, k, r) {
        var x, v :| x in seen && x.key == k && v in ReviewsOf(x.node) && KeyOf(v) == r;
        if x in front {
          assert HasReview(front, k, r);
        }
      }
    }
  }

  lemma {:induction false} KeepKeys(kept: Kept, key: Key, reviews: seq<Review>)
    ensures Keep(kept, key, reviews).Keys <= kept.Keys + {key}
  {
    if reviews != [] {
      KeepKeys(kept, key, reviews[..|reviews| - 1]);
    }
  }

  lemma {:induction false} KeptNodes(seen: seq<Seen>)
    requires Usable(seen)
    ensures Collected(seen).Keys <= Best(seen).Keys
  {
    hide Keep, ReviewsOf;
    if seen != [] {
      assert seen[|seen| - 1] in seen;
      KeptNodes(seen[..|seen| - 1]);
      KeepKeys(Collected(seen[..|seen| - 1]), seen[|seen| - 1].key, ReviewsOf(seen[|seen| - 1].node));
    }
  }

  /** The judged reviews are those some copy carries with that result. */
  lemma JudgedIsSeen(seen: seq<Seen>, result: string, k: Key, r: ReviewKey)
    requires Usable(seen)
    ensures (k, r) in Judged(Collected(seen), result) <==> HasReview(seen, k, r) && Lower(r.result) == result
  {
    hide HasReview, Lower, Collected;
    CollectedMeans(seen, k, r);
  }

  // ----- order and repetition -----

  lemma {:induction false} SeenInMembers(objective: string, nodes: seq<NodeDoc>, x: Seen)
    ensures x in SeenIn(objective, nodes) <==> x.node.NodeDoc? && x.node in nodes && x.key == (objective, x.node.id)
  {
    if nodes != [] {
      SeenInMembers(objective, nodes[..|nodes| - 1], x);
      assert nodes == nodes[..|nodes| - 1] + [nodes[|nodes| - 1]];
    }
  }

  ghost predicate Holds(d: Document, x: Seen) {
    x.node.NodeDoc? && x.node in d.nodes && x.key == (d.objective, x.node.id)
  }

  lemma {:induction false} AllSeenMembers(documents: seq<Document>, x: Seen)
    ensures x in AllSeen(documents) <==> exists d :: d in documents && Holds(d, x)
  {
    hide Holds, SeenIn;
    if documents != [] {
      var front, last := documents[..|documents| - 1], documents[|documents| - 1];
      assert documents == front + [last];
      AllSeenMembers(front, x);
      SeenInMembers(last.objective, last.nodes, x);
      SeenHolds(last, x);
      if d :| d in front && Holds(d, x) {
        assert d in documents;
      }
    }
  }

  lemma SeenHolds(d: Document, x: Seen)
    ensures Holds(d, x) <==> x.node.NodeDoc? && x.node in d.nodes && x.key == (d.objective, x.node.id)
  {
  }

  /** Every document of `a` is among those of `b`. */
  ghost predicate Among(a: seq<Document>, b: seq<Document>) {
    forall d | d in a :: d in b
  }

  lemma MoreDocumentsSeeMore(a: seq<Document>, b: seq<Document>)
    requires Among(a, b)
    ensures forall x | x in AllSeen(a) :: x in AllSeen(b)
  {
    hide AllSeen, Holds;
    forall x | x in AllSeen(a) ensures x in AllSeen(b) {
      AllSeenMembers(a, x);
      AllSeenMembers(b, x);
    }
  }

  /** How good the kept record of a node is can only rise with more documents. */
  lemma KeptOnlyImproves(a: seq<Document>, b: seq<Document>, k: Key)
    requires Among(a, b) && k in Best(AllSeen(a))
    ensures k in Best(AllSeen(b))
    ensures !Prefer(Best(AllSeen(a))[k], Best(AllSeen(b))[k])
  {
    hide Best, AllSeen, Prefer, Among;
    MoreDocumentsSeeMore(a, b);
    BestIsBest(AllSeen(a), k);
    BestIsBest(AllSeen(b), k);
    var x := Seen(k, Best(AllSeen(a))[k]);
    assert x in AllSeen(b) && x.key == k;
  }

  lemma JudgedOnlyGrows(a: seq<Document>, b: seq<Document>, result: string)
    requires Among(a, b)
    ensures Judged(Collected(AllSeen(a)), result) <= Judged(Collected(AllSeen(b)), result)
  {
    hide Collected, AllSeen, Judged, Lower, Among;
    MoreDocumentsSeeMore(a, b);
    forall p | p in Judged(Collected(AllSeen(a)), result) ensures p in Judged(Collected(AllSeen(b)), result) {
      JudgedInside(Collected(AllSeen(a)), result, p);
      JudgedIsSeen(AllSeen(a), result, p.0, p.1);
      JudgedIsSeen(AllSeen(b), result, p.0, p.1);
      var x, v :| x in AllSeen(a) && x.key == p.0 && v in ReviewsOf(x.node) && KeyOf(v) == p.1;
      assert x in AllSeen(b);
    }
  }

  function FinishedIn(m: map<Key, NodeDoc>): set<Key> {
    set k | k in m && Finished(m[k])
  }

  /** A further document never lowers the number of nodes, of finished nodes, or of passed or failed reviews. */
  lemma MoreDocumentsNeverLower(a: seq<Document>, b: seq<Document>, ra: Report, rb: Report)
    requires Among(a, b)
    requires Reports(ra, Best(AllSeen(a)), Collected(AllSeen(a)))
    requires Reports(rb, Best(AllSeen(b)), Collected(AllSeen(b)))
    ensures ra.total <= rb.total && ra.passed <= rb.passed && ra.failed <= rb.failed
    ensures ra.verified + ra.superseded <= rb.verified + rb.superseded
  {
    hide Best, Collected, AllSeen, Judged, Among, WithStatus, WithAttempts, FinishedIn;
    var m, n := Best(AllSeen(a)), Best(AllSeen(b));
    JudgedOnlyGrows(a, b, "pass");
    JudgedOnlyGrows(a, b, "fail");
    SubsetCardinality(Judged(Collected(AllSeen(a)), "pass"), Judged(Collected(AllSeen(b)), "pass"));
    SubsetCardinality(Judged(Collected(AllSeen(a)), "fail"), Judged(Collected(AllSeen(b)), "fail"));
    FinishedOnlyGrows(a, b);
    FinishedCounts(m);
    FinishedCounts(n);
    SubsetCardinality(m.Keys, n.Keys);
    SubsetCardinality(FinishedIn(m), FinishedIn(n));
    assert |m| == |m.Keys| && |n| == |n.Keys|;
  }

  lemma FinishedOnlyGrows(a: seq<Document>, b: seq<Document>)
    requires Among(a, b)
    ensures Best(AllSeen(a)).Keys <= Best(AllSeen(b)).Keys
    ensures FinishedIn(Best(AllSeen(a))) <= FinishedIn(Best(AllSeen(b)))
  {
    hide Best, AllSeen, Among;
    forall k | k in Best(AllSeen(a))
      ensures k in Best(AllSeen(b)) && (Finished(Best(AllSeen(a))[k]) ==> Finished(Best(AllSeen(b))[k]))
    {
      KeptOnlyImproves(a, b, k);
    }
  }

  lemma FinishedCounts(m: map<Key, NodeDoc>)
    requires forall k | k in m :: m[k].NodeDoc?
    ensures |WithStatus(m, "verified")| + |WithStatus(m, "superseded")| == |FinishedIn(m)|
  {
    var v, s := WithStatus(m, "verified"), WithStatus(m, "superseded");
    assert v !! s;
    assert FinishedIn(m) == v + s;
  }

  lemma SameAttempts(a: seq<Document>, b: seq<Document>, n: int)
    requires Among(a, b) && Among(b, a)
    ensures WithAttempts(Best(AllSeen(a)), n) == WithAttempts(Best(AllSeen(b)), n)
  {
    hide Best, AllSeen, Among;
    forall k ensures k in WithAttempts(Best(AllSeen(a)), n) <==> k in WithAttempts(Best(AllSeen(b)), n) {
      if k in Best(AllSeen(a)) {
        KeptOnlyImproves(a, b, k);
      }
      if k in Best(AllSeen(b)) {
        KeptOnlyImproves(b, a, k);
      }
    }
  }

  /**
   * Neither the order of the documents nor their repetition changes the number of nodes, the histogram of
   * attempts, the number of finished nodes, or the passed and failed reviews.
   */
  lemma OrderAndRepetitionDoNotMatter(a: seq<Document>, b: seq<Document>, ra: Report, rb: Report)
    requires Among(a, b) && Among(b, a)
    requires Reports(ra, Best(AllSeen(a)), Collected(AllSeen(a)))
    requires Reports(rb, Best(AllSeen(b)), Collected(AllSeen(b)))
    ensures ra.total == rb.total && ra.histogram == rb.histogram && ra.passed == rb.passed && ra.failed == rb.failed
    ensures ra.verified + ra.superseded == rb.verified + rb.superseded
  {
    hide Best, Collected, AllSeen, Judged, Among, WithStatus, WithAttempts;
    MoreDocumentsNeverLower(a, b, ra, rb);
    MoreDocumentsNeverLower(b, a, rb, ra);
    forall n: int
      ensures n in ra.histogram <==> n in rb.histogram
      ensures n in ra.histogram && n in rb.histogram ==> ra.histogram[n] == rb.histogram[n]
    {
      SameAttempts(a, b, n);
    }
  }

  // ----- what does depend on the order -----

  /** No copy of the node is preferred to this one. */
  ghost predicate Unbeaten(seen: seq<Seen>, x: Seen)
    requires Usable(seen) && x.node.NodeDoc?
  {
    forall y {:trigger y.node} | y in seen && y.key == x.key :: !Prefer(y.node, x.node)
  }

  /** The first copy of a node, in a part of what was seen, that nothing in the whole beats. */
  ghost function Lead(part: seq<Seen>, seen: seq<Seen>, k: Key): (r: Option<Seen>)
    requires Usable(part) && Usable(seen)
    ensures r.Some? ==> r.value in part && r.value.key == k && r.value.node.NodeDoc? && Unbeaten(seen, r.value)
  {
    if part == [] then None
    else
      var last := part[|part| - 1];
      assert last in part;
      var earlier := Lead(part[..|part| - 1], seen, k);
      if earlier.Some? then earlier
      else if last.key == k && Unbeaten(seen, last) then Some(last)
      else None
  }

  lemma {:induction false} LeadFinds(part: seq<Seen>, seen: seq<Seen>, k: Key)
    requires Usable(part) && Usable(seen)
    ensures Lead(part, seen, k).None? ==> forall x | x in part && x.key == k :: !Unbeaten(seen, x)
  {
    hide Unbeaten;
    if part != [] {
      LeadFinds(part[..|part| - 1], seen, k);
      assert part == part[..|part| - 1] + [part[|part| - 1]];
    }
  }

  lemma {:induction false} LeadAppend(a: seq<Seen>, b: seq<Seen>, seen: seq<Seen>, k: Key)
    requires Usable(a) && Usable(b) && Usable(seen)
    ensures Lead(a + b, seen, k) == if Lead(a, seen, k).Some? then Lead(a, seen, k) else Lead(b, seen, k)
  {
    hide Unbeaten;
    if b == [] {
      assert a + b == a;
    } else {
      var front := b[..|b| - 1];
      assert Usable(front);
      LeadAppend(a, front, seen, k);
      assert (a + b)[..|a + b| - 1] == a + front;
    }
  }

  /** Beating is a matter of rank, so whoever is unbeaten beats all who are beaten. */
  lemma UnbeatenBeats(seen: seq<Seen>, x: Seen, m: Seen)
    requires Usable(seen) && x.node.NodeDoc? && m.node.NodeDoc? && x.key == m.key
    requires Unbeaten(seen, x) && !Unbeaten(seen, m)
    ensures Prefer(x.node, m.node)
  {
    var y :| y in seen && y.key == m.key && Prefer(y.node, m.node);
    assert !Prefer(y.node, x.node);
  }

  /** The fold keeps the lead of what it has seen, if the lead has come by. */
  lemma {:induction false} LeadIsKept(part: seq<Seen>, seen: seq<Seen>, k: Key)
    requires Usable(part) && Usable(seen) && forall x | x in part :: x in seen
    ensures var l := Lead(part, seen, k); l.Some? ==> k in Best(part) && Best(part)[k] == l.value.node
  {
    hide Prefer, Unbeaten;
    if part != [] {
      var front, last := part[..|part| - 1], part[|part| - 1];
      assert part == front + [last];
      assert last in part;
      LeadIsKept(front, seen, k);
      var l := Lead(front, seen, k);
      if l.Some? {
        NotBeatenBy(seen, l.value, last);
      } else if last.key == k && Unbeaten(seen, last) && k in Best(front) {
        BestIsBest(front, k);
        LeadFinds(front, seen, k);
        UnbeatenBeats(seen, last, Seen(k, Best(front)[k]));
      }
    }
  }

  lemma NotBeatenBy(seen: seq<Seen>, x: Seen, y: Seen)
    requires Usable(seen) && x.node.NodeDoc? && Unbeaten(seen, x) && y in seen
    ensures y.key == x.key ==> !Prefer(y.node, x.node)
  {
    hide Prefer;
  }

  /** The record kept for a node is the lead of everything seen. */
  lemma BestIsLead(seen: seq<Seen>, k: Key)
    requires Usable(seen)
    ensures Lead(seen, seen, k) == if k in Best(seen) then Some(Seen(k, Best(seen)[k])) else None
  {
    hide Prefer, Best, Lead, Usable;
    BestIsBest(seen, k);
    LeadIsKept(seen, seen, k);
    LeadFinds(seen, seen, k);
    if k in Best(seen) {
      KeptIsUnbeaten(seen, k);
    }
  }

  lemma KeptIsUnbeaten(seen: seq<Seen>, k: Key)
    requires Usable(seen) && k in Best(seen)
    ensures Unbeaten(seen, Seen(k, Best(seen)[k])) && Seen(k, Best(seen)[k]) in seen
  {
    hide Prefer, Best;
    BestIsBest(seen, k);
  }

  lemma {:induction false} LeadAmong(part: seq<Seen>, a: seq<Seen>, b: seq<Seen>, k: Key)
    requires Usable(part) && Usable(a) && Usable(b) && forall x :: x in a <==> x in b
    ensures Lead(part, a, k) == Lead(part, b, k)
  {
    hide Prefer;
    if part != [] {
      LeadAmong(part[..|part| - 1], a, b, k);
    }
  }

  ghost function LeadOf(d: Document, seen: seq<Seen>, k: Key): (r: Option<Seen>)
    requires Usable(seen)
    ensures r.Some? ==> r.value.key == k && r.value.node.NodeDoc?
  {
    Lead(SeenIn(d.objective, d.nodes), seen, k)
  }

  /** The lead of several documents is the lead of one of them. */
  lemma {:induction false} SomeDocumentLeads(documents: seq<Document>, seen: seq<Seen>, k: Key)
    requires Usable(seen)
    ensures var l := Lead(AllSeen(documents), seen, k);
      l.Some? ==> exists d {:trigger LeadOf(d, seen, k)} :: d in documents && LeadOf(d, seen, k) == l
  {
    assert Lead([], seen, k).None?;
    hide Lead, SeenIn;
    if documents == [] {
    } else {
      var front, last := documents[..|documents| - 1], documents[|documents| - 1];
      SomeDocumentLeads(front, seen, k);
      LeadAppend(AllSeen(front), SeenIn(last.objective, last.nodes), seen, k);
      if Lead(AllSeen(front), seen, k).Some? {
        var d :| d in front && LeadOf(d, seen, k) == Lead(AllSeen(front), seen, k);
        assert d in documents;
      } else {
        assert last in documents && LeadOf(last, seen, k) == Lead(AllSeen(documents), seen, k);
      }
    }
  }

  lemma {:induction false} SeenFirst(d: Document, documents: seq<Document>)
    ensures AllSeen([d] + documents) == SeenIn(d.objective, d.nodes) + AllSeen(documents)
  {
    hide SeenIn;
    if documents == [] {
      assert [d] + documents == [d] && [d][..0] == [];
      assert AllSeen([]) == [];
    } else {
      var front := documents[..|documents| - 1];
      assert ([d] + documents)[..|documents|] == [d] + front;
      SeenFirst(d, front);
    }
  }

  /** A document read first has its leads kept. */
  lemma FirstDocumentLeads(d: Document, documents: seq<Document>, k: Key)
    requires d in documents && LeadOf(d, AllSeen(documents), k).Some?
    ensures Among([d] + documents, documents) && Among(documents, [d] + documents)
    ensures k in Best(AllSeen([d] + documents))
    ensures Best(AllSeen([d] + documents))[k] == LeadOf(d, AllSeen(documents), k).value.node
  {
    hide Lead, SeenIn, AllSeen, Best;
    var b := [d] + documents;
    assert Among(b, documents) && Among(documents, b);
    MoreDocumentsSeeMore(b, documents);
    MoreDocumentsSeeMore(documents, b);
    SeenFirst(d, documents);
    LeadAppend(SeenIn(d.objective, d.nodes), AllSeen(documents), AllSeen(b), k);
    LeadAmong(SeenIn(d.objective, d.nodes), AllSeen(documents), AllSeen(b), k);
    BestIsLead(AllSeen(b), k);
  }

  /** Two documents do not lead with copies of one node that differ in status. */
  ghost predicate Agree(d: Document, e: Document, seen: seq<Seen>, k: Key)
    requires Usable(seen)
  {
    var x, y := LeadOf(d, seen, k), LeadOf(e, seen, k);
    x.Some? && y.Some? ==> x.value.node.status == y.value.node.status
  }

  ghost predicate NoTie(documents: seq<Document>) {
    forall d, e, k: Key {:trigger Agree(d, e, AllSeen(documents), k)} | d in documents && e in documents ::
      Agree(d, e, AllSeen(documents), k)
  }

  predicate SameStatuses(m: map<Key, NodeDoc>, n: map<Key, NodeDoc>) {
    m.Keys == n.Keys && forall k {:trigger m[k]} | k in m && m[k].NodeDoc? && n[k].NodeDoc? ::
      m[k].status == n[k].status
  }

  /** However the documents are ordered and repeated, every node is kept with the same status. */
  ghost predicate OrderFree(documents: seq<Document>) {
    forall b {:trigger Among(documents, b)} | Among(documents, b) && Among(b, documents) ::
      SameStatuses(Best(AllSeen(documents)), Best(AllSeen(b)))
  }

  /** The status of a kept record is that of the lead of some document. */
  lemma KeptFrom(a: seq<Document>, b: seq<Document>, k: Key) returns (d: Document)
    requires Among(a, b) && Among(b, a) && k in Best(AllSeen(b))
    ensures d in a && LeadOf(d, AllSeen(a), k) == Some(Seen(k, Best(AllSeen(b))[k]))
  {
    hide Lead, AllSeen, Best, SeenIn;
    MoreDocumentsSeeMore(a, b);
    MoreDocumentsSeeMore(b, a);
    BestIsLead(AllSeen(b), k);
    SomeDocumentLeads(b, AllSeen(b), k);
    d :| d in b && LeadOf(d, AllSeen(b), k) == Lead(AllSeen(b), AllSeen(b), k);
    LeadAmong(SeenIn(d.objective, d.nodes), AllSeen(a), AllSeen(b), k);
  }

  lemma NoTieIsEnough(a: seq<Document>, b: seq<Document>)
    requires NoTie(a) && Among(a, b) && Among(b, a)
    ensures SameStatuses(Best(AllSeen(a)), Best(AllSeen(b)))
  {
    hide Best, AllSeen, LeadOf;
    forall k ensures k in Best(AllSeen(a)) <==> k in Best(AllSeen(b)) {
      if k in Best(AllSeen(a)) {
        KeptOnlyImproves(a, b, k);
      }
      if k in Best(AllSeen(b)) {
        KeptOnlyImproves(b, a, k);
      }
    }
    forall k | k in Best(AllSeen(a)) ensures Best(AllSeen(a))[k].status == Best(AllSeen(b))[k].status {
      var d := KeptFrom(a, a, k);
      var e := KeptFrom(a, b, k);
      assert Agree(d, e, AllSeen(a), k);
    }
  }

  /**
   * The kept statuses, and with them the split into verified and superseded, are free of the order exactly when
   * no two documents lead with different statuses for one node.
   */
  lemma OrderFreeExactly(documents: seq<Document>)
    ensures OrderFree(documents) <==> NoTie(documents)
  {
    hide Best, AllSeen, LeadOf, Among, SameStatuses;
    if NoTie(documents) {
      forall b | Among(documents, b) && Among(b, documents)
        ensures SameStatuses(Best(AllSeen(documents)), Best(AllSeen(b)))
      {
        NoTieIsEnough(documents, b);
      }
    }
    if OrderFree(documents) {
      forall d, e, k: Key | d in documents && e in documents ensures Agree(d, e, AllSeen(documents), k) {
        LeadsWithStatus(documents, d, k);
        LeadsWithStatus(documents, e, k);
      }
    }
  }

  lemma LeadsWithStatus(documents: seq<Document>, d: Document, k: Key)
    requires OrderFree(documents) && d in documents
    ensures var x := LeadOf(d, AllSeen(documents), k);
      x.Some? ==> k in Best(AllSeen(documents)) && x.value.node.status == Best(AllSeen(documents))[k].status
  {
    hide Best, AllSeen, LeadOf, Among;
    if LeadOf(d, AllSeen(documents), k).Some? {
      FirstDocumentLeads(d, documents, k);
      assert SameStatuses(Best(AllSeen(documents)), Best(AllSeen([d] + documents)));
    }
  }

  /** Without a tie, the whole report is free of the order, split included. */
  lemma NoTieSameReport(a: seq<Document>, b: seq<Document>, ra: Report, rb: Report)
    requires NoTie(a) && Among(a, b) && Among(b, a)
    requires Reports(ra, Best(AllSeen(a)), Collected(AllSeen(a)))
    requires Reports(rb, Best(AllSeen(b)), Collected(AllSeen(b)))
    ensures ra == rb
  {
    hide Best, Collected, AllSeen, Judged, Among, WithStatus, WithAttempts, NoTie;
    OrderAndRepetitionDoNotMatter(a, b, ra, rb);
    NoTieIsEnough(a, b);
    SameSplit(Best(AllSeen(a)), Best(AllSeen(b)), "verified");
  }

  lemma SameSplit(m: map<Key, NodeDoc>, n: map<Key, NodeDoc>, status: string)
    requires SameStatuses(m, n) && (forall k | k in m :: m[k].NodeDoc?) && forall k | k in n :: n[k].NodeDoc?
    ensures WithStatus(m, status) == WithStatus(n, status)
  {
  }

  /** A tie: which of two finished records of one node is kept depends on the order. */
  lemma SplitDependsOnOrder()
    ensures var v := Document("o", [NodeDoc("n", "verified", 1, [], None)]);
      var s := Document("o", [NodeDoc("n", "superseded", 1, [], None)]);
      Best(AllSeen([v, s])) == map[("o", "n") := v.nodes[0]] && Best(AllSeen([s, v])) == map[("o", "n") := s.nodes[0]]
  {
    var v := Document("o", [NodeDoc("n", "verified", 1, [], None)]);
    var s := Document("o", [NodeDoc("n", "superseded", 1, [], None)]);
    TwoDocuments(v, s);
    TwoDocuments(s, v);
  }

  lemma TwoDocuments(a: Document, b: Document)
    requires |a.nodes| == 1 && |b.nodes| == 1 && a.nodes[0].NodeDoc? && b.nodes[0].NodeDoc?
    requires a.objective == b.objective && a.nodes[0].id == b.nodes[0].id && !Prefer(b.nodes[0], a.nodes[0])
    ensures Best(AllSeen([a, b])) == map[(a.objective, a.nodes[0].id) := a.nodes[0]]
  {
    hide Prefer;
    var x := Seen((a.objective, a.nodes[0].id), a.nodes[0]);
    var y := Seen((b.objective, b.nodes[0].id), b.nodes[0]);
    assert SeenIn(a.objective, []) == [];
    assert a.nodes[..0] == [] && b.nodes[..0] == [];
    assert SeenIn(a.objective, a.nodes) == [x] && SeenIn(b.objective, b.nodes) == [y];
    assert [a, b][..1] == [a] && [a][..0] == [];
    assert AllSeen([]) == [];
    assert AllSeen([a]) == [x];
    assert AllSeen([a, b]) == [x, y];
    assert [x, y][..1] == [x] && [x][..0] == [];
    assert Best([]) == map[];
    assert Best([x]) == map[x.key := x.node];
  }
}
