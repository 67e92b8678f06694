/** What the folded counts say of the documents themselves, node by node and review by review. */
module Holdings {
  import opened Basics
  import opened Archive

  // ----- which record of a node is counted -----

  /** Some document holds this record of the node. */
  ghost predicate Copy(documents: seq<Document>, k: Key, n: NodeDoc) {
    n.NodeDoc? && n.id == k.1 && exists d :: d in documents && d.objective == k.0 && n in d.nodes
  }

  predicate Done(n: NodeDoc) {
    n.NodeDoc? && n.status in ["verified", "superseded"]
  }

  /** A copy no other one surpasses: finished if any copy is, and of those like it the one with most attempts. */
  ghost predicate Foremost(documents: seq<Document>, k: Key, n: NodeDoc) {
    && Copy(documents, k, n)
    && (!Done(n) ==> forall c | Copy(documents, k, c) :: !Done(c))
    && forall c | Copy(documents, k, c) && Done(c) == Done(n) :: c.attempts <= n.attempts
  }

  ghost predicate HasTop(documents: seq<Document>, k: Key, n: NodeDoc, attempts: int) {
    Foremost(documents, k, n) && n.attempts == attempts
  }

  lemma CopiesAreSeen(documents: seq<Document>, k: Key, n: NodeDoc)
    ensures Seen(k, n) in AllSeen(documents) <==> Copy(documents, k, n)
  {
    var x := Seen(k, n);
    hide AllSeen;
    AllSeenMembers(documents, x);
    if Copy(documents, k, n) {
      var d :| d in documents && d.objective == k.0 && n in d.nodes;
      assert Holds(d, x);
    }
    if x in AllSeen(documents) {
      var d :| d in documents && Holds(d, x);
      assert d in documents && d.objective == k.0 && n in d.nodes;
    }
  }

  lemma CopiesAreNodes(documents: seq<Document>, k: Key)
    ensures forall c | Copy(documents, k, c) :: c.NodeDoc?
  {
  }

  /** The record kept for a node is a foremost one, whatever the order of the documents. */
  lemma KeptIsForemost(documents: seq<Document>, k: Key)
    ensures var m := Best(AllSeen(documents));
      && (k in m <==> exists n :: Copy(documents, k, n))
      && (k in m ==> Foremost(documents, k, m[k]))
  {
    hide AllSeen, Best, Copy, HasKey;
    var seen, m := AllSeen(documents), Best(AllSeen(documents));
    BestIsBest(seen, k);
    if k in m {
      CopiesAreSeen(documents, k, m[k]);
      forall c | Copy(documents, k, c) && c.NodeDoc?
        ensures Done(c) ==> Done(m[k])
        ensures Done(c) == Done(m[k]) ==> c.attempts <= m[k].attempts
      {
        CopiesAreSeen(documents, k, c);
        NeverSurpassed(seen, k, c);
      }
      CopiesAreNodes(documents, k);
    }
    if n :| Copy(documents, k, n) {
      CopiesAreSeen(documents, k, n);
      SeenHasKey(seen, Seen(k, n));
    }
  }

  lemma SeenHasKey(seen: seq<Seen>, x: Seen)
    requires x in seen
    ensures HasKey(seen, x.key)
  {
  }

  lemma NeverSurpassed(seen: seq<Seen>, k: Key, c: NodeDoc)
    requires Usable(seen) && Seen(k, c) in seen && k in Best(seen) && c.NodeDoc?
    ensures Done(c) ==> Done(Best(seen)[k])
    ensures Done(c) == Done(Best(seen)[k]) ==> c.attempts <= Best(seen)[k].attempts
  {
    hide Best;
    BestIsBest(seen, k);
    var x := Seen(k, c);
    assert x.key == k && !Prefer(x.node, Best(seen)[k]);
  }

  /** Foremost copies of one node agree in what is counted of them. */
  lemma ForemostAgree(documents: seq<Document>, k: Key, a: NodeDoc, b: NodeDoc)
    requires Foremost(documents, k, a) && Foremost(documents, k, b)
    ensures Done(a) == Done(b) && a.attempts == b.attempts
  {
    hide Copy, Done;
  }

  // ----- the counts of nodes -----

  ghost predicate Reported(documents: seq<Document>, r: Report) {
    Reports(r, Best(AllSeen(documents)), Collected(AllSeen(documents)))
  }

  /** The histogram counts, for each number of attempts, the nodes whose foremost copies made that many. */
  lemma HistogramCounts(documents: seq<Document>, r: Report, attempts: int, keys: set<Key>)
    requires Reported(documents, r)
    requires forall k :: k in keys <==> exists n :: HasTop(documents, k, n, attempts)
    ensures attempts in r.histogram <==> keys != {}
    ensures attempts in r.histogram ==> r.histogram[attempts] == |keys|
  {
    hide AllSeen, Best, Foremost, Collected, Judged, WithStatus, WithAttempts;
    var m := Best(AllSeen(documents));
    forall k ensures k in keys <==> k in WithAttempts(m, attempts) {
      KeptAttempts(documents, k, attempts);
    }
    assert keys == WithAttempts(m, attempts);
  }

  lemma KeptAttempts(documents: seq<Document>, k: Key, attempts: int)
    ensures k in WithAttempts(Best(AllSeen(documents)), attempts) <==>
      exists n :: HasTop(documents, k, n, attempts)
  {
    hide AllSeen, Best, Foremost, Copy;
    var m := Best(AllSeen(documents));
    KeptIsForemost(documents, k);
    if k in m && m[k].attempts == attempts {
      assert HasTop(documents, k, m[k], attempts);
    }
    if n :| HasTop(documents, k, n, attempts) {
      ForemostIsCopy(documents, k, n);
      ForemostAgree(documents, k, n, m[k]);
    }
  }

  lemma ForemostIsCopy(documents: seq<Document>, k: Key, n: NodeDoc)
    requires Foremost(documents, k, n)
    ensures Copy(documents, k, n)
  {
    hide Copy;
  }

  /** The nodes counted are those some document holds, the finished ones those some document holds finished. */
  lemma NodesCounted(documents: seq<Document>, r: Report, keys: set<Key>, finished: set<Key>)
    requires Reported(documents, r)
    requires forall k :: k in keys <==> exists n :: Copy(documents, k, n)
    requires forall k :: k in finished <==> exists n :: Copy(documents, k, n) && Done(n)
    ensures r.total == |keys| && r.verified + r.superseded == |finished|
  {
    hide AllSeen, Best, Copy, Collected, Judged, WithStatus, WithAttempts, FinishedIn;
    var m := Best(AllSeen(documents));
    forall k
      ensures k in keys <==> k in m.Keys
      ensures k in finished <==> k in FinishedIn(m)
    {
      KeptIsForemost(documents, k);
      KeptFinished(documents, k);
    }
    assert keys == m.Keys && finished == FinishedIn(m);
    FinishedCounts(m);
  }

  lemma KeptFinished(documents: seq<Document>, k: Key)
    ensures k in FinishedIn(Best(AllSeen(documents))) <==> exists n :: Copy(documents, k, n) && Done(n)
  {
    hide AllSeen, Best, Copy;
    KeptIsForemost(documents, k);
    if k in Best(AllSeen(documents)) {
      ForemostIsCopy(documents, k, Best(AllSeen(documents))[k]);
    }
  }

  /**
   * The nodes counted with a status: all those whose foremost copies have no other, none of those no foremost copy
   * of which has it. What remains is a tie, and goes by the order of the documents.
   */
  lemma StatusCounted(documents: seq<Document>, r: Report, status: string, surely: set<Key>, maybe: set<Key>)
    requires Reported(documents, r) && status in ["verified", "superseded"]
    requires forall k :: k in surely <==>
      (exists n :: Copy(documents, k, n)) && forall n | Foremost(documents, k, n) :: n.status == status
    requires forall k :: k in maybe <==> exists n :: Foremost(documents, k, n) && n.status == status
    ensures |surely| <= (if status == "verified" then r.verified else r.superseded) <= |maybe|
  {
    hide AllSeen, Best, Foremost, Copy, Collected, Judged, WithAttempts;
    var m := Best(AllSeen(documents));
    forall k
      ensures k in surely ==> k in WithStatus(m, status)
      ensures k in WithStatus(m, status) ==> k in maybe
    {
      KeptIsForemost(documents, k);
    }
    SubsetCardinality(surely, WithStatus(m, status));
    SubsetCardinality(WithStatus(m, status), maybe);
  }

  // ----- which reviews are one -----

  /** The node carries the review: as its live one, or in a usable archived attempt. */
  predicate Carries(n: NodeDoc, v: Review) {
    n.NodeDoc? && (n.live == Some(v) || Archived(v) in n.history)
  }

  /** Two reviews are one: the same verdict by the same reviewer over evidence of the same summaries. */
  predicate OneReview(v: Review, w: Review) {
    && v.verification.result == w.verification.result && v.verification.reviewer == w.verification.reviewer
    && v.verification.checked == w.verification.checked && v.verification.failed == w.verification.failed
    && |v.evidence| == |w.evidence|
    && forall i | 0 <= i < |v.evidence| :: v.evidence[i].summary == w.evidence[i].summary
  }

  lemma KeysTellReviews(v: Review, w: Review)
    ensures KeyOf(v) == KeyOf(w) <==> OneReview(v, w)
  {
    var a, b := Summaries(v.evidence), Summaries(w.evidence);
    if a == b {
      forall i | 0 <= i < |v.evidence| ensures v.evidence[i].summary == w.evidence[i].summary {
        assert a[i] == b[i];
      }
    }
  }

  /** A result reads as the word in any mixture of cases. */
  predicate ReadsAs(result: string, word: string, upper: string) {
    |result| == |word| == |upper| && forall i | 0 <= i < |result| :: result[i] == word[i] || result[i] == upper[i]
  }

  predicate TwoCases(word: string, upper: string) {
    |word| == |upper| && forall i | 0 <= i < |word| :: 'a' <= word[i] <= 'z' && upper[i] == word[i] - 'a' + 'A'
  }

  lemma LowerOf(result: string, word: string, upper: string)
    requires TwoCases(word, upper)
    ensures Lower(result) == word <==> ReadsAs(result, word, upper)
  {
    if Lower(result) == word {
      forall i | 0 <= i < |result| ensures result[i] == word[i] || result[i] == upper[i] {
        assert Lower(result)[i] == word[i];
      }
    }
  }

  lemma {:induction false} HistoryMembers(history: seq<Archived>, v: Review)
    ensures v in HistoryOf(history) <==> Archived(v) in history
  {
    if history != [] {
      var front, last := history[..|history| - 1], history[|history| - 1];
      assert history == front + [last];
      HistoryMembers(front, v);
    }
  }

  lemma CarriedReviews(n: NodeDoc, v: Review)
    requires n.NodeDoc?
    ensures v in ReviewsOf(n) <==> Carries(n, v)
  {
    hide HistoryOf;
    HistoryMembers(n.history, v);
  }

  // ----- the counts of reviews -----

  /** Some copy of the node carries the review. */
  ghost predicate Carried(documents: seq<Document>, k: Key, v: Review) {
    exists n :: Copy(documents, k, n) && Carries(n, v)
  }

  /** No two of the chosen reviews of one node are one review. */
  ghost predicate AllApart(chosen: set<(Key, Review)>) {
    forall p, q | p in chosen && q in chosen && p.0 == q.0 && OneReview(p.1, q.1) :: p == q
  }

  /** One review of each kind: every passing (or failing) review some copy carries is one of these, and once. */
  ghost predicate Each(documents: seq<Document>, word: string, upper: string, chosen: set<(Key, Review)>) {
    && (forall p | p in chosen :: Carried(documents, p.0, p.1) && ReadsAs(p.1.verification.result, word, upper))
    && AllApart(chosen)
    && (forall k: Key, v: Review {:trigger Carried(documents, k, v)} |
          Carried(documents, k, v) && ReadsAs(v.verification.result, word, upper) ::
          exists w :: (k, w) in chosen && OneReview(v, w))
  }

  function KeyPair(p: (Key, Review)): (Key, ReviewKey) {
    (p.0, KeyOf(p.1))
  }

  function KeyPairs(chosen: set<(Key, Review)>): set<(Key, ReviewKey)> {
    set p | p in chosen :: KeyPair(p)
  }

  lemma {:induction false} DistinctPairs(chosen: set<(Key, Review)>)
    requires AllApart(chosen)
    ensures |KeyPairs(chosen)| == |chosen|
    decreases |chosen|
  {
    if chosen == {} {
      assert KeyPairs(chosen) == {};
    } else {
      hide KeyPairs, OneReview;
      var p :| p in chosen;
      DistinctPairs(chosen - {p});
      OnePairMore(chosen, p);
    }
  }

  lemma OnePairMore(chosen: set<(Key, Review)>, p: (Key, Review))
    requires AllApart(chosen) && p in chosen
    ensures var rest := KeyPairs(chosen - {p}); KeyPair(p) !in rest && KeyPairs(chosen) == rest + {KeyPair(p)}
  {
    hide KeyOf, OneReview;
    forall q | q in chosen - {p} ensures KeyPair(q) != KeyPair(p) {
      KeysTellReviews(q.1, p.1);
    }
  }

  lemma CarriedIsSeen(documents: seq<Document>, k: Key, r: ReviewKey)
    ensures HasReview(AllSeen(documents), k, r) <==> exists v :: Carried(documents, k, v) && KeyOf(v) == r
  {
    hide AllSeen, ReviewsOf, KeyOf, Carries, Copy;
    var seen := AllSeen(documents);
    if HasReview(seen, k, r) {
      var x, v :| x in seen && x.key == k && v in ReviewsOf(x.node) && KeyOf(v) == r;
      CopiesAreSeen(documents, k, x.node);
      CarriedReviews(x.node, v);
      assert Seen(k, x.node) == x;
      assert Carried(documents, k, v);
    }
    if v :| Carried(documents, k, v) && KeyOf(v) == r {
      var n :| Copy(documents, k, n) && Carries(n, v);
      CopiesAreSeen(documents, k, n);
      CarriedReviews(n, v);
      assert Seen(k, n) in seen;
    }
  }

  lemma ChosenAreJudged(documents: seq<Document>, word: string, upper: string, chosen: set<(Key, Review)>)
    requires TwoCases(word, upper) && Each(documents, word, upper, chosen)
    ensures KeyPairs(chosen) == Judged(Collected(AllSeen(documents)), word)
  {
    hide AllSeen, Collected, Judged, KeyPairs, Each, TwoCases;
    var judged := Judged(Collected(AllSeen(documents)), word);
    forall p: (Key, ReviewKey) ensures p in KeyPairs(chosen) <==> p in judged {
      JudgedIsSeen(AllSeen(documents), word, p.0, p.1);
      CarriedIsSeen(documents, p.0, p.1);
      ChosenByKey(documents, word, upper, chosen, p);
      assert (p.0, p.1) == p;
    }
  }

  lemma ChosenByKey(documents: seq<Document>, word: string, upper: string, chosen: set<(Key, Review)>,
      p: (Key, ReviewKey))
    requires TwoCases(word, upper) && Each(documents, word, upper, chosen)
    ensures p in KeyPairs(chosen) <==>
      (exists v :: Carried(documents, p.0, v) && KeyOf(v) == p.1) && Lower(p.1.result) == word
  {
    hide Carried, ReadsAs, OneReview, KeyOf, Lower, TwoCases;
    if p in KeyPairs(chosen) {
      var q :| q in chosen && KeyPair(q) == p;
      assert Carried(documents, p.0, q.1) && KeyOf(q.1) == p.1;
      ResultOfKey(q.1, p.1);
      LowerOf(p.1.result, word, upper);
    }
    if Lower(p.1.result) == word {
      LowerOf(p.1.result, word, upper);
      if v :| Carried(documents, p.0, v) && KeyOf(v) == p.1 {
        ResultOfKey(v, p.1);
        var w :| (p.0, w) in chosen && OneReview(v, w);
        KeysTellReviews(v, w);
        assert KeyPair((p.0, w)) == p;
      }
    }
  }

  lemma ResultOfKey(v: Review, r: ReviewKey)
    requires KeyOf(v) == r
    ensures r.result == v.verification.result
  {
  }

  /** Each passing and each failing review counts once, on however many copies of its node it stands. */
  lemma ReviewsCounted(documents: seq<Document>, r: Report, passes: set<(Key, Review)>, fails: set<(Key, Review)>)
    requires Reported(documents, r)
    requires Each(documents, "pass", "PASS", passes) && Each(documents, "fail", "FAIL", fails)
    ensures r.passed == |passes| && r.failed == |fails|
  {
    hide AllSeen, Best, Collected, Judged, WithStatus, WithAttempts, Carried, ReadsAs, OneReview;
    ChosenAreJudged(documents, "pass", "PASS", passes);
    ChosenAreJudged(documents, "fail", "FAIL", fails);
    DistinctPairs(passes);
    DistinctPairs(fails);
  }
}
