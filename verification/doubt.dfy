/** Recorded doubt: what the bounded trail keeps of every UNCERTAIN review that was displaced. */
module DoubtTrail {
  import opened Basics
  import opened Dependencies
  import opened Records
  import opened Operations
  import opened Guards
  import opened Runs

  // ----- the bound keeps the longest suffix -----

  lemma {:induction false} DropFits(h: seq<Doubt>, k: nat)
    requires Fits(h) && k <= |h|
    ensures Fits(h[k..])
    decreases k
  {
    if k == 0 {
      assert h[0..] == h;
    } else {
      assert Fits(h[1..]);
      assert h[1..][k - 1..] == h[k..];
      DropFits(h[1..], k - 1);
    }
  }

  /** Of all suffixes that meet both bounds, `Bounded` keeps the longest. */
  lemma {:induction false} BoundedIsLongest(log: seq<Doubt>, k: nat)
    requires k <= |log| && Fits(log[k..])
    ensures |log| - k <= |Bounded(log)|
    decreases |log|
  {
    if !Fits(log) {
      assert k != 0 by { assert log[0..] == log; }
      assert log[1..][k - 1..] == log[k..];
      BoundedIsLongest(log[1..], k - 1);
    }
  }

  /** Cutting early loses nothing the bound would have kept later. */
  lemma {:induction false} BoundedAbsorbs(log: seq<Doubt>, more: seq<Doubt>)
    ensures Bounded(Bounded(log) + more) == Bounded(log + more)
    decreases |log|
  {
    if !Fits(log) {
      assert (log + more)[1..] == log[1..] + more;
      if Fits(log + more) {
        PrefixFits(log, more);
        assert false;
      }
      BoundedAbsorbs(log[1..], more);
    }
  }

  lemma {:induction false} PrefixFits(log: seq<Doubt>, more: seq<Doubt>)
    ensures TrailBytes(log) <= TrailBytes(log + more)
    decreases |log|
  {
    if log == [] {
      assert log + more == more;
      AtLeastBrackets(more);
    } else {
      assert (log + more)[1..] == log[1..] + more;
      PrefixFits(log[1..], more);
      if |log| == 1 && more != [] {
        AtLeastBrackets(log[1..] + more);
      }
    }
  }

  lemma {:induction false} AtLeastBrackets(h: seq<Doubt>)
    ensures TrailBytes(h) >= 2
    decreases |h|
  {
    if |h| > 1 {
      AtLeastBrackets(h[1..]);
    }
  }

  // ----- the log of displaced doubt along a run -----

  /** The UNCERTAIN review of `x` that an accepted operation takes out of the live slot into the trail. */
  ghost function Displaced(g: Nodes, op: Op, x: Id): seq<Doubt> {
    if x in g && op.id == x && (op.Withdraw? || op.Verify?) && Doubtful(g[x]) then [DoubtOf(g[x])] else []
  }

  ghost function DoubtLog(g: Nodes, ops: seq<Op>, x: Id): seq<Doubt>
    requires Run(g, ops)
    decreases |ops|
  {
    if ops == [] then [] else Displaced(g, ops[0], x) + DoubtLog(After(g, ops[0]), ops[1..], x)
  }

  function Trail(g: Nodes, x: Id): seq<Doubt> {
    if x in g then g[x].doubts else []
  }

  lemma RewrittenTrail(g: Nodes, op: Op)
    requires Accepted(g, op) && !IsFail(op)
    ensures Rewritten(g, op).doubts == (var log := Trail(g, op.id) + Displaced(g, op, op.id);
      if Displaced(g, op, op.id) == [] then log else Bounded(log))
  {
    hide Bounded, Fits, ReviewerGuards, PassGuards, FailGuards, EvidenceOk, Covered, Distinct, Accepts, SameActor,
      ReviewOf;
  }

  lemma FailTrail(g: Nodes, op: Op, x: Id)
    requires Valid(g) && Accepted(g, op) && IsFail(op) && x in g
    ensures x in After(g, op)
    ensures After(g, op)[x].doubts == (var log := Trail(g, x) + Displaced(g, op, x);
      if Displaced(g, op, x) == [] then log else Bounded(log))
  {
    hide Valid, Enabled, After, Bounded, Reaches;
    FailStatuses(g, op);
    FailNode(g, op, x);
  }

  /** One step: the trail is the bound of itself and whatever the step displaced. */
  lemma StepTrail(g: Nodes, op: Op, x: Id)
    requires Valid(g) && Accepted(g, op) && Fits(Trail(g, x))
    ensures Trail(After(g, op), x) == Bounded(Trail(g, x) + Displaced(g, op, x))
  {
    hide Valid, Enabled, After, Rewritten, Displaced, Doubtful, Fits, TrailBytes;
    StepKeys(g, op);
    assert Trail(g, x) + [] == Trail(g, x);
    assert Bounded(Trail(g, x)) == Trail(g, x) by { FitsAlready(Trail(g, x)); }
    if x in After(g, op) {
      if IsFail(op) {
        FailTrail(g, op, x);
      } else if x == op.id {
        StepSelf(g, op);
        RewrittenTrail(g, op);
      } else {
        StepOther(g, op, x);
        NotDisplaced(g, op, x);
      }
    } else {
      NotDisplaced(g, op, x);
    }
  }

  lemma FitsAlready(h: seq<Doubt>)
    requires Fits(h)
    ensures Bounded(h) == h
  {
  }

  lemma NotDisplaced(g: Nodes, op: Op, x: Id)
    requires x != op.id || x !in g
    ensures Displaced(g, op, x) == []
  {
  }

  lemma Regroup(a: seq<Doubt>, b: seq<Doubt>, c: seq<Doubt>)
    ensures a + (b + c) == a + b + c
  {
  }

  lemma TrailJoins(trail: seq<Doubt>, now: seq<Doubt>, rest: seq<Doubt>, kept: seq<Doubt>)
    requires kept == Bounded(trail + now)
    ensures Bounded(kept + rest) == Bounded(trail + (now + rest))
  {
    hide Bounded;
    BoundedAbsorbs(trail + now, rest);
    Regroup(trail, now, rest);
  }

  lemma LogUnfolds(g: Nodes, ops: seq<Op>, x: Id)
    requires Run(g, ops)
    ensures ops == [] ==> Final(g, ops) == g && DoubtLog(g, ops, x) == []
    ensures ops != [] ==> Accepted(g, ops[0])
    ensures ops != [] ==> Run(After(g, ops[0]), ops[1..]) && Final(g, ops) == Final(After(g, ops[0]), ops[1..])
    ensures ops != [] ==> DoubtLog(g, ops, x) == Displaced(g, ops[0], x) + DoubtLog(After(g, ops[0]), ops[1..], x)
  {
    hide Enabled, After, Displaced;
  }

  lemma {:induction false} RunTrail(g: Nodes, ops: seq<Op>, x: Id)
    requires Valid(g) && Run(g, ops) && Fits(Trail(g, x))
    ensures Trail(Final(g, ops), x) == Bounded(Trail(g, x) + DoubtLog(g, ops, x))
    decreases |ops|
  {
    hide Valid, Enabled, After, Displaced, Fits, Trail, TrailBytes, Bounded, Final, DoubtLog, Run;
    LogUnfolds(g, ops, x);
    if ops == [] {
      assert Trail(g, x) + [] == Trail(g, x);
      FitsAlready(Trail(g, x));
    } else {
      var h := After(g, ops[0]);
      KeepsValid(g, ops[0]);
      StepTrail(g, ops[0], x);
      RunTrail(h, ops[1..], x);
      TrailJoins(Trail(g, x), Displaced(g, ops[0], x), DoubtLog(h, ops[1..], x), Trail(h, x));
    }
  }

  /** `kept` is a suffix of `log` within both bounds, and no longer suffix is. */
  ghost predicate LongestFitting(kept: seq<Doubt>, log: seq<Doubt>) {
    && |kept| <= |log| && kept == log[|log| - |kept|..] && Fits(kept)
    && forall k {:trigger log[k..]} | 0 <= k <= |log| && Fits(log[k..]) :: |log| - k <= |kept|
  }

  lemma BoundedIsLongestFitting(log: seq<Doubt>)
    ensures LongestFitting(Bounded(log), log)
  {
    hide Bounded, Fits;
    forall k | 0 <= k <= |log| && Fits(log[k..]) ensures |log| - k <= |Bounded(log)| {
      BoundedIsLongest(log, k);
    }
  }

  /** The length of a list in text: its brackets, its records, and two characters between each two. */
  function TextLength(h: seq<Doubt>): nat {
    if h == [] then 2 else TextLength(h[..|h| - 1]) + DoubtBytes(h[|h| - 1]) + if |h| > 1 then 2 else 0
  }

  lemma {:induction false} TrailBytesFirst(d: Doubt, h: seq<Doubt>)
    ensures TextLength([d] + h) == if h == [] then 2 + DoubtBytes(d) else TextLength(h) + 2 + DoubtBytes(d)
    decreases |h|
  {
    var all := [d] + h;
    if h == [] {
      assert all[..0] == [];
    } else {
      var front := h[..|h| - 1];
      assert all[..|all| - 1] == [d] + front;
      TrailBytesFirst(d, front);
    }
  }

  /** The two bounds on the history: 512 records, and 1048576 characters of text. */
  lemma {:induction false} FitsMeans(h: seq<Doubt>)
    ensures TrailBytes(h) == TextLength(h)
    ensures Fits(h) <==> |h| <= 512 && TextLength(h) <= 1048576
    decreases |h|
  {
    if h != [] {
      FitsMeans(h[1..]);
      TrailBytesFirst(h[0], h[1..]);
      assert [h[0]] + h[1..] == h;
    }
  }

  /** A node's review history is the longest suffix, within both bounds, of all the doubt ever displaced from it. */
  lemma TrailIsLongestSuffix(g: Nodes, ops: seq<Op>, x: Id)
    requires Initial(g) && Run(g, ops) && x in Final(g, ops)
    ensures LongestFitting(Final(g, ops)[x].doubts, DoubtLog(g, ops, x))
  {
    hide Valid, Run, Final, DoubtLog, Fits, LongestFitting;
    assert Trail(g, x) == [] by {
      if x in g { assert FreshNode(g[x]); }
    }
    assert Fits([]) by { EmptyFits(); }
    RunTrail(g, ops, x);
    var log := DoubtLog(g, ops, x);
    assert [] + log == log;
    BoundedIsLongestFitting(log);
  }

  // ----- what holds of every reachable node besides what validate checks -----

  /** A node that could be started has attempts left and no review; a submission awaiting review has its stamp. */
  predicate SoundNode(n: Node) {
    && (n.status.Blocked? || n.status.Ready? ==> n.attempts < n.maxAttempts && n.review.None?)
    && (n.status.Awaiting? ==> n.submitted)
  }

  predicate Sound(g: Nodes) {
    forall x {:trigger g[x]} | x in g :: SoundNode(g[x])
  }

  lemma RewrittenSound(g: Nodes, op: Op)
    requires Accepted(g, op) && !IsFail(op) && (op.id in g ==> SoundNode(g[op.id]))
    ensures SoundNode(Rewritten(g, op))
  {
    hide Bounded, PassGuards, EvidenceOk, Distinct, Structure, RuntimeOk;
    if op.AddNode? {
      FreshSound(g, op);
    }
  }

  lemma FreshSound(g: Nodes, op: Op)
    requires Enabled(g, op) && op.AddNode?
    ensures SoundNode(op.node)
  {
    hide Cyclic, RuntimeOk, EvidenceOk, DoubtsOk, Distinct;
    assert NodeOk(g[op.id := op.node][op.id]);
  }

  lemma StepSound(g: Nodes, op: Op)
    requires Valid(g) && Sound(g) && Accepted(g, op)
    ensures Sound(After(g, op))
  {
    hide Valid, Enabled, After, Rewritten, Reaches, Bounded;
    StepKeys(g, op);
    forall x | x in After(g, op) ensures SoundNode(After(g, op)[x]) {
      if IsFail(op) {
        FailStatuses(g, op);
        FailNode(g, op, x);
      } else if x == op.id {
        StepSelf(g, op);
        RewrittenSound(g, op);
      } else {
        StepOther(g, op, x);
      }
    }
  }

  lemma {:induction false} RunSound(g: Nodes, ops: seq<Op>)
    requires Valid(g) && Sound(g) && Run(g, ops)
    ensures Valid(Final(g, ops)) && Sound(Final(g, ops))
    decreases |ops|
  {
    hide Valid, Sound, Enabled, After;
    if ops != [] {
      KeepsValid(g, ops[0]);
      StepSound(g, ops[0]);
      RunSound(After(g, ops[0]), ops[1..]);
    }
  }

  lemma InitialSound(g: Nodes)
    requires Initial(g)
    ensures Sound(g)
  {
    hide Cyclic, EvidenceOk, DoubtsOk, Distinct;
    forall x | x in g ensures SoundNode(g[x]) {
      assert FreshNode(g[x]) && NodeOk(g[x]);
    }
  }

  lemma ReachableSound(g: Nodes)
    requires Reachable(g)
    ensures Valid(g) && Sound(g)
  {
    hide Valid, Sound, Final, Run, FreshNode;
    var start: Nodes, ops: seq<Op> :| Initial(start) && Run(start, ops) && Final(start, ops) == g;
    InitialSound(start);
    RunSound(start, ops);
  }

  /**
   * An UNCERTAIN review leaves the live slot only into the trail, by a withdrawal or a later verdict, or into
   * the attempt history, by a retry.
   */
  lemma DoubtIsNeverLost(g: Nodes, op: Op, x: Id)
    requires Valid(g) && Sound(g) && Accepted(g, op) && x in g && x in After(g, op)
    requires g[x].review.Some? && g[x].review.value.result.Uncertain?
    requires After(g, op)[x].review != g[x].review
    ensures Displaced(g, op, x) == [DoubtOf(g[x])]
      || (op == Retry(x) && After(g, op)[x].archive ==
        g[x].archive + [Attempt(g[x].attempts, g[x].evidence, g[x].review, g[x].failureReason)])
  {
    hide Valid, Enabled, After, Rewritten, Reaches, Bounded;
    if IsFail(op) {
      FailStatuses(g, op);
      FailNode(g, op, x);
      PassedOnly(g, op.j.Blames(op.id));
      assert SoundNode(g[x]);
    } else if x == op.id {
      StepSelf(g, op);
      RewrittenDoubt(g, op);
    } else {
      StepOther(g, op, x);
    }
  }

  lemma PassedOnly(g: Nodes, x: Id)
    requires Valid(g) && x in g
    ensures g[x].status.Verified? ==> g[x].review.Some? && g[x].review.value.result.Pass?
  {
    hide Structure, Stable, DepsSettled;
    assert RuntimeNode(g, g[x]);
  }

  lemma RewrittenDoubt(g: Nodes, op: Op)
    requires Sound(g) && Accepted(g, op) && !IsFail(op) && op.id in g
    requires g[op.id].review.Some? && g[op.id].review.value.result.Uncertain?
    ensures Rewritten(g, op).review == g[op.id].review
      || Displaced(g, op, op.id) == [DoubtOf(g[op.id])]
      || (op.Retry? && Rewritten(g, op).archive ==
            g[op.id].archive + [Attempt(g[op.id].attempts, g[op.id].evidence, g[op.id].review, g[op.id].failureReason)])
  {
    hide Bounded, PassGuards, EvidenceOk, Distinct, Accepts;
    assert SoundNode(g[op.id]);
  }
}
