/**
 * Session starts that decide, under one lock, which bypass to announce, and claim it in the journal before
 * saying it, while every other writer appends to the same journal without the lock.
 */
module Claim {
  import opened Basics
  import opened Journal
  import opened Sessions
  import opened Agreement

  /** One run of the session-start hook. */
  type Hook = nat

  /** What a decision rests on: the session named, how much of the journal was read, and the cut in it. */
  datatype Decision = Decision(repo: string, session: Session, seen: nat, cut: nat)

  /** `opening` is the record the hook built for its own session. */
  datatype Place =
    | Absent
    | Observed(repo: string, opening: Record)
    | Locked(repo: string, opening: Record)
    | Decided(decision: Decision)
    | Claimed(decision: Decision)
    | Declined
    | Released(decision: Decision)
    | Gone

  predicate Inside(l: Place) {
    l.Locked? || l.Decided? || l.Claimed? || l.Declined?
  }

  /** The claim is written and the announcement still to come. */
  predicate Pending(l: Place) {
    l.Claimed? || l.Released?
  }

  datatype World = World(journal: History, lock: Option<Hook>, places: map<Hook, Place>, said: seq<Decision>)
  {
    function At(p: Hook): Place {
      if p in places then places[p] else Absent
    }

    function Move(p: Hook, l: Place): World {
      this.(places := places[p := l])
    }

    function Append(e: Named<Record>): World {
      this.(journal := journal + [e])
    }
  }

  /** The record `bypass_reported`; only its time is left open. */
  function ClaimOf(d: Decision, ts: Option<nat>): Named<Record> {
    Named(Some(d.repo), Record(BypassReported, Some(d.session), None, false, ts))
  }

  datatype Step =
    | Other(e: Named<Record>)                                   // any writer, any record, no lock
    | Observe(p: Hook, repo: string, opening: Record, written: bool)
    | GiveUp(p: Hook)                                           // the lock times out, or its directory fails
    | Acquire(p: Hook)
    | Decide(p: Hook, cut: nat, session: Session)               // `previous_bypass` returns one
    | Decline(p: Hook)                                          // it returns none, or raises
    | Write(p: Hook, ts: Option<nat>)                           // the claim is appended
    | Fail(p: Hook, ts: Option<nat>, written: bool)             // the append reports failure, written or not
    | Release(p: Hook)
    | Speak(p: Hook)
    | Die(p: Hook)                                              // without releasing anything

  ghost predicate CanStep(w: World, s: Step) {
    match s
    case Other(_) => true
    case Observe(p, _, opening, _) => w.At(p).Absent? && opening.event.SessionOpen?
    case GiveUp(p) => w.At(p).Observed?
    case Acquire(p) => w.At(p).Observed? && w.lock.None?
    case Decide(p, cut, session) =>
      && w.At(p).Locked?
      && CutsAt(OfRepo(w.journal, w.At(p).repo), Some(w.At(p).opening), cut)
      && Announces(OfRepo(w.journal, w.At(p).repo), cut, session)
    case Decline(p) => w.At(p).Locked?
    case Write(p, _) => w.At(p).Decided?
    case Fail(p, _, _) => w.At(p).Decided?
    case Release(p) => w.At(p).Claimed? || w.At(p).Declined?
    case Speak(p) => w.At(p).Released?
    case Die(p) => true
  }

  ghost function After(w: World, s: Step): World
    requires CanStep(w, s)
  {
    match s
    case Other(e) => w.Append(e)
    case Observe(p, repo, opening, written) =>
      var v := w.Move(p, Observed(repo, opening));
      if written then v.Append(Named(Some(repo), opening)) else v
    case GiveUp(p) => w.Move(p, Gone)
    case Acquire(p) => w.Move(p, Locked(w.At(p).repo, w.At(p).opening)).(lock := Some(p))
    case Decide(p, cut, session) => w.Move(p, Decided(Decision(w.At(p).repo, session, |w.journal|, cut)))
    case Decline(p) => w.Move(p, Declined)
    case Write(p, ts) => w.Move(p, Claimed(w.At(p).decision)).Append(ClaimOf(w.At(p).decision, ts))
    case Fail(p, ts, written) =>
      var v := w.Move(p, Declined);
      if written then v.Append(ClaimOf(w.At(p).decision, ts)) else v
    case Release(p) => w.Move(p, if w.At(p).Claimed? then Released(w.At(p).decision) else Gone).(lock := None)
    case Speak(p) => w.Move(p, Gone).(said := w.said + [w.At(p).decision])
    case Die(p) => w.Move(p, Gone)
  }

  ghost predicate Steps(w: World, steps: seq<Step>)
    decreases |steps|
  {
    steps == [] || (CanStep(w, steps[0]) && Steps(After(w, steps[0]), steps[1..]))
  }

  ghost function Reached(w: World, steps: seq<Step>): World
    requires Steps(w, steps)
    decreases |steps|
  {
    if steps == [] then w else Reached(After(w, steps[0]), steps[1..])
  }

  // ----- what every interleaving keeps -----

  /** The journal holds a claim of that session in that repository. */
  ghost predicate ClaimIn(h: History, repo: string, s: Session) {
    exists i {:trigger h[i]} ::
      0 <= i < |h| && h[i].repo == Some(repo) && h[i].record.event.BypassReported? && h[i].record.session == Some(s)
  }

  /** Two decisions name the same session of the same repository. */
  predicate Same(a: Decision, b: Decision) {
    a.repo == b.repo && a.session == b.session
  }

  ghost predicate Guarded(w: World) {
    forall p: Hook {:trigger w.At(p)} | Inside(w.At(p)) :: w.lock == Some(p)
  }

  /** Whatever was said, or is about to be, has its claim in the journal. */
  ghost predicate Backed(w: World) {
    && (forall k {:trigger w.said[k]} | 0 <= k < |w.said| :: ClaimIn(w.journal, w.said[k].repo, w.said[k].session))
    && (forall p: Hook {:trigger w.At(p)} | Pending(w.At(p)) ::
          ClaimIn(w.journal, w.At(p).decision.repo, w.At(p).decision.session))
  }

  /** A decision names nothing that was said, nor what another process is about to say. */
  ghost predicate New(w: World, p: Hook, d: Decision) {
    && (forall k {:trigger w.said[k]} | 0 <= k < |w.said| :: !Same(w.said[k], d))
    && (forall q: Hook {:trigger w.At(q)} | q != p && Pending(w.At(q)) :: !Same(w.At(q).decision, d))
  }

  ghost predicate Once(w: World) {
    && (forall j, k {:trigger w.said[j], w.said[k]} | 0 <= j < k < |w.said| :: !Same(w.said[j], w.said[k]))
    && (forall p: Hook {:trigger w.At(p)} | w.At(p).Decided? || Pending(w.At(p)) :: New(w, p, w.At(p).decision))
  }

  lemma ClaimStays(h: History, e: Named<Record>, repo: string, s: Session)
    requires ClaimIn(h, repo, s)
    ensures ClaimIn(h + [e], repo, s)
  {
    var i :| 0 <= i < |h| && h[i].repo == Some(repo)
      && h[i].record.event.BypassReported? && h[i].record.session == Some(s);
    assert (h + [e])[i] == h[i];
  }

  lemma ClaimMade(h: History, d: Decision, ts: Option<nat>)
    ensures ClaimIn(h + [ClaimOf(d, ts)], d.repo, d.session)
  {
    assert (h + [ClaimOf(d, ts)])[|h|] == ClaimOf(d, ts);
  }

  /** The narrowed history shows every claim the journal holds for the repository. */
  lemma ClaimIsSeen(h: History, repo: string, s: Session)
    requires ClaimIn(h, repo, s)
    ensures AlreadyReported(OfRepo(h, repo), s)
  {
    hide OfRepo, Index;
    var i :| 0 <= i < |h| && h[i].repo == Some(repo)
      && h[i].record.event.BypassReported? && h[i].record.session == Some(s);
    IndexHolds(h, repo, i);
  }

  lemma StepGuarded(w: World, s: Step)
    requires CanStep(w, s) && Guarded(w)
    ensures Guarded(After(w, s))
  {
    hide CutsAt, Announces, OfRepo;
    var v := After(w, s);
    forall q: Hook | Inside(v.At(q)) ensures v.lock == Some(q) {
      assert Inside(w.At(q)) ==> w.lock == Some(q);
      if !s.Other? {
        assert Inside(w.At(s.p)) ==> w.lock == Some(s.p);
      }
    }
  }

  lemma StepBacked(w: World, s: Step)
    requires CanStep(w, s) && Backed(w)
    ensures Backed(After(w, s))
  {
    hide CutsAt, Announces, OfRepo, ClaimIn, ClaimOf;
    var v := After(w, s);
    forall repo: string, t: Session | ClaimIn(w.journal, repo, t) ensures ClaimIn(v.journal, repo, t) {
      if v.journal != w.journal {
        ClaimStays(w.journal, v.journal[|w.journal|], repo, t);
        assert v.journal == w.journal + [v.journal[|w.journal|]];
      }
    }
    if s.Write? {
      ClaimMade(w.journal, w.At(s.p).decision, s.ts);
    }
    forall q: Hook | Pending(v.At(q)) ensures ClaimIn(v.journal, v.At(q).decision.repo, v.At(q).decision.session) {
      assert Pending(w.At(q)) ==> ClaimIn(w.journal, w.At(q).decision.repo, w.At(q).decision.session);
    }
  }

  /** What the lock holder decides is new: all that was said or is pending is claimed, and it read every claim. */
  lemma DecisionIsNew(w: World, s: Step)
    requires CanStep(w, s) && s.Decide? && Backed(w)
    ensures var v := After(w, s); v.At(s.p).Decided? && New(v, s.p, v.At(s.p).decision)
  {
    hide CutsAt, OfRepo, ClaimIn, Candidate, UsedGraph, Worth, Later, Passed, AlreadyReported;
    var v := After(w, s);
    var d := v.At(s.p).decision;
    if ClaimIn(w.journal, d.repo, d.session) {
      ClaimIsSeen(w.journal, d.repo, d.session);
    }
    forall q: Hook | q != s.p && Pending(v.At(q)) ensures !Same(v.At(q).decision, d) {
      assert w.At(q) == v.At(q);
    }
  }

  lemma StepOnce(w: World, s: Step)
    requires CanStep(w, s) && Guarded(w) && Backed(w) && Once(w)
    ensures Once(After(w, s))
  {
    hide CutsAt, Announces, OfRepo, ClaimIn, ClaimOf, Backed;
    var v := After(w, s);
    if s.Decide? {
      DecisionIsNew(w, s);
    }
    forall p: Hook | v.At(p).Decided? || Pending(v.At(p)) ensures New(v, p, v.At(p).decision) {
      assert w.At(p).Decided? || Pending(w.At(p)) ==> New(w, p, w.At(p).decision);
      if !(s.Decide? && s.p == p) {
        StillNew(w, s, p);
      }
    }
    if s.Speak? {
      assert New(w, s.p, w.At(s.p).decision);
    }
  }

  /** A decision is carried along unchanged. */
  lemma SameDecision(w: World, s: Step, p: Hook)
    requires CanStep(w, s) && !(s.Decide? && s.p == p)
    requires After(w, s).At(p).Decided? || Pending(After(w, s).At(p))
    ensures w.At(p).Decided? || Pending(w.At(p))
    ensures w.At(p).decision == After(w, s).At(p).decision
  {
    hide CutsAt, Announces, OfRepo, ClaimOf;
  }

  /** Only a write makes a process pending, and it holds the lock while it writes. */
  lemma BecomesPending(w: World, s: Step, q: Hook)
    requires CanStep(w, s) && Guarded(w) && Pending(After(w, s).At(q)) && !Pending(w.At(q))
    ensures w.At(q).Decided? && w.At(q).decision == After(w, s).At(q).decision
    ensures forall p: Hook {:trigger w.At(p)} | p != q :: !Inside(w.At(p))
    ensures After(w, s).said == w.said
  {
    hide CutsAt, Announces, OfRepo, ClaimOf;
    assert Inside(w.At(q)) && w.lock == Some(q);
  }

  /** What is said now was pending. */
  lemma BecomesSaid(w: World, s: Step)
    requires CanStep(w, s)
    ensures After(w, s).said == w.said || s.Speak?
    ensures s.Speak? ==> Pending(w.At(s.p)) && After(w, s).At(s.p).Gone?
    ensures s.Speak? ==> After(w, s).said == w.said + [w.At(s.p).decision]
  {
    hide CutsAt, Announces, OfRepo, ClaimOf;
  }

  /** No step of another process makes a decision stale: to claim, it would have to hold the lock too. */
  lemma StillNew(w: World, s: Step, p: Hook)
    requires CanStep(w, s) && Guarded(w) && Once(w) && !(s.Decide? && s.p == p)
    requires After(w, s).At(p).Decided? || Pending(After(w, s).At(p))
    ensures New(After(w, s), p, After(w, s).At(p).decision)
  {
    hide CanStep, After, Guarded, Inside;
    var v := After(w, s);
    var d := v.At(p).decision;
    SameDecision(w, s, p);
    assert New(w, p, d);
    forall q: Hook | q != p && Pending(v.At(q)) ensures !Same(v.At(q).decision, d) {
      if Pending(w.At(q)) {
        PendingStays(w, s, q);
      } else {
        BecomesPending(w, s, q);
        assert New(w, q, w.At(q).decision);
        StillPending(w, p);
      }
    }
    BecomesSaid(w, s);
  }

  lemma PendingStays(w: World, s: Step, q: Hook)
    requires CanStep(w, s) && Pending(w.At(q)) && Pending(After(w, s).At(q))
    ensures After(w, s).At(q).decision == w.At(q).decision
  {
    hide CutsAt, Announces, OfRepo, ClaimOf;
  }

  /** Outside the lock, a decision is one that was claimed. */
  lemma StillPending(w: World, p: Hook)
    requires !Inside(w.At(p)) && (w.At(p).Decided? || Pending(w.At(p)))
    ensures Pending(w.At(p))
  {
  }

  // ----- what a decision rested on -----

  /** The decision was `previous_bypass`'s answer on a prefix of the journal, cut at a record of its own repository. */
  ghost predicate Founded(h: History, d: Decision) {
    d.seen <= |h| && d.cut <= |OfRepo(h[..d.seen], d.repo)| && Announces(OfRepo(h[..d.seen], d.repo), d.cut, d.session)
  }

  ghost predicate Reasoned(w: World) {
    && (forall k {:trigger w.said[k]} | 0 <= k < |w.said| :: Founded(w.journal, w.said[k]))
    && (forall p: Hook {:trigger w.At(p)} | w.At(p).Decided? || Pending(w.At(p)) ::
          Founded(w.journal, w.At(p).decision))
  }

  lemma FoundedStays(h: History, e: Named<Record>, d: Decision)
    requires Founded(h, d)
    ensures Founded(h + [e], d)
  {
    hide Announces, OfRepo;
    assert (h + [e])[..d.seen] == h[..d.seen];
  }

  lemma JustDecided(w: World, s: Step)
    requires CanStep(w, s) && s.Decide?
    ensures Founded(w.journal, After(w, s).At(s.p).decision)
  {
    hide Announces, OfRepo;
    assert w.journal[..|w.journal|] == w.journal;
  }

  lemma StepReasoned(w: World, s: Step)
    requires CanStep(w, s) && Reasoned(w)
    ensures Reasoned(After(w, s))
  {
    hide CutsAt, Announces, OfRepo, Founded, ClaimOf;
    var v := After(w, s);
    forall d | Founded(w.journal, d) ensures Founded(v.journal, d) {
      if v.journal != w.journal {
        FoundedStays(w.journal, v.journal[|w.journal|], d);
        assert v.journal == w.journal + [v.journal[|w.journal|]];
      }
    }
    if s.Decide? {
      JustDecided(w, s);
    }
    forall q: Hook | v.At(q).Decided? || Pending(v.At(q)) ensures Founded(v.journal, v.At(q).decision) {
      assert w.At(q).Decided? || Pending(w.At(q)) ==> Founded(w.journal, w.At(q).decision);
    }
  }

  ghost predicate Kept(w: World) {
    Guarded(w) && Backed(w) && Once(w) && Reasoned(w)
  }

  lemma {:induction false} StepsKeep(w: World, steps: seq<Step>)
    requires Kept(w) && Steps(w, steps)
    ensures Kept(Reached(w, steps))
    decreases |steps|
  {
    hide CanStep, After, Guarded, Backed, Once, Reasoned;
    if steps != [] {
      StepGuarded(w, steps[0]);
      StepBacked(w, steps[0]);
      StepOnce(w, steps[0]);
      StepReasoned(w, steps[0]);
      StepsKeep(After(w, steps[0]), steps[1..]);
    }
  }

  /**
   * However session starts interleave with each other, with unlocked appends, with claim writes that fail and
   * with processes that die, no session of a repository is announced twice.
   */
  lemma AnnouncedAtMostOnce(w: World, steps: seq<Step>, j: nat, k: nat)
    requires w.lock.None? && w.places == map[] && w.said == [] && Steps(w, steps) && j < k < |Reached(w, steps).said|
    ensures var a, b := Reached(w, steps).said[j], Reached(w, steps).said[k];
      a.repo != b.repo || a.session != b.session
  {
    hide CanStep, After, Guarded, Backed, Reasoned, Steps, Reached;
    QuietIsKept(w);
    StepsKeep(w, steps);
  }

  /** Every announcement was `previous_bypass`'s answer at the time, and its claim is in the journal. */
  lemma AnnouncementsAreFounded(w: World, steps: seq<Step>, k: nat)
    requires w.lock.None? && w.places == map[] && w.said == [] && Steps(w, steps) && k < |Reached(w, steps).said|
    ensures var v := Reached(w, steps);
      Founded(v.journal, v.said[k]) && ClaimIn(v.journal, v.said[k].repo, v.said[k].session)
  {
    hide CanStep, After, Guarded, Once, Steps, Reached, Founded, ClaimIn;
    QuietIsKept(w);
    StepsKeep(w, steps);
  }

  /**
   * So what is announced was a bypass by the report's own judgement of the journal read, if the session's records
   * name that one repository and it was over where the announcing session opened.
   */
  lemma AnnouncedIsBypass(w: World, steps: seq<Step>, k: nat)
    requires w.lock.None? && w.places == map[] && w.said == [] && Steps(w, steps) && k < |Reached(w, steps).said|
    requires var d := Reached(w, steps).said[k];
      d.seen <= |Reached(w, steps).journal| && OneRepo(Reached(w, steps).journal[..d.seen], d.session, d.repo)
    requires var d := Reached(w, steps).said[k];
      OverBefore(OfRepo(Reached(w, steps).journal[..d.seen], d.repo), d.cut, d.session)
    ensures var v := Reached(w, steps);
      var d := v.said[k];
      && Collected(v.journal[..d.seen], d.session).Some?
      && Judge(WindowOf(v.journal[..d.seen], d.session)).kind == Bypass
  {
    hide CanStep, After, Steps, Reached, Announces, OneRepo, OverBefore, OfRepo, Judge, WindowOf, ClaimIn;
    AnnouncementsAreFounded(w, steps, k);
    var v := Reached(w, steps);
    HookAndReportAgree(v.journal[..v.said[k].seen], v.said[k].cut, v.said[k].session, v.said[k].repo);
  }

  /**
   * A session start let through alone says what there is to say: if the scan, cut where its own opening stands,
   * names a session, that session is claimed in the journal and announced, and the lock is free again.
   */
  lemma AloneItAnnounces(w: World, p: Hook, repo: string, opening: Record, cut: nat, s: Session, ts: Option<nat>)
    requires w.lock.None? && w.places == map[] && w.said == [] && opening.event.SessionOpen?
    requires var seen := OfRepo(w.journal + [Named(Some(repo), opening)], repo);
      cut <= |seen| && CutsAt(seen, Some(opening), cut) && Announces(seen, cut, s)
    ensures var d := Decision(repo, s, |w.journal| + 1, cut);
      var steps := [Observe(p, repo, opening, true), Acquire(p), Decide(p, cut, s), Write(p, ts), Release(p), Speak(p)];
      && Steps(w, steps)
      && Reached(w, steps).said == [d] && Reached(w, steps).lock.None?
      && Reached(w, steps).journal == w.journal +
           [Named(Some(repo), opening), Named(Some(repo), Record(BypassReported, Some(s), None, false, ts))]
  {
    hide OfRepo, CutsAt, Announces, Steps, Reached;
    var w1 := After(w, Observe(p, repo, opening, true));
    var w2 := After(w1, Acquire(p));
    var w3 := After(w2, Decide(p, cut, s));
    ItSpeaks(w3, p, Decision(repo, s, |w.journal| + 1, cut), ts);
    Chain(w2, [Decide(p, cut, s), Write(p, ts), Release(p), Speak(p)]);
    Chain(w1, [Acquire(p), Decide(p, cut, s), Write(p, ts), Release(p), Speak(p)]);
    Chain(w, [Observe(p, repo, opening, true), Acquire(p), Decide(p, cut, s), Write(p, ts), Release(p), Speak(p)]);
    assert w3.journal == w.journal + [Named(Some(repo), opening)];
  }

  /** What was decided is claimed, and said once the lock is free. */
  lemma ItSpeaks(w: World, p: Hook, d: Decision, ts: Option<nat>)
    requires w.At(p) == Decided(d)
    ensures var steps := [Write(p, ts), Release(p), Speak(p)];
      && Steps(w, steps)
      && Reached(w, steps).said == w.said + [d] && Reached(w, steps).lock.None?
      && Reached(w, steps).journal ==
           w.journal + [Named(Some(d.repo), Record(BypassReported, Some(d.session), None, false, ts))]
  {
    hide Steps, Reached;
    var w1 := After(w, Write(p, ts));
    var w2 := After(w1, Release(p));
    Chain(After(w2, Speak(p)), []);
    Chain(w2, [Speak(p)]);
    Chain(w1, [Release(p), Speak(p)]);
    Chain(w, [Write(p, ts), Release(p), Speak(p)]);
  }

  /** The first step of a list, taken. */
  lemma Chain(w: World, steps: seq<Step>)
    requires steps != [] ==> CanStep(w, steps[0]) && Steps(After(w, steps[0]), steps[1..])
    ensures Steps(w, steps)
    ensures Reached(w, steps) == if steps == [] then w else Reached(After(w, steps[0]), steps[1..])
  {
  }

  lemma QuietIsKept(w: World)
    requires w.lock.None? && w.places == map[] && w.said == []
    ensures Kept(w)
  {
  }
}
