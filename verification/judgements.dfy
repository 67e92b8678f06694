/** What the two passes decide of a session, said of the positions of its records in the journal. */
module Judgements {
  import opened Basics
  import opened Journal
  import opened Sessions
  import opened Agreement

  // ----- where records stand -----

  /** Position `p` holds a record of that kind, of that session, naming a repository. */
  predicate At(h: History, s: Session, p: int, what: What) {
    0 <= p < |h| && h[p].repo.Some? && h[p].record.session == Some(s) && h[p].record.event == what
  }

  predicate Opens(h: History, s: Session, p: int) { At(h, s, p, SessionOpen) }
  predicate Closes(h: History, s: Session, p: int) { At(h, s, p, SessionClose) }
  predicate Ends(h: History, s: Session, p: int) { At(h, s, p, TurnEnd) || At(h, s, p, SessionClose) }

  /** The positions of the session's edits, inside the project or outside it. */
  function EditsAt(h: History, s: Session, outside: bool): set<int> {
    set p | 0 <= p < |h| && At(h, s, p, Edit) && h[p].record.outside == outside
  }

  /** The path ids its edits inside the project carry. */
  function PathsOf(h: History, s: Session): set<nat> {
    set p | p in EditsAt(h, s, false) && h[p].record.pathId.Some? :: h[p].record.pathId.value
  }

  lemma {:induction false} OpenIsFirst(h: History, s: Session)
    ensures OpenAt(h, s).None? ==> forall p :: !Opens(h, s, p)
    ensures OpenAt(h, s).Some? ==>
      Opens(h, s, OpenAt(h, s).value) && forall p | p < OpenAt(h, s).value :: !Opens(h, s, p)
    decreases |h|
  {
    if h != [] {
      var front := h[..|h| - 1];
      OpenIsFirst(front, s);
      forall p | p < |front| ensures Opens(h, s, p) <==> Opens(front, s, p) {
        assert p >= 0 ==> h[p] == front[p];
      }
    }
  }

  lemma {:induction false} EndIsLast(h: History, s: Session)
    ensures EndAt(h, s).None? ==> forall p :: !Ends(h, s, p)
    ensures EndAt(h, s).Some? ==>
      Ends(h, s, EndAt(h, s).value) && forall p | p > EndAt(h, s).value :: !Ends(h, s, p)
    decreases |h|
  {
    if h != [] {
      var front := h[..|h| - 1];
      EndIsLast(front, s);
      forall p | p < |front| ensures Ends(h, s, p) <==> Ends(front, s, p) {
        assert p >= 0 ==> h[p] == front[p];
      }
    }
  }

  // ----- counting edits -----

  function PathIds(records: seq<Record>): set<nat> {
    set r | r in records && r.pathId.Some? :: r.pathId.value
  }

  lemma EditsAppend(records: seq<Record>, r: Record, includeOutside: bool)
    ensures Edits(records + [r], includeOutside) ==
      Edits(records, includeOutside) + if r.event.Edit? && (includeOutside || !r.outside) then [r] else []
  {
    assert (records + [r])[..|records|] == records;
  }

  lemma PathIdsAppend(records: seq<Record>, r: Record)
    ensures PathIds(records + [r]) == PathIds(records) + if r.pathId.Some? then {r.pathId.value} else {}
  {
    forall id ensures id in PathIds(records + [r]) <==> id in PathIds(records) || r.pathId == Some(id) {
      if id in PathIds(records) {
        var q :| q in records && q.pathId == Some(id);
        assert q in records + [r];
      }
      if r.pathId == Some(id) {
        assert r in records + [r];
      }
    }
  }

  /** The positions, one record further on. */
  lemma OneMoreEdit(h: History, s: Session, outside: bool)
    requires h != []
    ensures var front, last := h[..|h| - 1], |h| - 1;
      EditsAt(h, s, outside) == EditsAt(front, s, outside) +
        if At(h, s, last, Edit) && h[last].record.outside == outside then {last} else {}
    ensures |h| - 1 !in EditsAt(h[..|h| - 1], s, outside)
  {
    var front := h[..|h| - 1];
    assert forall p | 0 <= p < |front| :: h[p] == front[p];
  }

  lemma OneMorePath(h: History, s: Session)
    requires h != []
    ensures var front, last := h[..|h| - 1], h[|h| - 1];
      PathsOf(h, s) == PathsOf(front, s) +
        if At(h, s, |h| - 1, Edit) && !last.record.outside && last.record.pathId.Some?
        then {last.record.pathId.value} else {}
  {
    hide At;
    var front, last := h[..|h| - 1], h[|h| - 1];
    OneMoreEdit(h, s, false);
    assert forall p | 0 <= p < |front| :: h[p] == front[p];
    forall id
      ensures id in PathsOf(h, s) <==>
        id in PathsOf(front, s) || (At(h, s, |h| - 1, Edit) && !last.record.outside && last.record.pathId == Some(id))
    {
      if id in PathsOf(h, s) {
        var p :| p in EditsAt(h, s, false) && h[p].record.pathId == Some(id);
        assert p < |front| ==> front[p] == h[p] && p in EditsAt(front, s, false);
      }
      if id in PathsOf(front, s) {
        var p :| p in EditsAt(front, s, false) && front[p].record.pathId == Some(id);
        assert p in EditsAt(h, s, false) && h[p] == front[p];
      }
      if At(h, s, |h| - 1, Edit) && !last.record.outside && last.record.pathId == Some(id) {
        assert |h| - 1 in EditsAt(h, s, false);
      }
    }
  }

  lemma OneMoreOwned(h: History, s: Session)
    requires h != []
    ensures var front, last := h[..|h| - 1], h[|h| - 1];
      && OwnedOf(h, s) == (if OwnedBy(last, s) then OwnedOf(front, s) + [last.record] else OwnedOf(front, s))
      && (At(h, s, |h| - 1, Edit) <==> OwnedBy(last, s) && last.record.event.Edit?)
  {
    assert OwnedOf(h[..|h| - 1], s) + [] == OwnedOf(h[..|h| - 1], s);
  }

  lemma {:induction false} EditsCount(h: History, s: Session)
    ensures |Edits(OwnedOf(h, s), false)| == |EditsAt(h, s, false)|
    ensures |Edits(OwnedOf(h, s), true)| == |EditsAt(h, s, false)| + |EditsAt(h, s, true)|
    decreases |h|
  {
    if h == [] {
      assert EditsAt(h, s, false) == {} && EditsAt(h, s, true) == {};
    } else {
      hide EditsAt, Edits, OwnedOf, OwnedBy, At;
      var front, last := h[..|h| - 1], h[|h| - 1];
      EditsCount(front, s);
      OneMoreEdit(h, s, false);
      OneMoreEdit(h, s, true);
      OneMoreOwned(h, s);
      EditsAppend(OwnedOf(front, s), last.record, false);
      EditsAppend(OwnedOf(front, s), last.record, true);
    }
  }

  lemma {:induction false} EditsPaths(h: History, s: Session)
    ensures PathIds(Edits(OwnedOf(h, s), false)) == PathsOf(h, s)
    decreases |h|
  {
    if h == [] {
      assert PathIds(Edits(OwnedOf(h, s), false)) == {};
    } else {
      hide EditsAt, PathsOf, PathIds, Edits, OwnedOf, OwnedBy, At;
      var front, last := h[..|h| - 1], h[|h| - 1];
      EditsPaths(front, s);
      OneMorePath(h, s);
      OneMoreOwned(h, s);
      EditsAppend(OwnedOf(front, s), last.record, false);
      PathIdsAppend(Edits(OwnedOf(front, s), false), last.record);
    }
  }

  /** The edits both passes count are those positions: inside the project for the sizes, outside it beside them. */
  lemma EditsArePositions(h: History, s: Session)
    ensures |Edits(OwnedOf(h, s), false)| == |EditsAt(h, s, false)|
    ensures |Edits(OwnedOf(h, s), true)| == |EditsAt(h, s, false)| + |EditsAt(h, s, true)|
    ensures PathIds(Edits(OwnedOf(h, s), false)) == PathsOf(h, s)
  {
    EditsCount(h, s);
    EditsPaths(h, s);
  }

  /** The two sizes of a session: its changed files and its editing calls, inside the project. */
  lemma SizeIsPositions(h: History, s: Session)
    ensures SessionSize(OwnedOf(h, s)) == (|PathsOf(h, s)|, |EditsAt(h, s, false)|)
    ensures Edited(OwnedOf(h, s)) <==> EditsAt(h, s, false) != {}
  {
    hide EditsAt, PathsOf, OwnedOf;
    EditsArePositions(h, s);
    assert Edits(OwnedOf(h, s), false) == [] <==> |EditsAt(h, s, false)| == 0;
  }

  lemma {:induction false} OpenedIsOwned(h: History, s: Session)
    ensures ObservationSound(OwnedOf(h, s)) <==> exists p :: Opens(h, s, p)
    decreases |h|
  {
    if h != [] {
      var front, last := h[..|h| - 1], h[|h| - 1];
      OpenedIsOwned(front, s);
      forall p | p < |front| ensures Opens(h, s, p) <==> Opens(front, s, p) {
        assert p >= 0 ==> h[p] == front[p];
      }
      if p :| Opens(front, s, p) {
        assert Opens(h, s, p);
      }
      if ObservationSound(OwnedOf(front, s)) {
        var r :| r in OwnedOf(front, s) && r.event.SessionOpen?;
        assert r in OwnedOf(h, s);
      }
      if Opens(h, s, |h| - 1) {
        assert OwnedBy(last, s) && last.record in OwnedOf(h, s);
      }
    }
  }

  /**
   * A session is worth a word exactly when it was seen to open, edited inside the project, and either changed two
   * files there or made five edits.
   */
  lemma WorthMeans(h: History, cut: nat, s: Session)
    requires cut <= |h|
    ensures var seen := h[..cut];
      Worth(h, cut, s) <==>
        && (exists p :: Opens(seen, s, p)) && EditsAt(seen, s, false) != {}
        && (|PathsOf(seen, s)| >= 2 || |EditsAt(seen, s, false)| >= 5)
  {
    hide EditsAt, PathsOf, OwnedOf, Edited, SessionSize, ObservationSound, Opens;
    SizeIsPositions(h[..cut], s);
    OpenedIsOwned(h[..cut], s);
  }

  // ----- what the report decides -----

  /** A run that names the session. */
  predicate OwnRunAt(h: History, s: Session, p: int) {
    s != 0 && At(h, s, p, GraphTransition)
  }

  /** A run of the repository that names nobody. */
  predicate LooseRunAt(h: History, repo: string, p: int) {
    && 0 <= p < |h| && h[p].repo == Some(repo) && h[p].record.event.GraphTransition?
    && (h[p].record.session.None? || h[p].record.session == Some(0))
  }

  lemma {:induction false} ClosedMeans(h: History, s: Session)
    requires Collected(h, s).Some?
    ensures Collected(h, s).value.closed <==> exists p :: Closes(h, s, p)
    decreases |h|
  {
    var front, last := h[..|h| - 1], h[|h| - 1];
    forall p | p < |front| ensures Closes(h, s, p) <==> Closes(front, s, p) {
      assert p >= 0 ==> h[p] == front[p];
    }
    if Collected(front, s).Some? {
      ClosedMeans(front, s);
      if p :| Closes(front, s, p) {
        assert Closes(h, s, p);
      }
    } else {
      NoneCollected(front, s);
    }
    if Closes(h, s, |h| - 1) {
      assert OwnedBy(last, s);
    }
  }

  lemma {:induction false} NoneCollected(h: History, s: Session)
    ensures Collected(h, s).None? <==> forall p | 0 <= p < |h| :: !OwnedBy(h[p], s)
    ensures Collected(h, s).None? ==> forall p :: !Closes(h, s, p)
    decreases |h|
  {
    if h != [] {
      var front := h[..|h| - 1];
      NoneCollected(front, s);
      assert forall p | 0 <= p < |front| :: h[p] == front[p];
    }
  }

  /** The repository a session is filed under is the one its first record names. */
  lemma {:induction false} FiledUnderItsFirst(h: History, s: Session, p: nat)
    requires p < |h| && OwnedBy(h[p], s) && forall q | 0 <= q < p :: !OwnedBy(h[q], s)
    ensures Collected(h, s).Some? && h[p].repo == Some(Collected(h, s).value.repo)
    decreases |h|
  {
    var front := h[..|h| - 1];
    assert forall q | 0 <= q < |front| :: front[q] == h[q];
    if p < |front| {
      FiledUnderItsFirst(front, s, p);
    } else {
      NoneCollected(front, s);
    }
  }

  /** Some run counts for the session: one of its own after it opened, or a loose one inside its window. */
  ghost predicate RunCounts(h: History, s: Session, repo: string, open: int, end: int) {
    || (exists p :: p > open && OwnRunAt(h, s, p))
    || (exists p :: open < p < end && LooseRunAt(h, repo, p))
  }

  lemma UsesMean(h: History, s: Session)
    requires Collected(h, s).Some? && OpenAt(h, s).Some? && EndAt(h, s).Some?
    ensures WindowOf(h, s).transitions > 0 <==>
      RunCounts(h, s, Collected(h, s).value.repo, OpenAt(h, s).value, EndAt(h, s).value)
  {
    hide WindowOf, Collected, OpenAt, EndAt;
    ReportUses(h, s);
    var repo, open, end := Collected(h, s).value.repo, OpenAt(h, s).value, EndAt(h, s).value;
    if OwnAfter(h, s, open) {
      var p: nat :| open < p < |h| && NamedRun(h[p], s);
      assert OwnRunAt(h, s, p);
    }
    if p :| p > open && OwnRunAt(h, s, p) {
      assert NamedRun(h[p], s);
    }
    if UnnamedInside(h, repo, open, end) {
      var p: nat :| open < p < end && p < |h| && UnnamedRun(h[p], repo);
      assert LooseRunAt(h, repo, p);
    }
    if p :| open < p < end && LooseRunAt(h, repo, p) {
      assert UnnamedRun(h[p], repo);
    }
  }

  /**
   * The report's verdict on a session, from the positions alone: never seen to open, unobserved; never to end,
   * incomplete; without an edit inside the project, unattributed; otherwise conformant or a bypass as some run counts.
   */
  lemma VerdictMeans(h: History, s: Session)
    requires Collected(h, s).Some?
    ensures var v := Judge(WindowOf(h, s));
      var begun, over := (exists p :: Opens(h, s, p)), (exists p :: Ends(h, s, p));
      && (v.kind == Unobserved <==> !begun)
      && (v.kind == Incomplete <==> begun && !over)
      && (v.kind == Unattributed <==> begun && over && EditsAt(h, s, false) == {})
      && (v.kind == Bypass || v.kind == Conformant <==> begun && over && EditsAt(h, s, false) != {})
    ensures var v := Judge(WindowOf(h, s));
      forall open, end | Opens(h, s, open) && Ends(h, s, end)
        && (forall p | p < open :: !Opens(h, s, p)) && (forall p | p > end :: !Ends(h, s, p)) ::
        && (v.kind == Bypass ==> !RunCounts(h, s, Collected(h, s).value.repo, open, end))
        && (v.kind == Conformant ==> RunCounts(h, s, Collected(h, s).value.repo, open, end))
  {
    hide EditsAt, OwnedOf, OpenAt, EndAt, Collected, Opens, Ends, RunCounts, Edited, SessionSize, Transitions;
    CollectedMeans(h, s);
    OpenIsFirst(h, s);
    EndIsLast(h, s);
    SizeIsPositions(h, s);
    if OpenAt(h, s).Some? && EndAt(h, s).Some? {
      UsesMean(h, s);
    }
  }

  /** The runs that count for a session whose window opens and ends there. */
  function OwnRunsAt(h: History, s: Session, open: int): set<int> {
    set p | 0 <= p < |h| && p > open && OwnRunAt(h, s, p)
  }

  function LooseRunsAt(h: History, repo: string, open: int, end: int): set<int> {
    set p | 0 <= p < |h| && open < p < end && LooseRunAt(h, repo, p)
  }

  lemma OneMoreOwnRun(h: History, s: Session, open: nat)
    requires h != []
    ensures var front, last := h[..|h| - 1], |h| - 1;
      && OwnRunsAt(h, s, open) ==
           OwnRunsAt(front, s, open) + (if last > open && NamedRun(h[last], s) then {last} else {})
      && last !in OwnRunsAt(front, s, open)
  {
    var front := h[..|h| - 1];
    assert forall p | 0 <= p < |front| :: h[p] == front[p];
  }

  lemma CountAfterAppend(runs: seq<nat>, p: nat, open: nat)
    ensures CountAfter(runs + [p], open) == CountAfter(runs, open) + if p > open then 1 else 0
  {
    assert (runs + [p])[..|runs|] == runs;
  }

  lemma {:induction false} OwnRunsCounted(h: History, s: Session, open: nat)
    ensures CountAfter(NamedRuns(h, s), open) == |OwnRunsAt(h, s, open)|
    decreases |h|
  {
    if h == [] {
      assert OwnRunsAt(h, s, open) == {};
    } else {
      hide OwnRunsAt, CountAfter, NamedRun;
      var front := h[..|h| - 1];
      OwnRunsCounted(front, s, open);
      OneMoreOwnRun(h, s, open);
      CountAfterAppend(NamedRuns(front, s), |h| - 1, open);
      assert NamedRuns(front, s) + [] == NamedRuns(front, s);
    }
  }

  lemma OneMoreLooseRun(h: History, repo: string, open: nat, end: nat)
    requires h != []
    ensures var front, last := h[..|h| - 1], |h| - 1;
      && LooseRunsAt(h, repo, open, end) == LooseRunsAt(front, repo, open, end) +
           (if open < last < end && UnnamedRun(h[last], repo) then {last} else {})
      && last !in LooseRunsAt(front, repo, open, end)
  {
    var front := h[..|h| - 1];
    assert forall p | 0 <= p < |front| :: h[p] == front[p];
  }

  lemma CountBetweenAppend(runs: seq<Run>, r: Run, repo: string, open: nat, end: nat)
    ensures CountBetween(runs + [r], repo, open, end) ==
      CountBetween(runs, repo, open, end) + if r.repo == repo && open < r.position < end then 1 else 0
  {
    assert (runs + [r])[..|runs|] == runs;
  }

  lemma {:induction false} LooseRunsCounted(h: History, repo: string, open: nat, end: nat)
    ensures CountBetween(UnnamedRuns(h), repo, open, end) == |LooseRunsAt(h, repo, open, end)|
    decreases |h|
  {
    if h == [] {
      assert LooseRunsAt(h, repo, open, end) == {};
    } else {
      hide LooseRunsAt, CountBetween;
      var front, last := h[..|h| - 1], h[|h| - 1];
      LooseRunsCounted(front, repo, open, end);
      OneMoreLooseRun(h, repo, open, end);
      assert UnnamedRuns(front) + [] == UnnamedRuns(front);
      if last.repo.Some? {
        CountBetweenAppend(UnnamedRuns(front), Run(|h| - 1, last.repo.value), repo, open, end);
      }
    }
  }

  /** The runs a report counts are those, each once. */
  lemma RunsReported(h: History, s: Session, open: nat, end: nat)
    requires Collected(h, s).Some? && Opens(h, s, open) && Ends(h, s, end)
    requires (forall p | p < open :: !Opens(h, s, p)) && forall p | p > end :: !Ends(h, s, p)
    ensures Judge(WindowOf(h, s)).transitions ==
      |OwnRunsAt(h, s, open)| + |LooseRunsAt(h, Collected(h, s).value.repo, open, end)|
  {
    hide OpenAt, EndAt, Collected, Opens, Ends, OwnRunsAt, LooseRunsAt, NamedRuns, UnnamedRuns, CountAfter,
      CountBetween, SessionSize, Edited;
    CollectedMeans(h, s);
    OpenIsFirst(h, s);
    EndIsLast(h, s);
    OwnRunsCounted(h, s, open);
    LooseRunsCounted(h, Collected(h, s).value.repo, open, end);
  }

  /** Of a session without a beginning or an end nothing is reported but that. */
  lemma NothingReported(h: History, s: Session)
    requires Collected(h, s).Some? && ((forall p :: !Opens(h, s, p)) || forall p :: !Ends(h, s, p))
    ensures var v := Judge(WindowOf(h, s));
      v.edits == 0 && v.outsideEdits == 0 && v.changedFiles == 0 && v.confidence == Low
  {
    hide OpenAt, EndAt, Collected, Opens, Ends, SessionSize, Edited, Transitions;
    CollectedMeans(h, s);
    OpenIsFirst(h, s);
    EndIsLast(h, s);
  }

  /** What the verdict reports beside its kind, for a session seen to open and to end. */
  lemma VerdictCounts(h: History, s: Session)
    requires Collected(h, s).Some? && (exists p :: Opens(h, s, p)) && exists p :: Ends(h, s, p)
    ensures var v := Judge(WindowOf(h, s));
      && v.edits == |EditsAt(h, s, false)| && v.outsideEdits == |EditsAt(h, s, true)|
      && v.changedFiles == |PathsOf(h, s)|
      && v.confidence == if (exists p :: Closes(h, s, p)) then High else Medium
  {
    hide EditsAt, PathsOf, OwnedOf, OpenAt, EndAt, Collected, Opens, Ends, Closes, Transitions;
    CollectedMeans(h, s);
    OpenIsFirst(h, s);
    EndIsLast(h, s);
    SizeIsPositions(h, s);
    EditsArePositions(h, s);
    ClosedMeans(h, s);
  }

  // ----- what the hook decides -----

  /**
   * What the hook announces was seen, before the cut, to open and later to end, changed two files or made five edits
   * inside the project, has no claim in the journal, and no run that counts for it there.
   */
  lemma AnnouncedMeans(h: History, cut: nat, s: Session)
    requires cut <= |h| && Announces(h, cut, s)
    ensures var seen := h[..cut];
      && EditsAt(seen, s, false) != {} && (|PathsOf(seen, s)| >= 2 || |EditsAt(seen, s, false)| >= 5)
      && (exists open, end :: open < end && Opens(seen, s, open) && Ends(seen, s, end)
           && (forall p | p < open :: !Opens(seen, s, p)) && (forall p | p > end :: !Ends(seen, s, p))
           && (forall p | p > open :: !OwnRunAt(h, s, p))
           && (forall p, repo | open < p < end :: !LooseRunAt(h, repo, p)))
    ensures forall p | 0 <= p < |h| && h[p].record.event.BypassReported? :: h[p].record.session != Some(s)
  {
    hide EditsAt, PathsOf, OwnedOf, OpenAt, EndAt, Later, Passed, WorthReporting, Opens, Ends;
    WorthMeans(h, cut, s);
    OpenIsFirst(h[..cut], s);
    EndIsLast(h[..cut], s);
    var open, end := OpenAt(h[..cut], s).value, EndAt(h[..cut], s).value;
    forall p | p > open ensures !OwnRunAt(h, s, p) {
      assert OwnRunAt(h, s, p) ==> NamedRun(h[p], s);
    }
    forall p, repo | open < p < end ensures !LooseRunAt(h, repo, p) {
      assert LooseRunAt(h, repo, p) ==> h[p].repo.Some? && UnnamedRun(h[p], repo);
    }
  }

  /** The session was seen to open, and after that to end last at `end`. */
  ghost predicate OverAt(h: History, s: Session, end: int) {
    && Ends(h, s, end) && (forall p | p > end :: !Ends(h, s, p))
    && exists open :: open < end && Opens(h, s, open) && forall p | p < open :: !Opens(h, s, p)
  }

  lemma OverMeans(h: History, cut: nat, s: Session, end: int)
    requires cut <= |h|
    ensures OverAt(h[..cut], s, end) <==> Candidate(h, cut, s) && EndAt(h[..cut], s).value == end
  {
    hide Opens, Ends, OpenAt, EndAt;
    OpenIsFirst(h[..cut], s);
    EndIsLast(h[..cut], s);
  }

  /** At most four sessions ended later than the one announced, and each of them was claimed or not worth a word. */
  lemma AnnouncedIsRecent(h: History, cut: nat, s: Session, end: int, later: set<Session>)
    requires cut <= |h| && Announces(h, cut, s) && OverAt(h[..cut], s, end)
    requires forall t | t in later :: exists e :: e > end && OverAt(h[..cut], t, e)
    ensures |later| <= 4
    ensures forall t | t in later ::
      Worth(h, cut, t) ==>
        exists p :: 0 <= p < |h| && h[p].record.event.BypassReported? && h[p].record.session == Some(t)
  {
    hide OverAt, Worth, Opens, Ends, OpenAt, EndAt, UsedGraph, Candidate;
    OverMeans(h, cut, s, end);
    forall t | t in later ensures Candidate(h, cut, t) && t in Later(h, cut, s) {
      var e :| e > end && OverAt(h[..cut], t, e);
      OverMeans(h, cut, t, e);
      InSessions(h, cut, t);
    }
    SubsetCardinality(later, Later(h, cut, s));
    forall t | t in later && Worth(h, cut, t)
      ensures exists p :: 0 <= p < |h| && h[p].record.event.BypassReported? && h[p].record.session == Some(t)
    {
      assert Passed(h, cut, t);
    }
  }

  // ----- where the asking session stands -----

  /** The positions of records with the caller's event, session and time. */
  function Openings(h: History, r: Record): set<int> {
    set p | 0 <= p < |h| && h[p].record.event == r.event && h[p].record.session == r.session && h[p].record.ts == r.ts
  }

  /** The history is cut at the last of them, and nowhere when there is none. */
  lemma CutMeans(h: History, r: Record, cut: nat)
    ensures CutsAt(h, Some(r), cut) <==>
      if Openings(h, r) == {} then cut == |h| else cut in Openings(h, r) && forall p | p in Openings(h, r) :: p <= cut
  {
    forall p | 0 <= p < |h| ensures p in Openings(h, r) <==> SameIdentity(h[p].record, r) {}
    if Openings(h, r) == {} {
      assert forall p | 0 <= p < |h| :: p !in Openings(h, r);
    } else if CutsAt(h, Some(r), cut) {
      var p :| p in Openings(h, r);
      assert SameIdentity(h[p].record, r);
    }
  }
}
