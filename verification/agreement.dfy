/** The hook and the report, written apart, say the same of a session whose records all name one repository. */
module Agreement {
  import opened Basics
  import opened Journal
  import opened Sessions

  lemma {:induction false} OfRepoAppend(a: History, b: History, repo: string)
    ensures OfRepo(a + b, repo) == OfRepo(a, repo) + OfRepo(b, repo)
  {
    hide OfRepo;
    if a == [] {
      assert a + b == b;
      NothingOfRepo(repo);
    } else {
      assert (a + b)[1..] == a[1..] + b;
      OfRepoFirst(a, repo);
      OfRepoFirst(a + b, repo);
      OfRepoAppend(a[1..], b, repo);
    }
  }

  lemma OfRepoFirst(h: History, repo: string)
    requires h != []
    ensures OfRepo(h, repo) == (if h[0].repo == Some(repo) then [h[0]] else []) + OfRepo(h[1..], repo)
  {
  }

  lemma OfRepoOne(e: Named<Record>, repo: string)
    ensures OfRepo([e], repo) == if e.repo == Some(repo) then [e] else []
  {
    assert OfRepo<Record>([e][1..], repo) == [];
  }

  lemma OfRepoLast(h: History, repo: string)
    requires h != []
    ensures OfRepo(h, repo) == OfRepo(h[..|h| - 1], repo) + if h[|h| - 1].repo == Some(repo) then [h[|h| - 1]] else []
  {
    hide OfRepo;
    var last := h[|h| - 1];
    OfRepoAppend(h[..|h| - 1], [last], repo);
    assert h[..|h| - 1] + [last] == h;
    OfRepoOne(last, repo);
  }

  lemma {:induction false} OfRepoNamed(h: History, repo: string)
    ensures AllNamed(OfRepo(h, repo), repo)
  {
    if h != [] {
      OfRepoNamed(h[1..], repo);
    }
  }

  /** Where a position of the whole journal lies in one repository's part of it. */
  function Index(h: History, repo: string, p: nat): nat
    requires p <= |h|
  {
    |OfRepo(h[..p], repo)|
  }

  lemma IndexHolds(h: History, repo: string, p: nat)
    requires p < |h| && h[p].repo == Some(repo)
    ensures Index(h, repo, p) < |OfRepo(h, repo)| && OfRepo(h, repo)[Index(h, repo, p)] == h[p]
  {
    OfRepoAppend(h[..p], h[p..], repo);
    assert h[..p] + h[p..] == h;
    assert OfRepo(h[p..], repo) == [h[p]] + OfRepo(h[p..][1..], repo);
  }

  lemma IndexRises(h: History, repo: string, p: nat, q: nat)
    requires p < q <= |h| && h[p].repo == Some(repo)
    ensures Index(h, repo, p) < Index(h, repo, q)
  {
    var b := h[p..q];
    OfRepoAppend(h[..p], b, repo);
    assert h[..p] + b == h[..q];
    assert b[0] == h[p];
    assert OfRepo(b, repo) == [h[p]] + OfRepo(b[1..], repo);
  }

  /** Every record and named run of `s` names `repo`. */
  ghost predicate OneRepo(h: History, s: Session, repo: string) {
    forall i {:trigger h[i]} | 0 <= i < |h| && (OwnedBy(h[i], s) || NamedRun(h[i], s)) :: h[i].repo == Some(repo)
  }

  lemma OneRepoFront(h: History, s: Session, repo: string)
    requires h != [] && OneRepo(h, s, repo)
    ensures OneRepo(h[..|h| - 1], s, repo)
  {
    var front := h[..|h| - 1];
    forall i | 0 <= i < |front| && (OwnedBy(front[i], s) || NamedRun(front[i], s)) ensures front[i].repo == Some(repo) {
      assert front[i] == h[i];
    }
  }

  lemma IndexFront(h: History, repo: string, p: nat)
    requires h != [] && p <= |h| - 1
    ensures Index(h[..|h| - 1], repo, p) == Index(h, repo, p)
  {
    assert h[..|h| - 1][..p] == h[..p];
  }

  /** Narrowing to the repository keeps a session's records, and its opening and end where they were. */
  lemma {:induction false} NarrowedSame(h: History, s: Session, repo: string)
    requires OneRepo(h, s, repo)
    ensures OwnedOf(OfRepo(h, repo), s) == OwnedOf(h, s)
    ensures OpenAt(OfRepo(h, repo), s) ==
      (var o := OpenAt(h, s); if o.Some? then Some(Index(h, repo, o.value)) else None)
    ensures EndAt(OfRepo(h, repo), s) == (var o := EndAt(h, s); if o.Some? then Some(Index(h, repo, o.value)) else None)
    decreases |h|
  {
    hide Index, OfRepo;
    if h == [] {
      NothingOfRepo(repo);
    } else {
      var front, last := h[..|h| - 1], h[|h| - 1];
      OneRepoFront(h, s, repo);
      NarrowedSame(front, s, repo);
      OfRepoLast(h, repo);
      LastIndex(h, repo);
      assert OwnedBy(last, s) ==> last.repo == Some(repo);
      if OpenAt(front, s).Some? {
        IndexFront(h, repo, OpenAt(front, s).value);
      }
      if EndAt(front, s).Some? {
        IndexFront(h, repo, EndAt(front, s).value);
      }
      var narrowed := OfRepo(h, repo);
      if last.repo == Some(repo) {
        assert narrowed[..|narrowed| - 1] == OfRepo(front, repo);
      } else {
        assert narrowed == OfRepo(front, repo);
      }
    }
  }

  lemma NothingOfRepo(repo: string)
    ensures OfRepo<Record>([], repo) == []
  {
  }

  lemma LastIndex(h: History, repo: string)
    requires h != []
    ensures Index(h, repo, |h| - 1) == |OfRepo(h[..|h| - 1], repo)|
  {
  }

  lemma {:induction false} FirstRepo(h: History, s: Session, repo: string)
    requires OneRepo(h, s, repo) && Collected(h, s).Some?
    ensures Collected(h, s).value.repo == repo
    decreases |h|
  {
    if h != [] {
      OneRepoFront(h, s, repo);
      if Collected(h[..|h| - 1], s).Some? {
        FirstRepo(h[..|h| - 1], s, repo);
      }
      assert OwnedBy(h[|h| - 1], s) ==> h[|h| - 1].repo == Some(repo);
    }
  }

  /** A run that counts in the whole journal counts in the narrowed history. */
  lemma RunsCarryOver(h: History, s: Session, repo: string)
    requires OneRepo(h, s, repo) && Candidate(OfRepo(h, repo), |OfRepo(h, repo)|, s)
    requires Collected(h, s).Some? && WindowOf(h, s).transitions > 0
    ensures UsedGraph(OfRepo(h, repo), |OfRepo(h, repo)|, s)
  {
    hide OfRepo, Index, OpenAt, EndAt, NamedRuns, UnnamedRuns, CountAfter, CountBetween, Collected, OwnedOf;
    var f := OfRepo(h, repo);
    assert f[..|f|] == f;
    CollectedMeans(h, s);
    FirstRepo(h, s, repo);
    NarrowedSame(h, s, repo);
    var start, end := OpenAt(h, s).value, EndAt(h, s).value;
    OpensInRepo(h, s, repo);
    CountedAfter(h, s, start);
    CountedBetween(h, repo, start, end);
    if p: nat :| start < p < |h| && NamedRun(h[p], s) {
      CarriedOver(h, repo, start, p);
    } else {
      var p: nat :| start < p < end && p < |h| && UnnamedRun(h[p], repo);
      CarriedOver(h, repo, start, p);
      IndexRises(h, repo, p, end);
    }
  }

  lemma CarriedOver(h: History, repo: string, start: nat, p: nat)
    requires start < p < |h| && h[start].repo == Some(repo) && h[p].repo == Some(repo)
    ensures Index(h, repo, start) < Index(h, repo, p) < |OfRepo(h, repo)|
    ensures OfRepo(h, repo)[Index(h, repo, p)] == h[p]
  {
    hide Index, OfRepo;
    IndexHolds(h, repo, p);
    IndexRises(h, repo, start, p);
  }

  lemma OpensInRepo(h: History, s: Session, repo: string)
    requires OneRepo(h, s, repo)
    ensures OpenAt(h, s).Some? ==> h[OpenAt(h, s).value].repo == Some(repo)
    ensures EndAt(h, s).Some? ==> h[EndAt(h, s).value].repo == Some(repo)
  {
    hide OpenAt, EndAt;
  }

  /** The session owns nothing at or after the cut: it is not still running where the asking session opened. */
  ghost predicate OverBefore(h: History, cut: nat, s: Session) {
    forall i {:trigger h[i]} | cut <= i < |h| :: !OwnedBy(h[i], s)
  }

  /** Then cutting the history there loses nothing of it. */
  lemma {:induction false} CutKeeps(h: History, cut: nat, s: Session)
    requires cut <= |h| && OverBefore(h, cut, s)
    ensures OpenAt(h[..cut], s) == OpenAt(h, s) && EndAt(h[..cut], s) == EndAt(h, s)
    ensures OwnedOf(h[..cut], s) == OwnedOf(h, s)
    decreases |h|
  {
    if cut == |h| {
      assert h[..cut] == h;
    } else {
      var front := h[..|h| - 1];
      forall i | cut <= i < |front| ensures !OwnedBy(front[i], s) {
        assert front[i] == h[i];
      }
      CutKeeps(front, cut, s);
      assert front[..cut] == h[..cut];
      assert !OwnedBy(h[|h| - 1], s);
    }
  }

  lemma UncutSame(h: History, cut: nat, s: Session)
    requires cut <= |h| && OverBefore(h, cut, s)
    ensures Candidate(h, cut, s) <==> Candidate(h, |h|, s)
    ensures Candidate(h, cut, s) ==> (UsedGraph(h, cut, s) <==> UsedGraph(h, |h|, s))
  {
    hide OpenAt, EndAt, OwnedOf, OverBefore, NamedRun, UnnamedRun;
    CutKeeps(h, cut, s);
    assert h[..|h|] == h;
  }

  /**
   * A session the hook announces from the narrowed history, cut anywhere after the session was over, is judged a
   * bypass by the report over the whole journal, with the same two sizes.
   */
  lemma HookAndReportAgree(h: History, cut: nat, s: Session, repo: string)
    requires OneRepo(h, s, repo) && cut <= |OfRepo(h, repo)| && OverBefore(OfRepo(h, repo), cut, s)
    requires Announces(OfRepo(h, repo), cut, s)
    ensures Collected(h, s).Some?
    ensures var v := Judge(WindowOf(h, s));
      v.kind == Bypass && (v.changedFiles, v.edits) == SessionSize(OwnedOf(OfRepo(h, repo)[..cut], s))
  {
    hide OfRepo, Index, OpenAt, EndAt, NamedRuns, UnnamedRuns, CountAfter, CountBetween, Collected, OwnedOf, UsedGraph,
      AlreadyReported, SessionSize, Edits, OverBefore, Later, Passed;
    var f := OfRepo(h, repo);
    assert f[..|f|] == f;
    UncutSame(f, cut, s);
    CutKeeps(f, cut, s);
    CollectedMeans(h, s);
    NarrowedSame(h, s, repo);
    if WindowOf(h, s).transitions > 0 {
      RunsCarryOver(h, s, repo);
    }
  }

  /** From stored lines: what `read_repo` gives the hook is what `read` gives the report, narrowed. */
  lemma HookAndReportAgreeOnLines(lines: seq<Stored<Record>>, cut: nat, s: Session, repo: string)
    requires forall i {:trigger lines[i]} | 0 <= i < |lines| :: lines[i].parsed.None? || Written(lines[i])
    requires OneRepo(Read(lines), s, repo)
    requires cut <= |ReadRepo(lines, repo)| && OverBefore(ReadRepo(lines, repo), cut, s)
    requires Announces(ReadRepo(lines, repo), cut, s)
    ensures AllNamed(ReadRepo(lines, repo), repo)
    ensures Collected(Read(lines), s).Some? && Judge(WindowOf(Read(lines), s)).kind == Bypass
  {
    hide Announces, OneRepo, Written, Judge, WindowOf, ReadRepo, OfRepo, Read, OverBefore;
    NarrowedReadIsFilter(lines, repo);
    OfRepoNamed(Read(lines), repo);
    HookAndReportAgree(Read(lines), cut, s, repo);
  }

  /** The uncut call, `previous_bypass(repo, None)`: no premise about the cut is left. */
  lemma UncutHookAndReportAgree(h: History, s: Session, repo: string)
    requires OneRepo(h, s, repo) && Announces(OfRepo(h, repo), |OfRepo(h, repo)|, s)
    ensures Collected(h, s).Some? && Judge(WindowOf(h, s)).kind == Bypass
  {
    hide Announces, OneRepo, Judge, WindowOf, OfRepo;
    HookAndReportAgree(h, |OfRepo(h, repo)|, s, repo);
  }

  // ----- the rule the documentation gives -----

  /** A run of the session's repository stands strictly inside its window, whoever it names. */
  ghost predicate RunInside(h: History, repo: string, start: nat, end: nat) {
    exists p: nat {:trigger h[p]} ::
      start < p < end && p < |h| && h[p].repo == Some(repo) && h[p].record.event.GraphTransition?
  }

  ghost predicate UnnamedInside(h: History, repo: string, start: nat, end: nat) {
    exists p: nat {:trigger h[p]} :: start < p < end && p < |h| && UnnamedRun(h[p], repo)
  }

  ghost predicate OwnAfter(h: History, s: Session, start: nat) {
    exists p: nat {:trigger h[p]} :: start < p < |h| && NamedRun(h[p], s)
  }

  /** What the report counts as a use of the graph, without the counting. */
  lemma ReportUses(h: History, s: Session)
    requires Collected(h, s).Some? && OpenAt(h, s).Some? && EndAt(h, s).Some?
    ensures var start, end := OpenAt(h, s).value, EndAt(h, s).value;
      WindowOf(h, s).transitions > 0 <==>
        OwnAfter(h, s, start) || UnnamedInside(h, Collected(h, s).value.repo, start, end)
  {
    hide OpenAt, EndAt, NamedRuns, UnnamedRuns, CountAfter, CountBetween, Collected, OwnedOf, NamedRun, UnnamedRun;
    CollectedMeans(h, s);
    CountedAfter(h, s, OpenAt(h, s).value);
    CountedBetween(h, Collected(h, s).value.repo, OpenAt(h, s).value, EndAt(h, s).value);
  }

  /**
   * The report and the documented rule, by which only a position inside the window counts, agree on a session
   * exactly when: with a run inside, one of those is unnamed or the session has a named run of its own after its
   * start; with none inside, it has no such named run.
   */
  lemma DocumentedRuleAgreesExactly(h: History, s: Session)
    requires Collected(h, s).Some? && OpenAt(h, s).Some? && EndAt(h, s).Some?
    ensures var start, end, repo := OpenAt(h, s).value, EndAt(h, s).value, Collected(h, s).value.repo;
      (WindowOf(h, s).transitions > 0 <==> RunInside(h, repo, start, end)) <==>
        if RunInside(h, repo, start, end) then UnnamedInside(h, repo, start, end) || OwnAfter(h, s, start)
        else !OwnAfter(h, s, start)
  {
    hide OpenAt, EndAt, WindowOf, Collected, RunInside, UnnamedInside, OwnAfter;
    var start, end, repo := OpenAt(h, s).value, EndAt(h, s).value, Collected(h, s).value.repo;
    ReportUses(h, s);
    UnnamedIsInside(h, repo, start, end);
  }

  lemma UnnamedIsInside(h: History, repo: string, start: nat, end: nat)
    ensures UnnamedInside(h, repo, start, end) ==> RunInside(h, repo, start, end)
  {
  }

  function Said(what: What, s: Session): Named<Record> {
    Named(Some("r"), Record(what, Some(s), None, false, None))
  }

  /** A session opens, edits and closes, and its one run is flushed after it closed. */
  function LateRun(): History {
    [Said(SessionOpen, 1), Said(Edit, 1), Said(SessionClose, 1), Said(GraphTransition, 1)]
  }

  lemma LateRunBounds()
    ensures OpenAt(LateRun(), 1) == Some(0) && EndAt(LateRun(), 1) == Some(2) && Collected(LateRun(), 1).Some?
    ensures OwnedOf(LateRun(), 1) == [Said(SessionOpen, 1).record, Said(Edit, 1).record, Said(SessionClose, 1).record]
  {
    var h := LateRun();
    assert h[..3] == [Said(SessionOpen, 1), Said(Edit, 1), Said(SessionClose, 1)];
    assert h[..3][..2] == [Said(SessionOpen, 1), Said(Edit, 1)];
    assert h[..3][..2][..1] == [Said(SessionOpen, 1)];
    assert h[..3][..2][..1][..0] == [];
    assert OpenAt(h[..3][..2][..1], 1) == Some(0);
    assert OpenAt(h[..3][..2], 1) == Some(0);
    assert OwnedOf(h[..3][..2][..1], 1) == [Said(SessionOpen, 1).record];
    assert OwnedOf(h[..3][..2], 1) == [Said(SessionOpen, 1).record, Said(Edit, 1).record];
  }

  /** On that journal the report finds the session conformant; by the documented rule no run counts for it. */
  lemma LateRunSeparatesTheRules()
    ensures var h := LateRun();
      && Collected(h, 1).Some? && Judge(WindowOf(h, 1)).kind == Conformant
      && OpenAt(h, 1).Some? && EndAt(h, 1).Some?
      && !RunInside(h, Collected(h, 1).value.repo, OpenAt(h, 1).value, EndAt(h, 1).value)
  {
    hide OpenAt, EndAt, Collected, OwnedOf, UnnamedInside, RunInside, SessionSize;
    var h := LateRun();
    LateRunBounds();
    ReportUses(h, 1);
    CollectedMeans(h, 1);
    assert NamedRun(h[3], 1);
    EditedSession(h);
    NothingBetween(Collected(h, 1).value.repo);
  }

  lemma EditedSession(h: History)
    requires OwnedOf(h, 1) == [Said(SessionOpen, 1).record, Said(Edit, 1).record, Said(SessionClose, 1).record]
    ensures Edited(OwnedOf(h, 1))
  {
    var r := OwnedOf(h, 1);
    assert Edits(r[..2], false) != [];
  }

  lemma NothingBetween(repo: string)
    ensures !RunInside(LateRun(), repo, 0, 2)
  {
  }
}
