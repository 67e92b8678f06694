/** Two passes over one journal that decide, separately, whether a session bypassed the graph. */
module Sessions {
  import opened Basics
  import opened Journal

  const WARN_MIN_FILES := 2
  const WARN_MIN_EDITS := 5
  const MAX_CANDIDATES := 5

  /** A session's identifier; 0 stands for the empty string, which names nobody. */
  type Session = nat
  const NOBODY: Session := 0

  datatype What = SessionOpen | TurnEnd | SessionClose | Edit | GraphTransition | BypassReported | Unknown

  datatype Record = Record(event: What, session: Option<Session>, pathId: Option<nat>, outside: bool, ts: Option<nat>)

  /** The journal as `read` yields it: each record with the repository it names, if it names one. */
  type History = seq<Named<Record>>

  predicate Owned(e: What) { e.SessionOpen? || e.TurnEnd? || e.SessionClose? || e.Edit? }
  predicate Ending(e: What) { e.TurnEnd? || e.SessionClose? }

  // ----- judging the records of one session -----

  function Edits(records: seq<Record>, includeOutside: bool): seq<Record> {
    if records == [] then []
    else
      var last := records[|records| - 1];
      Edits(records[..|records| - 1], includeOutside) +
        if last.event.Edit? && (includeOutside || !last.outside) then [last] else []
  }

  predicate Edited(records: seq<Record>) {
    Edits(records, false) != []
  }

  function SessionSize(records: seq<Record>): (nat, nat) {
    var recorded := Edits(records, false);
    (|set r | r in recorded && r.pathId.Some? :: r.pathId.value|, |recorded|)
  }

  predicate ObservationSound(records: seq<Record>) {
    exists r :: r in records && r.event.SessionOpen?
  }

  predicate WorthReporting(records: seq<Record>) {
    && ObservationSound(records) && Edited(records)
    && (SessionSize(records).0 >= WARN_MIN_FILES || SessionSize(records).1 >= WARN_MIN_EDITS)
  }

  // ----- where a session's records stand -----

  predicate OwnedBy(e: Named<Record>, s: Session) {
    e.repo.Some? && e.record.session == Some(s) && Owned(e.record.event)
  }

  predicate NamedRun(e: Named<Record>, s: Session) {
    e.repo.Some? && e.record.event.GraphTransition? && s != NOBODY && e.record.session == Some(s)
  }

  predicate UnnamedRun(e: Named<Record>, repo: string) {
    && e.repo == Some(repo) && e.record.event.GraphTransition?
    && (e.record.session.None? || e.record.session == Some(NOBODY))
  }

  /** The first opening of a session. */
  function OpenAt(h: History, s: Session): (r: Option<nat>)
    ensures r.Some? ==> r.value < |h| && OwnedBy(h[r.value], s) && h[r.value].record.event.SessionOpen?
  {
    if h == [] then None
    else
      var earlier := OpenAt(h[..|h| - 1], s);
      if earlier.Some? then earlier
      else if OwnedBy(h[|h| - 1], s) && h[|h| - 1].record.event.SessionOpen? then Some(|h| - 1)
      else None
  }

  /** Its last turn end or close. */
  function EndAt(h: History, s: Session): (r: Option<nat>)
    ensures r.Some? ==> r.value < |h| && OwnedBy(h[r.value], s) && Ending(h[r.value].record.event)
  {
    if h == [] then None
    else if OwnedBy(h[|h| - 1], s) && Ending(h[|h| - 1].record.event) then Some(|h| - 1)
    else EndAt(h[..|h| - 1], s)
  }

  function OwnedOf(h: History, s: Session): seq<Record> {
    if h == [] then []
    else OwnedOf(h[..|h| - 1], s) + if OwnedBy(h[|h| - 1], s) then [h[|h| - 1].record] else []
  }

  // ----- the report's pass -----

  datatype State = State(repo: string, openPosition: Option<nat>, endPosition: Option<nat>, closed: bool,
    records: seq<Record>)

  /** What one record does to its session's state. */
  function Noted(state: Option<State>, e: Named<Record>, position: nat): State
    requires e.repo.Some?
  {
    var st := if state.Some? then state.value else State(e.repo.value, None, None, false, []);
    var kept := st.(records := st.records + [e.record]);
    match e.record.event
    case Edit => kept
    case SessionOpen => if kept.openPosition.None? then kept.(openPosition := Some(position)) else kept
    case _ => kept.(endPosition := Some(position), closed := kept.closed || e.record.event.SessionClose?)
  }

  /** The state the pass has collected for one session. */
  function Collected(h: History, s: Session): Option<State> {
    if h == [] then None
    else
      var front, last := Collected(h[..|h| - 1], s), h[|h| - 1];
      if OwnedBy(last, s) then Some(Noted(front, last, |h| - 1)) else front
  }

  /** The pass's per-session states are the positions and records defined above. */
  lemma {:induction false} CollectedMeans(h: History, s: Session)
    ensures Collected(h, s).None? ==> OpenAt(h, s).None? && EndAt(h, s).None? && OwnedOf(h, s) == []
    ensures Collected(h, s).Some? ==>
      var st := Collected(h, s).value;
      st.openPosition == OpenAt(h, s) && st.endPosition == EndAt(h, s) && st.records == OwnedOf(h, s)
  {
    if h != [] {
      CollectedMeans(h[..|h| - 1], s);
    }
  }

  function NamedRuns(h: History, s: Session): seq<nat> {
    if h == [] then [] else NamedRuns(h[..|h| - 1], s) + if NamedRun(h[|h| - 1], s) then [|h| - 1] else []
  }

  datatype Run = Run(position: nat, repo: string)

  function UnnamedRuns(h: History): seq<Run> {
    if h == [] then []
    else
      var last := h[|h| - 1];
      UnnamedRuns(h[..|h| - 1]) +
        if last.repo.Some? && UnnamedRun(last, last.repo.value) then [Run(|h| - 1, last.repo.value)] else []
  }

  function CountAfter(runs: seq<nat>, start: nat): nat {
    if runs == [] then 0
    else CountAfter(runs[..|runs| - 1], start) + if runs[|runs| - 1] > start then 1 else 0
  }

  function CountBetween(runs: seq<Run>, repo: string, start: nat, end: nat): nat {
    if runs == [] then 0
    else
      var last := runs[|runs| - 1];
      CountBetween(runs[..|runs| - 1], repo, start, end) +
        if last.repo == repo && start < last.position < end then 1 else 0
  }

  lemma {:induction false} CountedAfter(h: History, s: Session, start: nat)
    ensures CountAfter(NamedRuns(h, s), start) > 0 <==> exists p: nat {:trigger h[p]} ::
      start < p < |h| && NamedRun(h[p], s)
  {
    if h != [] {
      var front := h[..|h| - 1];
      CountedAfter(front, s, start);
      var runs, more := NamedRuns(front, s), NamedRuns(h, s);
      assert more != runs ==> more[..|more| - 1] == runs;
      assert forall p: nat | p < |front| :: front[p] == h[p];
    }
  }

  lemma {:induction false} CountedBetween(h: History, repo: string, start: nat, end: nat)
    ensures CountBetween(UnnamedRuns(h), repo, start, end) > 0 <==>
      exists p: nat {:trigger h[p]} :: start < p < end && p < |h| && UnnamedRun(h[p], repo)
  {
    if h != [] {
      var front := h[..|h| - 1];
      CountedBetween(front, repo, start, end);
      var runs, more := UnnamedRuns(front), UnnamedRuns(h);
      assert more != runs ==> more[..|more| - 1] == runs;
      assert forall p: nat | p < |front| :: front[p] == h[p];
    }
  }

  /** How many runs count for a session: named ones after its start, unnamed ones inside its window. */
  function Transitions(named: seq<nat>, unnamed: seq<Run>, st: State): nat {
    if st.openPosition.None? then 0
    else
      CountAfter(named, st.openPosition.value)
      + if st.endPosition.None? then 0
        else CountBetween(unnamed, st.repo, st.openPosition.value, st.endPosition.value)
  }

  datatype Window = Window(state: State, transitions: nat)

  /** What the report knows of one session. */
  function WindowOf(h: History, s: Session): Window
    requires Collected(h, s).Some?
  {
    var st := Collected(h, s).value;
    Window(st, Transitions(NamedRuns(h, s), UnnamedRuns(h), st))
  }

  /** `_windows`, as it loops. */
  method Windows(h: History) returns (sessions: map<Session, Window>)
    ensures forall s: Session :: s in sessions <==> Collected(h, s).Some?
    ensures forall s {:trigger sessions[s]} | s in sessions ::
      Collected(h, s).Some? && sessions[s] == WindowOf(h, s)
  {
    hide Noted, OwnedBy, NamedRun, UnnamedRun, Collected, NamedRuns, UnnamedRuns, Transitions;
    var states: map<Session, State> := map[];
    var transitions: seq<Run> := [];
    var attributed: map<Session, seq<nat>> := map[];
    assert h[..0] == [];
    NothingYet();
    for i := 0 to |h|
      invariant forall s: Session :: s in states <==> Collected(h[..i], s).Some?
      invariant forall s {:trigger states[s]} | s in states :: Collected(h[..i], s) == Some(states[s])
      invariant transitions == UnnamedRuns(h[..i])
      invariant forall s: Session :: NamedRuns(h[..i], s) == if s in attributed then attributed[s] else []
    {
      var e := h[i];
      OneMoreRecord(h, i);
      if e.repo.Some? {
        if e.record.event.GraphTransition? {
          if e.record.session.Some? && e.record.session.value != NOBODY {
            var s := e.record.session.value;
            attributed := attributed[s := (if s in attributed then attributed[s] else []) + [i]];
          } else {
            transitions := transitions + [Run(i, e.repo.value)];
          }
        } else if e.record.session.Some? && Owned(e.record.event) {
          var s := e.record.session.value;
          states := states[s := Noted(if s in states then Some(states[s]) else None, e, i)];
        }
      }
    }
    assert h[..|h|] == h;
    sessions := map s | s in states :: Window(states[s], Transitions(
      if s in attributed then attributed[s] else [], transitions, states[s]));
  }

  lemma NothingYet()
    ensures UnnamedRuns([]) == []
    ensures forall s: Session :: Collected([], s).None? && NamedRuns([], s) == []
  {
  }

  /** The three tallies, one record further on. */
  lemma OneMoreRecord(h: History, i: nat)
    requires i < |h|
    ensures var e := h[i];
      var transition := e.repo.Some? && e.record.event.GraphTransition?;
      var named := e.record.session.Some? && e.record.session.value != NOBODY;
      var owned := e.repo.Some? && !transition && e.record.session.Some? && Owned(e.record.event);
      && (forall s: Session :: Collected(h[..i + 1], s) ==
            if owned && e.record.session == Some(s) then Some(Noted(Collected(h[..i], s), e, i))
            else Collected(h[..i], s))
      && UnnamedRuns(h[..i + 1]) ==
           UnnamedRuns(h[..i]) + (if transition && !named then [Run(i, e.repo.value)] else [])
      && (forall s: Session :: NamedRuns(h[..i + 1], s) ==
            NamedRuns(h[..i], s) + if transition && named && e.record.session == Some(s) then [i] else [])
  {
    assert h[..i + 1][..i] == h[..i];
  }

  datatype Kind = Conformant | Bypass | Unattributed | Incomplete | Unobserved
  datatype Confidence = High | Medium | Low
  datatype Verdict = Verdict(kind: Kind, transitions: nat, changedFiles: nat, edits: nat, outsideEdits: int,
    confidence: Confidence)

  /** `_judge`. */
  function Judge(w: Window): Verdict {
    if w.state.openPosition.None? then Verdict(Unobserved, w.transitions, 0, 0, 0, Low)
    else if w.state.endPosition.None? then Verdict(Incomplete, w.transitions, 0, 0, 0, Low)
    else
      var (files, calls) := SessionSize(w.state.records);
      Verdict(
        if !Edited(w.state.records) then Unattributed else if w.transitions > 0 then Conformant else Bypass,
        w.transitions, files, calls, |Edits(w.state.records, true)| - calls,
        if w.state.closed then High else Medium)
  }

  // ----- the hook's pass -----

  /** A session the hook may weigh: opened, and ended after that, before the cut. */
  predicate Candidate(h: History, cut: nat, s: Session)
    requires cut <= |h|
  {
    OpenAt(h[..cut], s).Some? && EndAt(h[..cut], s).Some? && EndAt(h[..cut], s).value > OpenAt(h[..cut], s).value
  }

  /** A run counts for the session: a named one from its start on, an unnamed one inside its window. */
  ghost predicate UsedGraph(h: History, cut: nat, s: Session)
    requires cut <= |h| && Candidate(h, cut, s)
  {
    var start, end := OpenAt(h[..cut], s).value, EndAt(h[..cut], s).value;
    || (exists p {:trigger h[p]} :: start < p < |h| && NamedRun(h[p], s))
    || (exists p {:trigger h[p]} :: start < p < end && p < |h| && h[p].repo.Some? && UnnamedRun(h[p], h[p].repo.value))
  }

  ghost predicate AlreadyReported(h: History, s: Session) {
    exists p {:trigger h[p]} :: 0 <= p < |h| && h[p].record.event.BypassReported? && h[p].record.session == Some(s)
  }

  predicate Worth(h: History, cut: nat, s: Session)
    requires cut <= |h|
  {
    WorthReporting(OwnedOf(h[..cut], s))
  }

  function SessionsIn(h: History): set<Session> {
    set i | 0 <= i < |h| && h[i].record.session.Some? :: h[i].record.session.value
  }

  /** Candidates that ended after `s` did. */
  function Later(h: History, cut: nat, s: Session): set<Session>
    requires cut <= |h| && Candidate(h, cut, s)
  {
    set t | t in SessionsIn(h) && Candidate(h, cut, t) && EndAt(h[..cut], t).value > EndAt(h[..cut], s).value
  }

  /** The scan gets past a session: it did not use the graph, and was reported already or is too small. */
  ghost predicate Passed(h: History, cut: nat, t: Session)
    requires cut <= |h| && Candidate(h, cut, t)
  {
    !UsedGraph(h, cut, t) && (AlreadyReported(h, t) || !Worth(h, cut, t))
  }

  /** The session the hook announces, said without a loop. */
  ghost predicate Announces(h: History, cut: nat, s: Session)
    requires cut <= |h|
  {
    && Candidate(h, cut, s) && !UsedGraph(h, cut, s) && !AlreadyReported(h, s) && Worth(h, cut, s)
    && |Later(h, cut, s)| < MAX_CANDIDATES
    && forall t {:trigger Candidate(h, cut, t)} | Candidate(h, cut, t) && t in Later(h, cut, s) :: Passed(h, cut, t)
  }

  // ----- `previous_bypass`, as it loops -----

  function ReportedIn(h: History): set<Session> {
    if h == [] then {}
    else
      var last := h[|h| - 1].record;
      ReportedIn(h[..|h| - 1]) + if last.event.BypassReported? && last.session.Some? then {last.session.value} else {}
  }

  lemma {:induction false} ReportedMeans(h: History, s: Session)
    ensures s in ReportedIn(h) <==> AlreadyReported(h, s)
  {
    if h != [] {
      var front := h[..|h| - 1];
      ReportedMeans(front, s);
      assert forall p: nat {:trigger h[p]} | p < |front| :: front[p] == h[p];
      if AlreadyReported(front, s) {
        var p :| 0 <= p < |front| && front[p].record.event.BypassReported? && front[p].record.session == Some(s);
        assert h[p] == front[p];
      }
    }
  }

  /** What the loop has gathered: positions and records before the cut, runs and claims over everything read so far. */
  datatype Gathered = Gathered(
    opens: map<Session, nat>,
    ends: map<Session, nat>,
    owned: map<Session, seq<Record>>,
    attributed: map<Session, seq<nat>>,
    transitions: seq<Run>,
    reported: set<Session>)

  function Lookup<T>(m: map<Session, T>, s: Session): Option<T> {
    if s in m then Some(m[s]) else None
  }

  function OrEmpty<T>(m: map<Session, seq<T>>, s: Session): seq<T> {
    if s in m then m[s] else []
  }

  ghost predicate Gathers(h: History, cut: nat, i: nat, g: Gathered)
    requires cut <= |h| && i <= |h|
  {
    var c := if i < cut then i else cut;
    && (forall s: Session {:trigger Lookup(g.opens, s)} :: Lookup(g.opens, s) == OpenAt(h[..c], s))
    && (forall s: Session {:trigger Lookup(g.ends, s)} :: Lookup(g.ends, s) == EndAt(h[..c], s))
    && (forall s: Session {:trigger OrEmpty(g.owned, s)} :: OrEmpty(g.owned, s) == OwnedOf(h[..c], s))
    && (forall s: Session {:trigger OrEmpty(g.attributed, s)} :: OrEmpty(g.attributed, s) == NamedRuns(h[..i], s))
    && g.transitions == UnnamedRuns(h[..i])
    && g.reported == ReportedIn(h[..i])
  }

  /** One turn of the loop. */
  function Gather(g: Gathered, e: Named<Record>, position: nat, cut: nat): Gathered
    requires e.repo.Some?
  {
    var r := e.record;
    if r.event.GraphTransition? then
      if r.session.Some? && r.session.value != NOBODY then
        g.(attributed := g.attributed[r.session.value := OrEmpty(g.attributed, r.session.value) + [position]])
      else g.(transitions := g.transitions + [Run(position, e.repo.value)])
    else if r.session.None? then g
    else
      var s := r.session.value;
      if r.event.BypassReported? then g.(reported := g.reported + {s})
      else if position >= cut || !Owned(r.event) then g
      else
        var kept := g.(owned := g.owned[s := OrEmpty(g.owned, s) + [r]]);
        if r.event.SessionOpen? then (if s in g.opens then kept else kept.(opens := g.opens[s := position]))
        else if Ending(r.event) then kept.(ends := g.ends[s := position])
        else kept
  }

  lemma GatherOneBounds(h: History, cut: nat, i: nat, g: Gathered, s: Session)
    requires cut <= |h| && i < cut && h[i].repo.Some?
    requires Lookup(g.opens, s) == OpenAt(h[..i], s) && Lookup(g.ends, s) == EndAt(h[..i], s)
    ensures var n := Gather(g, h[i], i, cut);
      Lookup(n.opens, s) == OpenAt(h[..i + 1], s) && Lookup(n.ends, s) == EndAt(h[..i + 1], s)
  {
    assert h[..i + 1][..i] == h[..i];
  }

  lemma GatherOneOwned(h: History, cut: nat, i: nat, g: Gathered, s: Session)
    requires cut <= |h| && i < cut && h[i].repo.Some?
    requires OrEmpty(g.owned, s) == OwnedOf(h[..i], s)
    ensures OrEmpty(Gather(g, h[i], i, cut).owned, s) == OwnedOf(h[..i + 1], s)
  {
    assert h[..i + 1][..i] == h[..i];
  }

  lemma GatherStepBefore(h: History, cut: nat, i: nat, g: Gathered)
    requires cut <= |h| && i < |h| && h[i].repo.Some? && Gathers(h, cut, i, g)
    ensures var c := if i + 1 < cut then i + 1 else cut;
      var n := Gather(g, h[i], i, cut);
      && (forall s: Session {:trigger Lookup(n.opens, s)} :: Lookup(n.opens, s) == OpenAt(h[..c], s))
      && (forall s: Session {:trigger Lookup(n.ends, s)} :: Lookup(n.ends, s) == EndAt(h[..c], s))
      && (forall s: Session {:trigger OrEmpty(n.owned, s)} :: OrEmpty(n.owned, s) == OwnedOf(h[..c], s))
  {
    hide OpenAt, EndAt, OwnedOf, Gather, Lookup, OrEmpty;
    var n := Gather(g, h[i], i, cut);
    if i < cut {
      forall s: Session
        ensures Lookup(n.opens, s) == OpenAt(h[..i + 1], s) && Lookup(n.ends, s) == EndAt(h[..i + 1], s)
        ensures OrEmpty(n.owned, s) == OwnedOf(h[..i + 1], s)
      {
        assert Lookup(g.opens, s) == OpenAt(h[..i], s);
        assert Lookup(g.ends, s) == EndAt(h[..i], s);
        assert OrEmpty(g.owned, s) == OwnedOf(h[..i], s);
        GatherOneBounds(h, cut, i, g, s);
        GatherOneOwned(h, cut, i, g, s);
      }
    } else {
      GatherLeaves(g, h[i], i, cut);
    }
  }

  lemma GatherLeaves(g: Gathered, e: Named<Record>, position: nat, cut: nat)
    requires e.repo.Some? && position >= cut
    ensures var n := Gather(g, e, position, cut); n.opens == g.opens && n.ends == g.ends && n.owned == g.owned
  {
  }

  lemma GatherStepAll(h: History, cut: nat, i: nat, g: Gathered)
    requires cut <= |h| && i < |h| && h[i].repo.Some? && Gathers(h, cut, i, g)
    ensures var n := Gather(g, h[i], i, cut);
      && (forall s: Session {:trigger OrEmpty(n.attributed, s)} :: OrEmpty(n.attributed, s) == NamedRuns(h[..i + 1], s))
      && n.transitions == UnnamedRuns(h[..i + 1])
      && n.reported == ReportedIn(h[..i + 1])
  {
    assert h[..i + 1][..i] == h[..i];
    var n := Gather(g, h[i], i, cut);
    forall s: Session ensures OrEmpty(n.attributed, s) == NamedRuns(h[..i + 1], s) {
      assert OrEmpty(g.attributed, s) == NamedRuns(h[..i], s);
    }
  }

  lemma NothingGathered(h: History, cut: nat)
    requires cut <= |h|
    ensures Gathers(h, cut, 0, Gathered(map[], map[], map[], map[], [], {}))
  {
    assert h[..0] == [];
  }

  /** A finished session: where it started and ended. */
  datatype Finished = Finished(session: Session, start: nat, end: nat)

  /** The finished sessions, newest end first. */
  ghost predicate Listing(h: History, cut: nat, done: set<Session>, list: seq<Finished>)
    requires cut <= |h|
  {
    && (forall k {:trigger list[k]} | 0 <= k < |list| :: IsFinished(h, cut, list[k]) && list[k].session in done)
    && (forall s {:trigger Candidate(h, cut, s)} | s in done && Candidate(h, cut, s) ::
          exists k :: 0 <= k < |list| && list[k].session == s)
    && Descending(list)
  }

  predicate IsFinished(h: History, cut: nat, f: Finished)
    requires cut <= |h|
  {
    && Candidate(h, cut, f.session)
    && f.start == OpenAt(h[..cut], f.session).value && f.end == EndAt(h[..cut], f.session).value
  }

  function InsertFinished(f: Finished, list: seq<Finished>): seq<Finished> {
    if list == [] || f.end > list[0].end then [f] + list else [list[0]] + InsertFinished(f, list[1..])
  }

  lemma {:induction false} InsertMembers(f: Finished, list: seq<Finished>)
    ensures forall x :: x in InsertFinished(f, list) <==> x == f || x in list
  {
    if list != [] {
      InsertMembers(f, list[1..]);
      assert list == [list[0]] + list[1..];
    }
  }

  predicate Descending(list: seq<Finished>) {
    forall j, k {:trigger list[j], list[k]} | 0 <= j < k < |list| :: list[j].end > list[k].end
  }

  lemma PrependDescending(f: Finished, list: seq<Finished>)
    requires Descending(list) && forall x | x in list :: f.end > x.end
    ensures Descending([f] + list)
  {
    var r := [f] + list;
    forall j, k | 0 <= j < k < |r| ensures r[j].end > r[k].end {
      assert r[k] == list[k - 1] && list[k - 1] in list;
      if j > 0 {
        assert r[j] == list[j - 1];
      }
    }
  }

  lemma HeadIsNewest(list: seq<Finished>)
    requires list != [] && Descending(list)
    ensures Descending(list[1..]) && forall x | x in list[1..] :: list[0].end > x.end
  {
    var tail := list[1..];
    forall j, k | 0 <= j < k < |tail| ensures tail[j].end > tail[k].end {
      assert tail[j] == list[j + 1] && tail[k] == list[k + 1];
    }
    forall x | x in tail ensures list[0].end > x.end {
      var m :| 0 <= m < |tail| && tail[m] == x;
      assert list[m + 1] == x;
    }
  }

  lemma {:induction false} InsertDescending(f: Finished, list: seq<Finished>)
    requires Descending(list) && forall x | x in list :: x.end != f.end
    ensures Descending(InsertFinished(f, list))
  {
    hide Descending;
    if list == [] {
      PrependDescending(f, []) by { EmptyDescending(); }
    } else {
      HeadIsNewest(list);
      assert list[0] in list;
      if f.end > list[0].end {
        assert list == [list[0]] + list[1..];
        PrependDescending(f, list);
      } else {
        assert forall x | x in list[1..] :: x in list;
        InsertDescending(f, list[1..]);
        InsertMembers(f, list[1..]);
        PrependDescending(list[0], InsertFinished(f, list[1..]));
      }
    }
  }

  lemma EmptyDescending()
    ensures Descending([])
  {
  }

  lemma DistinctEnds(h: History, s: Session, t: Session)
    ensures s != t && EndAt(h, s).Some? ==> EndAt(h, s) != EndAt(h, t)
  {
  }

  lemma Inserted(h: History, cut: nat, done: set<Session>, list: seq<Finished>, f: Finished)
    requires cut <= |h| && Listing(h, cut, done, list) && IsFinished(h, cut, f) && f.session !in done
    ensures Listing(h, cut, done + {f.session}, InsertFinished(f, list))
  {
    hide OpenAt, EndAt;
    var r := InsertFinished(f, list);
    InsertMembers(f, list);
    forall x | x in list ensures x.end != f.end {
      var k :| 0 <= k < |list| && list[k] == x;
      assert IsFinished(h, cut, list[k]);
      DistinctEnds(h[..cut], x.session, f.session);
    }
    InsertDescending(f, list);
    forall k | 0 <= k < |r| ensures IsFinished(h, cut, r[k]) && r[k].session in done + {f.session} {
      assert r[k] in r;
      if r[k] != f {
        var m :| 0 <= m < |list| && list[m] == r[k];
      }
    }
    forall s | s in done + {f.session} && Candidate(h, cut, s) ensures exists k :: 0 <= k < |r| && r[k].session == s {
      if s == f.session {
        assert f in r;
      } else {
        var m :| 0 <= m < |list| && list[m].session == s;
        assert list[m] in r;
      }
    }
  }

  lemma Skipped(h: History, cut: nat, done: set<Session>, list: seq<Finished>, s: Session)
    requires cut <= |h| && Listing(h, cut, done, list) && !Candidate(h, cut, s)
    ensures Listing(h, cut, done + {s}, list)
  {
  }

  method ListFinished(h: History, cut: nat, g: Gathered) returns (list: seq<Finished>)
    requires cut <= |h| && Gathers(h, cut, |h|, g)
    ensures Listing(h, cut, g.ends.Keys, list)
  {
    hide OpenAt, EndAt, Listing, InsertFinished, Gathers;
    list := [];
    var todo := g.ends.Keys;
    EmptyListing(h, cut);
    assert g.ends.Keys - todo == {};
    while todo != {}
      invariant todo <= g.ends.Keys && Listing(h, cut, g.ends.Keys - todo, list)
    {
      var s :| s in todo;
      GatheredBounds(h, cut, g, s);
      assert g.ends.Keys - (todo - {s}) == g.ends.Keys - todo + {s};
      if s in g.opens && g.ends[s] > g.opens[s] {
        Inserted(h, cut, g.ends.Keys - todo, list, Finished(s, g.opens[s], g.ends[s]));
        list := InsertFinished(Finished(s, g.opens[s], g.ends[s]), list);
      } else {
        Skipped(h, cut, g.ends.Keys - todo, list, s);
      }
      todo := todo - {s};
    }
    assert g.ends.Keys - {} == g.ends.Keys;
  }

  lemma EmptyListing(h: History, cut: nat)
    requires cut <= |h|
    ensures Listing(h, cut, {}, [])
  {
  }

  lemma GatheredBounds(h: History, cut: nat, g: Gathered, s: Session)
    requires cut <= |h| && Gathers(h, cut, |h|, g)
    ensures Candidate(h, cut, s) <==> s in g.opens && s in g.ends && g.ends[s] > g.opens[s]
    ensures s in g.opens && s in g.ends && g.ends[s] > g.opens[s] ==>
      IsFinished(h, cut, Finished(s, g.opens[s], g.ends[s]))
    ensures OrEmpty(g.owned, s) == OwnedOf(h[..cut], s)
  {
    hide OpenAt, EndAt, OwnedOf;
    assert Lookup(g.opens, s) == OpenAt(h[..cut], s);
    assert Lookup(g.ends, s) == EndAt(h[..cut], s);
    assert OrEmpty(g.owned, s) == OwnedOf(h[..cut], s);
  }

  datatype Answer = Answer(session: Session, changedFiles: nat, edits: nat)

  ghost predicate AllNamed(h: History, repo: string) {
    forall i {:trigger h[i]} | 0 <= i < |h| :: h[i].repo == Some(repo)
  }

  lemma LaterByList(h: History, cut: nat, done: set<Session>, list: seq<Finished>, k: nat)
    requires cut <= |h| && Listing(h, cut, done, list) && k < |list|
    requires forall s {:trigger Candidate(h, cut, s)} | Candidate(h, cut, s) :: s in done
    ensures Candidate(h, cut, list[k].session)
    ensures forall t :: t in Later(h, cut, list[k].session) <==> exists j :: 0 <= j < k && list[j].session == t
  {
    hide OpenAt, EndAt;
    var s := list[k].session;
    forall t | t in Later(h, cut, s) ensures exists j :: 0 <= j < k && list[j].session == t {
      var j :| 0 <= j < |list| && list[j].session == t;
      assert IsFinished(h, cut, list[j]) && IsFinished(h, cut, list[k]);
    }
    forall j | 0 <= j < k ensures list[j].session in Later(h, cut, s) {
      assert IsFinished(h, cut, list[j]) && IsFinished(h, cut, list[k]);
      InSessions(h, cut, list[j].session);
    }
  }

  lemma InSessions(h: History, cut: nat, s: Session)
    requires cut <= |h| && Candidate(h, cut, s)
    ensures s in SessionsIn(h)
  {
    var o := OpenAt(h[..cut], s).value;
    assert h[..cut][o] == h[o];
    assert h[o].record.session == Some(s);
  }

  function SessionsOf(list: seq<Finished>): (r: seq<Session>)
    ensures |r| == |list| && forall i {:trigger r[i]} | 0 <= i < |list| :: r[i] == list[i].session
  {
    seq(|list|, i requires 0 <= i < |list| => list[i].session)
  }

  lemma LaterCount(h: History, cut: nat, done: set<Session>, list: seq<Finished>, k: nat)
    requires cut <= |h| && Listing(h, cut, done, list) && k < |list|
    requires forall s {:trigger Candidate(h, cut, s)} | Candidate(h, cut, s) :: s in done
    ensures Candidate(h, cut, list[k].session) && |Later(h, cut, list[k].session)| == k
  {
    hide OpenAt, EndAt, Candidate, Later;
    LaterByList(h, cut, done, list, k);
    var front := SessionsOf(list[..k]);
    forall i, j | 0 <= i < j < |front| ensures front[i] != front[j] {
      assert list[..k][i] == list[i] && list[..k][j] == list[j];
      assert IsFinished(h, cut, list[i]) && IsFinished(h, cut, list[j]);
    }
    DistinctCardinality(front);
    forall t ensures t in Later(h, cut, list[k].session) <==> t in Elements(front) {
      if t in Elements(front) {
        var j :| 0 <= j < |front| && front[j] == t;
        assert list[..k][j] == list[j];
        assert list[j].session == t;
      }
      if t in Later(h, cut, list[k].session) {
        var j :| 0 <= j < k && list[j].session == t;
        assert list[..k][j] == list[j];
        assert front[j] == t;
      }
    }
    assert Later(h, cut, list[k].session) == Elements(front);
  }

  /** The two tests of the scan for a use of the graph, over what the loop gathered. */
  predicate Used(g: Gathered, repo: string, f: Finished) {
    CountAfter(OrEmpty(g.attributed, f.session), f.start) > 0 || CountBetween(g.transitions, repo, f.start, f.end) > 0
  }

  lemma UsedMeans(h: History, cut: nat, g: Gathered, repo: string, f: Finished)
    requires cut <= |h| && Gathers(h, cut, |h|, g) && AllNamed(h, repo) && IsFinished(h, cut, f)
    ensures Used(g, repo, f) <==> UsedGraph(h, cut, f.session)
    ensures f.session in g.reported <==> AlreadyReported(h, f.session)
    ensures OrEmpty(g.owned, f.session) == OwnedOf(h[..cut], f.session)
  {
    hide OpenAt, EndAt, OwnedOf, NamedRuns, UnnamedRuns, CountAfter, CountBetween, ReportedIn, AlreadyReported,
      NamedRun, UnnamedRun;
    assert h[..|h|] == h;
    assert OrEmpty(g.attributed, f.session) == NamedRuns(h, f.session);
    assert OrEmpty(g.owned, f.session) == OwnedOf(h[..cut], f.session);
    CountedAfter(h, f.session, f.start);
    CountedBetween(h, repo, f.start, f.end);
    ReportedMeans(h, f.session);
  }

  /** `previous_bypass`, given what `read_repo` yields and where the asking session opened. */
  method PreviousBypass(repo: string, h: History, cut: nat) returns (answer: Option<Answer>)
    requires cut <= |h| && AllNamed(h, repo)
    ensures answer.Some? ==> Announces(h, cut, answer.value.session)
    ensures answer.Some? ==>
      (answer.value.changedFiles, answer.value.edits) == SessionSize(OwnedOf(h[..cut], answer.value.session))
    ensures answer.None? ==> forall s: Session :: !Announces(h, cut, s)
  {
    hide OpenAt, EndAt, Gathers, Gather, Announces, Listing, UsedGraph, AlreadyReported, WorthReporting, SessionSize,
      Used, Candidate;
    var g := Gathered(map[], map[], map[], map[], [], {});
    NothingGathered(h, cut);
    for position := 0 to |h|
      invariant Gathers(h, cut, position, g)
    {
      assert h[position].repo == Some(repo);
      OneMoreGathered(h, cut, position, g);
      g := Gather(g, h[position], position, cut);
    }
    var finished := ListFinished(h, cut, g);
    answer := Scan(repo, h, cut, g, finished);
  }

  lemma OneMoreGathered(h: History, cut: nat, i: nat, g: Gathered)
    requires cut <= |h| && i < |h| && h[i].repo.Some? && Gathers(h, cut, i, g)
    ensures Gathers(h, cut, i + 1, Gather(g, h[i], i, cut))
  {
    hide OpenAt, EndAt, OwnedOf, Gather, NamedRuns, UnnamedRuns, ReportedIn;
    GatherStepBefore(h, cut, i, g);
    GatherStepAll(h, cut, i, g);
  }

  /** Newest first, at most five, past the sessions not worth a word, up to the first that used the graph. */
  method Scan(repo: string, h: History, cut: nat, g: Gathered, finished: seq<Finished>) returns (answer: Option<Answer>)
    requires cut <= |h| && AllNamed(h, repo) && Gathers(h, cut, |h|, g) && Listing(h, cut, g.ends.Keys, finished)
    ensures answer.Some? ==> Announces(h, cut, answer.value.session)
    ensures answer.Some? ==>
      (answer.value.changedFiles, answer.value.edits) == SessionSize(OwnedOf(h[..cut], answer.value.session))
    ensures answer.None? ==> forall s: Session :: !Announces(h, cut, s)
  {
    hide OpenAt, EndAt, Gathers, Announces, Listing, UsedGraph, AlreadyReported, WorthReporting, SessionSize, Used,
      Candidate, IsFinished;
    var limit := if |finished| < MAX_CANDIDATES then |finished| else MAX_CANDIDATES;
    AllCandidatesEnd(h, cut, g);
    for k := 0 to limit
      invariant forall j {:trigger finished[j]} | 0 <= j < k :: PassedOver(h, cut, finished[j].session)
    {
      var f := finished[k];
      ListedIsFinished(h, cut, g.ends.Keys, finished, k);
      UsedMeans(h, cut, g, repo, f);
      if Used(g, repo, f) {
        StopsHere(h, cut, g.ends.Keys, finished, k);
        return None;
      }
      var records := OrEmpty(g.owned, f.session);
      if f.session !in g.reported && WorthReporting(records) {
        Announced(h, cut, g.ends.Keys, finished, k);
        var (files, calls) := SessionSize(records);
        return Some(Answer(f.session, files, calls));
      }
      FinishedIsCandidate(h, cut, f);
    }
    NobodyAnnounced(h, cut, g.ends.Keys, finished, limit);
    return None;
  }

  ghost predicate PassedOver(h: History, cut: nat, t: Session)
    requires cut <= |h|
  {
    Candidate(h, cut, t) && Passed(h, cut, t)
  }

  lemma FinishedIsCandidate(h: History, cut: nat, f: Finished)
    requires cut <= |h| && IsFinished(h, cut, f)
    ensures Candidate(h, cut, f.session)
  {
  }

  lemma ListedIsFinished(h: History, cut: nat, done: set<Session>, list: seq<Finished>, k: nat)
    requires cut <= |h| && Listing(h, cut, done, list) && k < |list|
    ensures IsFinished(h, cut, list[k]) && Candidate(h, cut, list[k].session)
  {
    hide OpenAt, EndAt;
  }

  lemma AllCandidatesEnd(h: History, cut: nat, g: Gathered)
    requires cut <= |h| && Gathers(h, cut, |h|, g)
    ensures forall s {:trigger Candidate(h, cut, s)} | Candidate(h, cut, s) :: s in g.ends.Keys
  {
    hide OpenAt, EndAt, Gathers, Candidate;
    forall s | Candidate(h, cut, s) ensures s in g.ends.Keys {
      GatheredBounds(h, cut, g, s);
    }
  }

  lemma Announced(h: History, cut: nat, done: set<Session>, list: seq<Finished>, k: nat)
    requires cut <= |h| && Listing(h, cut, done, list) && k < |list| && k < MAX_CANDIDATES
    requires forall s {:trigger Candidate(h, cut, s)} | Candidate(h, cut, s) :: s in done
    requires forall j {:trigger list[j]} | 0 <= j < k :: PassedOver(h, cut, list[j].session)
    requires Candidate(h, cut, list[k].session) && !UsedGraph(h, cut, list[k].session)
    requires !AlreadyReported(h, list[k].session) && Worth(h, cut, list[k].session)
    ensures Announces(h, cut, list[k].session)
  {
    hide OpenAt, EndAt, Candidate, UsedGraph, AlreadyReported, Worth, Later, Passed;
    LaterCount(h, cut, done, list, k);
    LaterByList(h, cut, done, list, k);
    forall t | Candidate(h, cut, t) && t in Later(h, cut, list[k].session) ensures Passed(h, cut, t) {
      var j :| 0 <= j < k && list[j].session == t;
      assert PassedOver(h, cut, list[j].session);
    }
  }

  ghost predicate StandsAt(h: History, cut: nat, list: seq<Finished>, s: Session, m: nat)
    requires cut <= |h|
  {
    && m < |list| && m < MAX_CANDIDATES && list[m].session == s
    && forall j {:trigger list[j]} | 0 <= j < m :: PassedOver(h, cut, list[j].session)
  }

  /** An announced session stands in the list among the first five, with everything before it passed over. */
  lemma AnnouncedStands(h: History, cut: nat, done: set<Session>, list: seq<Finished>, s: Session)
    requires cut <= |h| && Listing(h, cut, done, list)
    requires forall t {:trigger Candidate(h, cut, t)} | Candidate(h, cut, t) :: t in done
    ensures Announces(h, cut, s) ==> exists m: nat :: StandsAt(h, cut, list, s, m)
  {
    hide OpenAt, EndAt, UsedGraph, AlreadyReported, Worth, Later, Passed, Candidate;
    if Announces(h, cut, s) {
      var m: nat :| m < |list| && list[m].session == s;
      LaterCount(h, cut, done, list, m);
      LaterByList(h, cut, done, list, m);
      forall j | 0 <= j < m ensures PassedOver(h, cut, list[j].session) {
        ListedIsFinished(h, cut, done, list, j);
        assert list[j].session in Later(h, cut, s);
      }
      assert StandsAt(h, cut, list, s, m);
    }
  }

  lemma StopsHere(h: History, cut: nat, done: set<Session>, list: seq<Finished>, k: nat)
    requires cut <= |h| && Listing(h, cut, done, list) && k < |list|
    requires forall s {:trigger Candidate(h, cut, s)} | Candidate(h, cut, s) :: s in done
    requires forall j {:trigger list[j]} | 0 <= j < k :: PassedOver(h, cut, list[j].session)
    requires Candidate(h, cut, list[k].session) && UsedGraph(h, cut, list[k].session)
    ensures forall s: Session :: !Announces(h, cut, s)
  {
    hide OpenAt, EndAt, Listing, UsedGraph, AlreadyReported, Worth, Later, Candidate;
    forall s: Session ensures !Announces(h, cut, s) {
      AnnouncedStands(h, cut, done, list, s);
      forall m: nat | StandsAt(h, cut, list, s, m) ensures !Announces(h, cut, s) {
      }
    }
  }

  lemma NobodyAnnounced(h: History, cut: nat, done: set<Session>, list: seq<Finished>, limit: nat)
    requires cut <= |h| && Listing(h, cut, done, list)
    requires limit == if |list| < MAX_CANDIDATES then |list| else MAX_CANDIDATES
    requires forall s {:trigger Candidate(h, cut, s)} | Candidate(h, cut, s) :: s in done
    requires forall j {:trigger list[j]} | 0 <= j < limit :: PassedOver(h, cut, list[j].session)
    ensures forall s: Session :: !Announces(h, cut, s)
  {
    hide OpenAt, EndAt, Listing, UsedGraph, Later, Candidate;
    forall s: Session ensures !Announces(h, cut, s) {
      AnnouncedStands(h, cut, done, list, s);
      forall m: nat | StandsAt(h, cut, list, s, m) ensures !Announces(h, cut, s) {
      }
    }
  }

  // ----- where the asking session cuts the history -----

  /** The fields by which the asking session's opening record is found again. */
  predicate SameIdentity(a: Record, b: Record) {
    a.event == b.event && a.session == b.session && a.ts == b.ts
  }

  /** The cut is the last record matching the caller's own, or the end when there is none. */
  ghost predicate CutsAt(h: History, since: Option<Record>, cut: nat) {
    && cut <= |h|
    && (since.None? ==> cut == |h|)
    && (since.Some? && cut < |h| ==> SameIdentity(h[cut].record, since.value))
    && (since.Some? ==> forall i | cut < i < |h| :: !SameIdentity(h[i].record, since.value))
    && (since.Some? && cut == |h| ==> forall i | 0 <= i < |h| :: !SameIdentity(h[i].record, since.value))
  }

  /** `_cut_position`, searching from the newest record back. */
  method CutPosition(h: History, since: Option<Record>) returns (cut: nat)
    ensures CutsAt(h, since, cut)
  {
    if since.None? {
      return |h|;
    }
    var index := |h|;
    while index > 0
      invariant 0 <= index <= |h|
      invariant forall i | index <= i < |h| :: !SameIdentity(h[i].record, since.value)
    {
      index := index - 1;
      if SameIdentity(h[index].record, since.value) {
        return index;
      }
    }
    return |h|;
  }
}
