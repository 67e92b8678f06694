/** The overlap sweep that replaces comparing every pair of sessions. */
module OverlapSweep {
  import opened Basics

  /** A timestamp by its rank among strings; the empty string ranks lowest. */
  type Stamp = nat
  datatype Bounds = Observed | ThreadLifetime

  /** One verdict. A bound that was never recorded, or not as a string, is None. Only the flag is written to. */
  class SessionVerdict {
    const repo: nat
    const startedAt: Option<Stamp>
    const endedAt: Option<Stamp>
    const bounds: Option<Bounds>
    var contested: bool

    constructor (repo: nat, startedAt: Option<Stamp>, endedAt: Option<Stamp>, bounds: Option<Bounds>)
      ensures this.repo == repo && this.startedAt == startedAt && this.endedAt == endedAt && this.bounds == bounds
      ensures !contested
    {
      this.repo := repo;
      this.startedAt := startedAt;
      this.endedAt := endedAt;
      this.bounds := bounds;
      contested := false;
    }
  }

  predicate Bounded(v: SessionVerdict) {
    v.startedAt.Some? && v.endedAt.Some?
  }

  /** The pairwise question: were two sessions open at the same time? */
  predicate Overlaps(a: SessionVerdict, b: SessionVerdict) {
    Bounded(a) && Bounded(b) && a.startedAt.value <= b.endedAt.value && b.startedAt.value <= a.endedAt.value
  }

  /** `w` stands in the list besides one entry of `v`: a second entry of the same object counts as another. */
  ghost predicate Other(all: multiset<SessionVerdict>, v: SessionVerdict, w: SessionVerdict) {
    all[w] > if w == v then 1 else 0
  }

  /** Some other entry of the list overlaps `v`. */
  ghost predicate HasPartner(all: multiset<SessionVerdict>, v: SessionVerdict) {
    exists w {:trigger Other(all, v, w)} :: w in all && Other(all, v, w) && Overlaps(v, w)
  }

  // ----- the order -----

  predicate KeyLe(a: SessionVerdict, b: SessionVerdict)
    requires Bounded(a) && Bounded(b)
  {
    a.startedAt.value < b.startedAt.value || (a.startedAt == b.startedAt && a.endedAt.value <= b.endedAt.value)
  }

  predicate AllBounded(s: seq<SessionVerdict>) {
    forall i {:trigger s[i]} | 0 <= i < |s| :: Bounded(s[i])
  }

  predicate ByStart(s: seq<SessionVerdict>)
    requires AllBounded(s)
  {
    forall i, j {:trigger s[i], s[j]} | 0 <= i <= j < |s| :: s[i].startedAt.value <= s[j].startedAt.value
  }

  function InsertVerdict(v: SessionVerdict, s: seq<SessionVerdict>): (r: seq<SessionVerdict>)
    requires Bounded(v) && AllBounded(s)
    ensures multiset(r) == multiset(s) + multiset{v} && AllBounded(r) && |r| == |s| + 1
  {
    if s == [] then [v]
    else if !KeyLe(s[0], v) then [v] + s
    else
      assert s == [s[0]] + s[1..];
      [s[0]] + InsertVerdict(v, s[1..])
  }

  lemma PrependByStart(v: SessionVerdict, s: seq<SessionVerdict>)
    requires Bounded(v) && AllBounded(s) && ByStart(s)
    requires s != [] ==> v.startedAt.value <= s[0].startedAt.value
    ensures AllBounded([v] + s) && ByStart([v] + s)
  {
    var r := [v] + s;
    forall i | 0 <= i < |r| ensures Bounded(r[i]) {
      assert i > 0 ==> r[i] == s[i - 1];
    }
    forall i, j | 0 <= i <= j < |r| ensures r[i].startedAt.value <= r[j].startedAt.value {
      assert i > 0 ==> r[i] == s[i - 1];
      assert j > 0 ==> r[j] == s[j - 1] && s[0].startedAt.value <= s[j - 1].startedAt.value;
    }
  }

  lemma TailByStart(s: seq<SessionVerdict>)
    requires s != [] && AllBounded(s) && ByStart(s)
    ensures Bounded(s[0]) && AllBounded(s[1..]) && ByStart(s[1..])
    ensures |s| > 1 ==> s[0].startedAt.value <= s[1].startedAt.value
  {
    var r := s[1..];
    forall i, j | 0 <= i <= j < |r| ensures r[i].startedAt.value <= r[j].startedAt.value {
      assert r[i] == s[i + 1] && r[j] == s[j + 1];
    }
  }

  lemma {:induction false} InsertByStart(v: SessionVerdict, s: seq<SessionVerdict>)
    requires Bounded(v) && AllBounded(s) && ByStart(s)
    ensures ByStart(InsertVerdict(v, s))
    ensures InsertVerdict(v, s)[0] == v || (s != [] && InsertVerdict(v, s)[0] == s[0])
  {
    hide ByStart, AllBounded;
    if s == [] {
      PrependByStart(v, []);
      assert [v] + [] == [v];
    } else {
      TailByStart(s);
      if KeyLe(s[0], v) {
        InsertByStart(v, s[1..]);
        PrependByStart(s[0], InsertVerdict(v, s[1..]));
      } else {
        PrependByStart(v, s);
      }
    }
  }

  /** `sorted` on (start, end), over the entries with both bounds. */
  function Ordered(s: seq<SessionVerdict>): (r: seq<SessionVerdict>)
    ensures AllBounded(r)
  {
    if s == [] then []
    else if Bounded(s[|s| - 1]) then InsertVerdict(s[|s| - 1], Ordered(s[..|s| - 1]))
    else Ordered(s[..|s| - 1])
  }

  lemma {:induction false} OrderedByStart(s: seq<SessionVerdict>)
    ensures ByStart(Ordered(s))
  {
    if s != [] {
      OrderedByStart(s[..|s| - 1]);
      if Bounded(s[|s| - 1]) {
        InsertByStart(s[|s| - 1], Ordered(s[..|s| - 1]));
      }
    }
  }

  /** Ordering loses and adds no bounded entry. */
  lemma {:induction false} OrderedCounts(s: seq<SessionVerdict>, v: SessionVerdict)
    ensures multiset(Ordered(s))[v] == if Bounded(v) then multiset(s)[v] else 0
  {
    if s != [] {
      var front := s[..|s| - 1];
      OrderedCounts(front, v);
      assert s == front + [s[|s| - 1]];
    }
  }

  lemma PartnersSurviveOrder(s: seq<SessionVerdict>, v: SessionVerdict)
    ensures HasPartner(multiset(Ordered(s)), v) <==> HasPartner(multiset(s), v)
  {
    if HasPartner(multiset(Ordered(s)), v) {
      var w :| w in multiset(Ordered(s)) && Other(multiset(Ordered(s)), v, w) && Overlaps(v, w);
      OrderedCounts(s, w);
      assert Other(multiset(s), v, w);
    }
    if HasPartner(multiset(s), v) {
      var w :| w in multiset(s) && Other(multiset(s), v, w) && Overlaps(v, w);
      OrderedCounts(s, w);
      assert Other(multiset(Ordered(s)), v, w);
    }
  }

  // ----- bisection -----

  method BisectRight(a: seq<nat>, x: nat) returns (r: nat)
    requires forall i, j | 0 <= i <= j < |a| :: a[i] <= a[j]
    ensures r <= |a|
    ensures forall i | 0 <= i < |a| :: a[i] <= x <==> i < r
  {
    var lo, hi := 0, |a|;
    while lo < hi
      invariant 0 <= lo <= hi <= |a|
      invariant forall i | 0 <= i < lo :: a[i] <= x
      invariant forall i | hi <= i < |a| :: x < a[i]
    {
      var mid := (lo + hi) / 2;
      if x < a[mid] {
        hi := mid;
      } else {
        lo := mid + 1;
      }
    }
    r := lo;
  }

  // ----- the prefix table -----

  /** An end with the index that reaches it; index -1 stands for nobody. */
  datatype Reach = Reach(end: Stamp, index: int)

  predicate Further(a: Reach, b: Reach) {
    a.end > b.end || (a.end == b.end && a.index > b.index)
  }

  /** `pair` holds the two furthest reaches among the first `k` entries. */
  predicate TwoFurthest(s: seq<SessionVerdict>, k: nat, top: Reach, second: Reach)
    requires k <= |s| && AllBounded(s)
  {
    && (k >= 1 ==> 0 <= top.index < k && top.end == s[top.index].endedAt.value)
    && (k == 0 ==> top == Reach(0, -1))
    && (k >= 2 ==> 0 <= second.index < k && second.index != top.index && second.end == s[second.index].endedAt.value)
    && (k < 2 ==> second == Reach(0, -1))
    && (forall i {:trigger s[i]} | 0 <= i < k && i != top.index :: s[i].endedAt.value <= second.end)
    && (forall i {:trigger s[i]} | 0 <= i < k :: s[i].endedAt.value <= top.end)
    && !Further(second, top)
  }

  datatype Pair = Pair(top: Reach, second: Reach)

  method PrefixTable(s: seq<SessionVerdict>) returns (prefix: seq<Pair>)
    requires AllBounded(s)
    ensures |prefix| == |s| + 1
    ensures forall k {:trigger prefix[k]} | 0 <= k <= |s| :: TwoFurthest(s, k, prefix[k].top, prefix[k].second)
  {
    hide TwoFurthest;
    var top, second := Reach(0, -1), Reach(0, -1);
    prefix := [Pair(top, second)];
    NobodyYet(s);
    for index := 0 to |s|
      invariant |prefix| == index + 1
      invariant TwoFurthest(s, index, top, second)
      invariant forall k {:trigger prefix[k]} | 0 <= k <= index :: TwoFurthest(s, k, prefix[k].top, prefix[k].second)
    {
      assert Bounded(s[index]);
      var reach := Reach(s[index].endedAt.value, index);
      OneMore(s, index, top, second, reach);
      if Further(reach, top) {
        top, second := reach, top;
      } else if Further(reach, second) {
        second := reach;
      }
      prefix := prefix + [Pair(top, second)];
    }
  }

  lemma NobodyYet(s: seq<SessionVerdict>)
    requires AllBounded(s)
    ensures TwoFurthest(s, 0, Reach(0, -1), Reach(0, -1))
  {
  }

  lemma OneMore(s: seq<SessionVerdict>, k: nat, top: Reach, second: Reach, reach: Reach)
    requires k < |s| && AllBounded(s) && TwoFurthest(s, k, top, second)
    requires Bounded(s[k]) && reach == Reach(s[k].endedAt.value, k)
    ensures if Further(reach, top) then TwoFurthest(s, k + 1, reach, top)
            else if Further(reach, second) then TwoFurthest(s, k + 1, top, reach)
            else TwoFurthest(s, k + 1, top, second)
  {
  }

  // ----- one question per session is enough -----

  /** Some entry of the ordered list, at another position, overlaps entry `i`. */
  ghost predicate OverlapsAnother(s: seq<SessionVerdict>, i: nat)
    requires i < |s|
  {
    exists j {:trigger s[j]} :: 0 <= j < |s| && j != i && Overlaps(s[i], s[j])
  }

  /**
   * Among the sessions starting no later than `i` ends, the one reaching furthest, other than `i`, decides:
   * for inverted and identical windows as well.
   */
  lemma FurthestDecides(s: seq<SessionVerdict>, i: nat, candidates: nat, top: Reach, second: Reach)
    requires i < |s| && candidates <= |s| && AllBounded(s) && TwoFurthest(s, candidates, top, second)
    requires Bounded(s[i])
    requires forall j {:trigger s[j]} | 0 <= j < |s| ::
      s[j].startedAt.Some? && (s[j].startedAt.value <= s[i].endedAt.value <==> j < candidates)
    ensures var chosen := if top.index == i then second else top;
      chosen.index < |s| && (OverlapsAnother(s, i) <==> chosen.index >= 0 && Overlaps(s[i], s[chosen.index]))
  {
    var chosen := if top.index == i then second else top;
    if OverlapsAnother(s, i) {
      var j :| 0 <= j < |s| && j != i && Overlaps(s[i], s[j]);
      assert j < candidates;
      assert s[j].endedAt.value <= chosen.end;
      assert chosen.index >= 0 && Bounded(s[chosen.index]);
      assert s[chosen.index].startedAt.value <= s[i].endedAt.value;
    }
  }

  lemma OthersByPosition(s: seq<SessionVerdict>, i: nat, w: SessionVerdict)
    requires i < |s|
    ensures Other(multiset(s), s[i], w) <==> w in s[..i] + s[i + 1..]
  {
    var others := s[..i] + s[i + 1..];
    assert s == s[..i] + [s[i]] + s[i + 1..];
    assert multiset(s) == multiset(others) + multiset{s[i]};
    assert w in multiset(others) <==> w in others;
  }

  lemma PositionsAreOccurrences(s: seq<SessionVerdict>, i: nat)
    requires i < |s|
    ensures OverlapsAnother(s, i) <==> HasPartner(multiset(s), s[i])
  {
    hide Overlaps, Other;
    var others := s[..i] + s[i + 1..];
    if OverlapsAnother(s, i) {
      var j :| 0 <= j < |s| && j != i && Overlaps(s[i], s[j]);
      assert s[j] == others[if j < i then j else j - 1];
      OthersByPosition(s, i, s[j]);
    }
    if HasPartner(multiset(s), s[i]) {
      var w :| Other(multiset(s), s[i], w) && Overlaps(s[i], w);
      OthersByPosition(s, i, w);
      var k :| 0 <= k < |others| && others[k] == w;
      assert w == s[if k < i then k else k + 1];
    }
  }

  /** What the sweep decides about entry `i`: at most one pairwise comparison. */
  method Decide(s: seq<SessionVerdict>, starts: seq<Stamp>, prefix: seq<Pair>, i: nat) returns (flag: bool)
    requires AllBounded(s) && ByStart(s) && i < |s| && Bounded(s[i])
    requires |starts| == |s| && forall j {:trigger s[j]} {:trigger starts[j]} | 0 <= j < |s| ::
      s[j].startedAt == Some(starts[j])
    requires |prefix| == |s| + 1
    requires forall k {:trigger prefix[k]} | 0 <= k <= |s| :: TwoFurthest(s, k, prefix[k].top, prefix[k].second)
    ensures flag <==> HasPartner(multiset(s), s[i])
  {
    hide TwoFurthest, HasPartner, OverlapsAnother, Overlaps;
    StartsSorted(s, starts);
    var candidates := BisectRight(starts, s[i].endedAt.value);
    var pair := prefix[candidates];
    var chosen := if pair.top.index == i then pair.second else pair.top;
    FurthestDecides(s, i, candidates, pair.top, pair.second);
    PositionsAreOccurrences(s, i);
    flag := chosen.index >= 0 && Overlaps(s[i], s[chosen.index]);
  }

  lemma StartsSorted(s: seq<SessionVerdict>, starts: seq<Stamp>)
    requires AllBounded(s) && ByStart(s)
    requires |starts| == |s| && forall j {:trigger s[j]} {:trigger starts[j]} | 0 <= j < |s| ::
      s[j].startedAt == Some(starts[j])
    ensures forall i, j | 0 <= i <= j < |starts| :: starts[i] <= starts[j]
  {
    forall i, j | 0 <= i <= j < |starts| ensures starts[i] <= starts[j] {
      assert s[i].startedAt.value <= s[j].startedAt.value;
    }
  }

  /** `_mark_overlaps`: it flags exactly the sessions that the pairwise comparison would flag. */
  method MarkOverlaps(group: seq<SessionVerdict>)
    modifies Elements(group)
    ensures forall v {:trigger v.contested} | v in group ::
      v.contested == (old(v.contested) || HasPartner(multiset(group), v))
  {
    hide HasPartner, TwoFurthest, Overlaps;
    var s := Ordered(group);
    OrderedByStart(group);
    forall v ensures HasPartner(multiset(s), v) <==> HasPartner(multiset(group), v) {
      PartnersSurviveOrder(group, v);
    }
    OrderedMembers(group);
    if |s| < 2 {
      forall v ensures !HasPartner(multiset(s), v) || v !in s {
        AloneHasNone(s, v);
      }
      forall v | v in group ensures !HasPartner(multiset(group), v) {
        UnboundedHasNone(group, v);
      }
      return;
    }
    var starts := seq(|s|, i requires 0 <= i < |s| => assert Bounded(s[i]); s[i].startedAt.value);
    var prefix := PrefixTable(s);
    assert s[..0] == [];
    for i := 0 to |s|
      invariant forall v {:trigger v.contested} | v in group ::
        v.contested == (old(v.contested) || (v in s[..i] && HasPartner(multiset(s), v)))
    {
      assert Bounded(s[i]) && s[i] in s;
      assert s[..i + 1] == s[..i] + [s[i]];
      var flag := Decide(s, starts, prefix, i);
      if flag {
        s[i].contested := true;
      }
    }
    assert s[..|s|] == s;
    forall v | v in group && HasPartner(multiset(group), v) ensures v in s {
      UnboundedHasNone(group, v);
    }
  }

  lemma OrderedMembers(s: seq<SessionVerdict>)
    ensures forall v :: v in Ordered(s) <==> v in s && Bounded(v)
  {
    forall v ensures v in Ordered(s) <==> v in s && Bounded(v) {
      OrderedCounts(s, v);
      assert v in multiset(Ordered(s)) <==> v in Ordered(s);
      assert v in multiset(s) <==> v in s;
    }
  }

  lemma AloneHasNone(s: seq<SessionVerdict>, v: SessionVerdict)
    requires |s| < 2
    ensures v in s ==> !HasPartner(multiset(s), v)
  {
    if v in s {
      assert s == [v];
    }
  }

  lemma UnboundedHasNone(s: seq<SessionVerdict>, v: SessionVerdict)
    ensures HasPartner(multiset(s), v) ==> Bounded(v)
  {
  }

  // ----- by repository -----

  /** The observed sessions of one repository, in order. */
  function GroupOf(verdicts: seq<SessionVerdict>, repo: nat): seq<SessionVerdict> {
    if verdicts == [] then []
    else
      var last := verdicts[|verdicts| - 1];
      GroupOf(verdicts[..|verdicts| - 1], repo) + OwnPart(last, repo)
  }

  function OwnPart(v: SessionVerdict, repo: nat): seq<SessionVerdict> {
    if v.bounds == Some(Observed) && v.repo == repo then [v] else []
  }

  lemma {:induction false} GroupCounts(verdicts: seq<SessionVerdict>, repo: nat, v: SessionVerdict)
    ensures multiset(GroupOf(verdicts, repo))[v] ==
      if v.bounds == Some(Observed) && v.repo == repo then multiset(verdicts)[v] else 0
  {
    if verdicts != [] {
      var front, last := verdicts[..|verdicts| - 1], verdicts[|verdicts| - 1];
      GroupCounts(front, repo, v);
      assert verdicts == front + [last];
      assert multiset(GroupOf(verdicts, repo)) == multiset(GroupOf(front, repo)) + multiset(OwnPart(last, repo));
      assert multiset(verdicts) == multiset(front) + multiset{last};
    }
  }

  /** Another observed session of the same repository overlaps `v`. */
  ghost predicate SharedWindow(all: multiset<SessionVerdict>, v: SessionVerdict) {
    v.bounds == Some(Observed) &&
    exists w {:trigger Other(all, v, w)} ::
      w in all && Other(all, v, w) && w.bounds == Some(Observed) && w.repo == v.repo && Overlaps(v, w)
  }

  lemma GroupPartners(verdicts: seq<SessionVerdict>, v: SessionVerdict)
    ensures v.bounds == Some(Observed) ==>
      (HasPartner(multiset(GroupOf(verdicts, v.repo)), v) <==> SharedWindow(multiset(verdicts), v))
  {
    hide GroupOf, Overlaps;
    var m, all := multiset(GroupOf(verdicts, v.repo)), multiset(verdicts);
    if v.bounds == Some(Observed) && HasPartner(m, v) {
      var w :| w in m && Other(m, v, w) && Overlaps(v, w);
      GroupCounts(verdicts, v.repo, w);
      assert Other(all, v, w);
    }
    if v.bounds == Some(Observed) && SharedWindow(all, v) {
      var w :| w in all && Other(all, v, w) && w.bounds == Some(Observed) && w.repo == v.repo && Overlaps(v, w);
      GroupCounts(verdicts, v.repo, w);
      assert Other(m, v, w);
    }
  }

  lemma GroupMembers(verdicts: seq<SessionVerdict>, repo: nat)
    ensures forall v :: v in GroupOf(verdicts, repo) <==> v in verdicts && v.bounds == Some(Observed) && v.repo == repo
  {
    forall v ensures v in GroupOf(verdicts, repo) <==> v in verdicts && v.bounds == Some(Observed) && v.repo == repo {
      GroupCounts(verdicts, repo, v);
      assert v in multiset(GroupOf(verdicts, repo)) <==> v in GroupOf(verdicts, repo);
      assert v in multiset(verdicts) <==> v in verdicts;
    }
  }

  /** `_contested`: false stands for the error about a verdict that does not say what its timestamps describe. */
  method Contested(verdicts: seq<SessionVerdict>) returns (ok: bool)
    modifies Elements(verdicts)
    ensures ok <==> forall v | v in verdicts :: v.bounds.Some?
    ensures ok ==> forall v {:trigger v.contested} | v in verdicts ::
      v.contested <==> SharedWindow(multiset(verdicts), v)
  {
    hide HasPartner, SharedWindow, GroupOf;
    var byRepo: map<nat, seq<SessionVerdict>> := map[];
    assert verdicts[..0] == [];
    NoGroups();
    for i := 0 to |verdicts|
      invariant forall v | v in verdicts[..i] :: v.bounds.Some?
      invariant forall v {:trigger v.contested} | v in verdicts[..i] :: !v.contested
      invariant forall r {:trigger byRepo[r]} | r in byRepo :: byRepo[r] == GroupOf(verdicts[..i], r)
      invariant forall r | r !in byRepo :: GroupOf(verdicts[..i], r) == []
    {
      var v := verdicts[i];
      assert v in verdicts && v in Elements(verdicts);
      assert verdicts[..i + 1] == verdicts[..i] + [v];
      GroupGrows(verdicts, i);
      v.contested := false;
      if v.bounds.None? {
        return false;
      }
      if v.bounds.value.Observed? {
        var so := if v.repo in byRepo then byRepo[v.repo] else [];
        byRepo := byRepo[v.repo := so + [v]];
      }
    }
    assert verdicts[..|verdicts|] == verdicts;
    MarkGroups(verdicts, byRepo);
    return true;
  }

  lemma NoGroups()
    ensures forall r {:trigger GroupOf([], r)} :: GroupOf([], r) == []
  {
  }

  lemma GroupGrows(verdicts: seq<SessionVerdict>, i: nat)
    requires i < |verdicts|
    ensures forall r :: GroupOf(verdicts[..i + 1], r) == GroupOf(verdicts[..i], r) + OwnPart(verdicts[i], r)
  {
    assert verdicts[..i + 1][..i] == verdicts[..i];
  }

  /** The last loop of `_contested`: each repository's group is swept on its own. */
  method MarkGroups(verdicts: seq<SessionVerdict>, byRepo: map<nat, seq<SessionVerdict>>)
    requires forall v {:trigger v.contested} | v in verdicts :: !v.contested
    requires forall r {:trigger byRepo[r]} | r in byRepo :: byRepo[r] == GroupOf(verdicts, r)
    requires forall r | r !in byRepo :: GroupOf(verdicts, r) == []
    modifies Elements(verdicts)
    ensures forall v {:trigger v.contested} | v in verdicts :: v.contested <==> SharedWindow(multiset(verdicts), v)
  {
    hide HasPartner, GroupOf;
    var left := byRepo.Keys;
    while left != {}
      invariant left <= byRepo.Keys
      invariant forall v {:trigger v.contested} | v in verdicts ::
        v.contested <==> v.repo !in left && v.repo in byRepo && SharedWindow(multiset(verdicts), v)
    {
      hide SharedWindow;
      var r :| r in left;
      GroupMembers(verdicts, r);
      InGroupInList(verdicts, r);
      forall v | v in GroupOf(verdicts, r)
        ensures HasPartner(multiset(GroupOf(verdicts, r)), v) <==> SharedWindow(multiset(verdicts), v)
      {
        GroupPartners(verdicts, v);
      }
      forall v | v in verdicts && v.repo == r && v !in GroupOf(verdicts, r)
        ensures !SharedWindow(multiset(verdicts), v)
      {
        UnobservedShareNothing(verdicts, v);
      }
      MarkOverlaps(byRepo[r]);
      left := left - {r};
    }
    forall v | v in verdicts && v.repo !in byRepo ensures !SharedWindow(multiset(verdicts), v) {
      GroupMembers(verdicts, v.repo);
      UnobservedShareNothing(verdicts, v);
    }
  }

  lemma InGroupInList(verdicts: seq<SessionVerdict>, r: nat)
    ensures Elements(GroupOf(verdicts, r)) <= Elements(verdicts)
  {
    hide GroupOf;
    GroupMembers(verdicts, r);
    forall v | v in Elements(GroupOf(verdicts, r)) ensures v in Elements(verdicts) {
    }
  }

  lemma UnobservedShareNothing(verdicts: seq<SessionVerdict>, v: SessionVerdict)
    ensures SharedWindow(multiset(verdicts), v) ==> v.bounds == Some(Observed)
  {
  }

  // ----- what the flag means in time -----

  /** An instant lies in a session's window, its ends included; a window ending before it starts holds none. */
  predicate During(v: SessionVerdict, t: Stamp) {
    v.startedAt.Some? && v.endedAt.Some? && v.startedAt.value <= t <= v.endedAt.value
  }

  /** The window of `v` ends before it starts, and that of `w` covers both stamps. */
  predicate Spans(w: SessionVerdict, v: SessionVerdict) {
    && v.startedAt.Some? && v.endedAt.Some? && v.endedAt.value < v.startedAt.value
    && During(w, v.startedAt.value) && During(w, v.endedAt.value)
  }

  /** Some instant lies in both windows, or one is inverted and the other, in order, covers it. */
  ghost predicate Together(a: SessionVerdict, b: SessionVerdict) {
    (exists t :: During(a, t) && During(b, t)) || Spans(a, b) || Spans(b, a)
  }

  /** Two sessions overlap exactly when they were open together, whichever of them is asked about first. */
  lemma OverlapsExactly(a: SessionVerdict, b: SessionVerdict)
    ensures Overlaps(a, b) <==> Together(a, b)
    ensures Overlaps(a, b) <==> Overlaps(b, a)
    ensures Together(a, b) <==> Together(b, a)
  {
    if Overlaps(a, b) {
      var t := if a.startedAt.value <= b.startedAt.value then b.startedAt.value else a.startedAt.value;
      assert !Spans(a, b) && !Spans(b, a) ==> During(a, t) && During(b, t);
    }
  }

  /** The entries at two positions are observed sessions of one repository that were open together. */
  ghost predicate Contest(verdicts: seq<SessionVerdict>, i: int, j: int) {
    && 0 <= i < |verdicts| && 0 <= j < |verdicts| && i != j && verdicts[i].repo == verdicts[j].repo
    && verdicts[i].bounds == Some(Observed) && verdicts[j].bounds == Some(Observed)
    && Together(verdicts[i], verdicts[j])
  }

  /** What flags an entry is another entry, and that one is flagged with it. */
  lemma ContestIsMutual(verdicts: seq<SessionVerdict>, i: nat)
    requires i < |verdicts|
    ensures SharedWindow(multiset(verdicts), verdicts[i]) <==> exists j :: Contest(verdicts, i, j)
    ensures forall j | Contest(verdicts, i, j) ::
      Contest(verdicts, j, i) && SharedWindow(multiset(verdicts), verdicts[j])
  {
    hide Overlaps, Together, Other;
    var all, v := multiset(verdicts), verdicts[i];
    if SharedWindow(all, v) {
      var w :| w in all && Other(all, v, w) && w.bounds == Some(Observed) && w.repo == v.repo && Overlaps(v, w);
      var j := OtherPosition(verdicts, i, w);
      OverlapsExactly(v, w);
      assert Contest(verdicts, i, j);
    }
    forall j | Contest(verdicts, i, j)
      ensures Contest(verdicts, j, i) && SharedWindow(all, verdicts[j]) && SharedWindow(all, v)
    {
      OverlapsExactly(v, verdicts[j]);
      OtherEntry(verdicts, i, j);
      OtherEntry(verdicts, j, i);
    }
  }

  lemma OtherEntry(s: seq<SessionVerdict>, i: nat, j: nat)
    requires i < |s| && j < |s| && i != j
    ensures s[j] in multiset(s) && Other(multiset(s), s[i], s[j])
  {
    hide Other;
    var others := s[..i] + s[i + 1..];
    assert s[j] == others[if j < i then j else j - 1];
    OthersByPosition(s, i, s[j]);
  }

  lemma OtherPosition(s: seq<SessionVerdict>, i: nat, w: SessionVerdict) returns (j: nat)
    requires i < |s| && Other(multiset(s), s[i], w)
    ensures j < |s| && j != i && s[j] == w
  {
    hide Other;
    var others := s[..i] + s[i + 1..];
    OthersByPosition(s, i, w);
    var k :| 0 <= k < |others| && others[k] == w;
    j := if k < i then k else k + 1;
  }
}
