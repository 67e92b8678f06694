/** Rendering one journal record, and the narrowed read that rests on how it is rendered. */
module Journal {
  import opened Basics
  import opened Literals

  const MAX_JOURNAL_LINE_BYTES := 4096

  /** The fields a record can carry, in the order sorted keys put them. */
  datatype Key = Actor | Client | Command | Event | Task | Outside | PathId | Reason | Repo | SchemaVersion
               | SessionId | Shed | Snapshot | Source | Outcome | Tool | Stamp

  const SORTED: seq<Key> := [Actor, Client, Command, Event, Task, Outside, PathId, Reason, Repo, SchemaVersion,
                             SessionId, Shed, Snapshot, Source, Outcome, Tool, Stamp]

  /** Dropped in this order; the fields that identify a record are not among them. */
  const SHEDDABLE: seq<Key> := [Snapshot, Reason, Source, Actor, Command]

  function Name(k: Key): string {
    match k
    case Actor => "actor"
    case Client => "client"
    case Command => "command"
    case Event => "event"
    case Task => "node"
    case Outside => "outside"
    case PathId => "path_id"
    case Reason => "reason"
    case Repo => "repo"
    case SchemaVersion => "schema_version"
    case SessionId => "session_id"
    case Shed => "shed"
    case Snapshot => "snapshot"
    case Source => "source"
    case Outcome => "status"
    case Tool => "tool"
    case Stamp => "ts"
  }

  /** A record: each present field with its rendered value, and the fields shed from it so far. */
  datatype Entry = Entry(fields: map<Key, string>, shed: set<Key>)

  function ShedNames(keys: seq<Key>, shed: set<Key>): string {
    if keys == [] then ""
    else
      var rest := ShedNames(keys[1..], shed);
      if keys[0] !in shed then rest
      else Quoted(Name(keys[0])) + (if rest == "" then "" else "," + rest)
  }

  /** The value rendered for one key, if the record has it. */
  function ValueOf(e: Entry, k: Key): Option<string> {
    if k == Shed && e.shed != {} then Some("[" + ShedNames(SORTED, e.shed) + "]")
    else if k in e.fields then Some(e.fields[k])
    else None
  }

  function Member(k: Key, value: string): string {
    "\"" + Name(k) + "\":" + value
  }

  function Members(e: Entry, keys: seq<Key>): string {
    if keys == [] then ""
    else
      var rest := Members(e, keys[1..]);
      match ValueOf(e, keys[0])
      case None => rest
      case Some(v) => Member(keys[0], v) + (if rest == "" then "" else "," + rest)
  }

  /** `json.dumps` with sorted keys and compact separators, and the newline. */
  function Line(e: Entry): string {
    "{" + Members(e, SORTED) + "}\n"
  }

  /** The record with the first `n` sheddable fields gone. */
  function ShedFirst(e: Entry, n: nat): Entry
    requires n <= |SHEDDABLE|
  {
    if n == 0 then e
    else
      var d := ShedFirst(e, n - 1);
      var k := SHEDDABLE[n - 1];
      if k in d.fields then Entry(d.fields - {k}, d.shed + {k}) else d
  }

  /** `render`: sheds as little as brings the line under the bound, or gives up. */
  method Render(e: Entry) returns (line: Option<string>, ghost n: nat)
    ensures n <= |SHEDDABLE|
    ensures line.Some? ==> line.value == Line(ShedFirst(e, n)) && |line.value| <= 4096
    ensures line.Some? ==> forall m | 0 <= m < n :: |Line(ShedFirst(e, m))| > 4096
    ensures line.None? ==> forall m | 0 <= m <= |SHEDDABLE| :: |Line(ShedFirst(e, m))| > 4096
  {
    hide Line;
    var shrunk := e;
    var whole := Line(shrunk);
    n := 0;
    if |whole| <= MAX_JOURNAL_LINE_BYTES {
      return Some(whole), 0;
    }
    for i := 0 to |SHEDDABLE|
      invariant shrunk == ShedFirst(e, i)
      invariant forall m | 0 <= m <= i :: |Line(ShedFirst(e, m))| > MAX_JOURNAL_LINE_BYTES
    {
      var k := SHEDDABLE[i];
      if k in shrunk.fields {
        shrunk := Entry(shrunk.fields - {k}, shrunk.shed + {k});
        var text := Line(shrunk);
        if |text| <= MAX_JOURNAL_LINE_BYTES {
          return Some(text), i + 1;
        }
      }
    }
    return None, 0;
  }

  /** Shedding never touches a field that says whose record it is. */
  lemma {:induction false} IdentityIsKept(e: Entry, n: nat, k: Key)
    requires n <= |SHEDDABLE| && k !in SHEDDABLE
    ensures (k in ShedFirst(e, n).fields <==> k in e.fields)
    ensures k in e.fields ==> ShedFirst(e, n).fields[k] == e.fields[k]
  {
    if n > 0 {
      IdentityIsKept(e, n - 1, k);
      assert SHEDDABLE[n - 1] in SHEDDABLE;
    }
  }

  // ----- the literal that the narrowed read looks for -----

  /** `part in text`. */
  predicate Contains(text: string, part: string) {
    part <= text || (text != [] && Contains(text[1..], part))
  }

  lemma {:induction false} ContainsAfter(a: string, text: string, part: string)
    requires Contains(text, part)
    ensures Contains(a + text, part)
  {
    if a == [] {
      assert a + text == text;
    } else {
      assert (a + text)[1..] == a[1..] + text;
      ContainsAfter(a[1..], text, part);
    }
  }

  lemma {:induction false} ContainsBefore(text: string, b: string, part: string)
    requires Contains(text, part)
    ensures Contains(text + b, part)
  {
    if part <= text {
      assert part <= text + b;
    } else {
      assert (text + b)[1..] == text[1..] + b;
      ContainsBefore(text[1..], b, part);
    }
  }

  /** The part stands somewhere in the text. */
  lemma {:induction false} ContainsMeans(text: string, part: string)
    ensures Contains(text, part) <==> exists i :: 0 <= i <= |text| && part <= text[i..]
  {
    assert text[0..] == text;
    if text != [] {
      ContainsMeans(text[1..], part);
      if i :| 0 <= i <= |text[1..]| && part <= text[1..][i..] {
        assert text[1..][i..] == text[i + 1..];
      }
      if i :| 0 < i <= |text| && part <= text[i..] {
        assert text[1..][i - 1..] == text[i..];
      }
    }
  }

  /** `'"repo":' + json.dumps(repo)`. */
  function Marker(repo: string): string {
    "\"repo\":" + Quoted(repo)
  }

  lemma {:induction false} MembersShow(e: Entry, keys: seq<Key>, k: Key)
    requires k in keys && ValueOf(e, k).Some?
    ensures Contains(Members(e, keys), Member(k, ValueOf(e, k).value))
  {
    hide Contains, Member, ValueOf;
    var rest := Members(e, keys[1..]);
    if keys[0] == k {
      var own := Member(k, ValueOf(e, k).value);
      var tail := if rest == "" then "" else "," + rest;
      assert Contains(own, own) by { ContainsItself(own); }
      ContainsBefore(own, tail, own);
    } else {
      MembersShow(e, keys[1..], k);
      if ValueOf(e, keys[0]).Some? {
        MemberNonEmpty(k, ValueOf(e, k).value);
        NonEmpty(rest, Member(k, ValueOf(e, k).value));
        var head := Member(keys[0], ValueOf(e, keys[0]).value);
        ContainsAfter(head + ",", rest, Member(k, ValueOf(e, k).value));
        assert head + "," + rest == head + ("," + rest);
      }
    }
  }

  lemma ContainsItself(text: string)
    ensures Contains(text, text)
  {
  }

  lemma NonEmpty(text: string, part: string)
    requires Contains(text, part) && part != ""
    ensures text != ""
  {
  }

  lemma MemberNonEmpty(k: Key, v: string)
    ensures Member(k, v) != ""
  {
  }

  lemma RepoSorted()
    ensures Repo in SORTED && Repo !in SHEDDABLE
  {
    assert SORTED[8] == Repo;
  }

  lemma Braced(e: Entry)
    ensures Line(e) == "{" + (Members(e, SORTED) + "}\n")
  {
  }

  /** A rendered line names its repository literally, however much was shed from it. */
  lemma LineNamesItsRepo(e: Entry, n: nat, repo: string)
    requires n <= |SHEDDABLE| && Repo in e.fields && e.fields[Repo] == Quoted(repo)
    ensures Contains(Line(ShedFirst(e, n)), Marker(repo))
  {
    hide Contains, Quoted, ShedFirst, Members, Line;
    IdentityIsKept(e, n, Repo);
    var d := ShedFirst(e, n);
    RepoSorted();
    MembersShow(d, SORTED, Repo);
    assert Member(Repo, Quoted(repo)) == Marker(repo);
    ContainsBefore(Members(d, SORTED), "}\n", Marker(repo));
    ContainsAfter("{", Members(d, SORTED) + "}\n", Marker(repo));
    Braced(d);
  }

  /** Every field of a record is in its line, under its name. */
  lemma LineShowsEveryField(e: Entry, k: Key)
    requires ValueOf(e, k).Some?
    ensures Contains(Line(e), Member(k, ValueOf(e, k).value))
  {
    hide Contains, Members, Line, Member, ValueOf;
    EveryKeySorted(k);
    var part := Member(k, ValueOf(e, k).value);
    MembersShow(e, SORTED, k);
    ContainsBefore(Members(e, SORTED), "}\n", part);
    ContainsAfter("{", Members(e, SORTED) + "}\n", part);
    Braced(e);
  }

  lemma EveryKeySorted(k: Key)
    ensures k in SORTED
  {
    match k
    case Actor => assert SORTED[0] == k;
    case Client => assert SORTED[1] == k;
    case Command => assert SORTED[2] == k;
    case Event => assert SORTED[3] == k;
    case Task => assert SORTED[4] == k;
    case Outside => assert SORTED[5] == k;
    case PathId => assert SORTED[6] == k;
    case Reason => assert SORTED[7] == k;
    case Repo => assert SORTED[8] == k;
    case SchemaVersion => assert SORTED[9] == k;
    case SessionId => assert SORTED[10] == k;
    case Shed => assert SORTED[11] == k;
    case Snapshot => assert SORTED[12] == k;
    case Source => assert SORTED[13] == k;
    case Outcome => assert SORTED[14] == k;
    case Tool => assert SORTED[15] == k;
    case Stamp => assert SORTED[16] == k;
  }

  /** The first difference is at `p`, and there `a` ends or has the smaller character. */
  predicate BelowAt(a: string, b: string, p: nat) {
    && p <= |a| && p < |b| && (p == |a| || a[p] < b[p])
    && a[..p] == b[..p]
  }

  ghost predicate Below(a: string, b: string) {
    exists p: nat :: BelowAt(a, b, p)
  }

  lemma FieldNames(i: nat)
    requires i < |SORTED|
    ensures Name(SORTED[i]) == ["actor", "client", "command", "event", "node", "outside", "path_id", "reason", "repo",
      "schema_version", "session_id", "shed", "snapshot", "source", "status", "tool", "ts"][i]
  {
  }

  /** Sorted keys: each name is below the next one in the order of strings. */
  lemma NamesAreSorted(i: nat)
    requires i + 1 < |SORTED|
    ensures Below(Name(SORTED[i]), Name(SORTED[i + 1]))
  {
    hide Name;
    FieldNames(i);
    FieldNames(i + 1);
    var p := [0, 1, 0, 0, 0, 0, 0, 2, 0, 1, 1, 1, 1, 1, 0, 1][i];
    assert BelowAt(Name(SORTED[i]), Name(SORTED[i + 1]), p);
  }

  /** What shedding takes, by name and in this order, least useful first; what it took is on record. */
  lemma {:induction false} ShedInOrder(e: Entry, n: nat)
    requires n <= |SHEDDABLE|
    ensures var gone, d := ["snapshot", "reason", "source", "actor", "command"][..n], ShedFirst(e, n);
      && (forall k :: k in d.fields <==> k in e.fields && Name(k) !in gone)
      && (forall k | k in d.fields :: d.fields[k] == e.fields[k])
      && (forall k :: k in d.shed <==> k in e.shed || (k in e.fields && Name(k) in gone))
  {
    if n > 0 {
      ShedInOrder(e, n - 1);
      var names := ["snapshot", "reason", "source", "actor", "command"];
      assert names[..n] == names[..n - 1] + [names[n - 1]];
      NamesTellApart(n - 1);
    }
  }

  function ShedKeys(keys: seq<Key>, shed: set<Key>): (r: seq<Key>)
    ensures forall k :: k in r <==> k in keys && k in shed
  {
    if keys == [] then []
    else
      assert keys == [keys[0]] + keys[1..];
      (if keys[0] in shed then [keys[0]] else []) + ShedKeys(keys[1..], shed)
  }

  function NamesOf(keys: seq<Key>): seq<string> {
    if keys == [] then [] else [Name(keys[0])] + NamesOf(keys[1..])
  }

  /** The list of shed fields in a line reads back as the names of what was shed. */
  lemma {:induction false} ShedReadsBack(keys: seq<Key>, shed: set<Key>)
    ensures ReadList(ShedNames(keys, shed)) == Some(NamesOf(ShedKeys(keys, shed)))
    ensures ShedNames(keys, shed) == "" <==> ShedKeys(keys, shed) == []
  {
    hide ReadLiteral, Name, ReadList, Quoted;
    EmptyList();
    if keys != [] {
      ShedReadsBack(keys[1..], shed);
      if keys[0] in shed {
        var rest := ShedNames(keys[1..], shed);
        var tail := if rest == "" then "" else "," + rest;
        QuotedReadsBack(Name(keys[0]), tail);
        ListStep(Quoted(Name(keys[0])) + tail, Name(keys[0]), tail);
        QuotedNonEmpty(Name(keys[0]), tail);
        assert ShedKeys(keys, shed) == [keys[0]] + ShedKeys(keys[1..], shed);
        assert NamesOf(ShedKeys(keys, shed)) == [Name(keys[0])] + NamesOf(ShedKeys(keys[1..], shed));
        assert rest != "" ==> tail[1..] == rest;
        assert ShedNames(keys, shed) == Quoted(Name(keys[0])) + tail;
        assert ShedKeys(keys[1..], shed) == [] ==> NamesOf(ShedKeys(keys, shed)) == [Name(keys[0])];
        assert rest == "" ==> ReadList(ShedNames(keys, shed)) == Some([Name(keys[0])]);
        assert rest != "" ==> ReadList(tail[1..]) == Some(NamesOf(ShedKeys(keys[1..], shed)));
      } else {
        assert ShedKeys(keys, shed) == ShedKeys(keys[1..], shed);
      }
    }
  }

  lemma EmptyList()
    ensures ReadList("") == Some([])
  {
  }

  lemma QuotedNonEmpty(s: string, tail: string)
    ensures Quoted(s) + tail != ""
  {
  }

  lemma NamesTellApart(i: nat)
    requires i < |SHEDDABLE|
    ensures forall k :: Name(k) == ["snapshot", "reason", "source", "actor", "command"][i] <==> k == SHEDDABLE[i]
  {
  }

  /** A marker names one repository: no other's marker begins the same text. */
  lemma MarkerNamesOne(a: string, b: string, after: string, beyond: string)
    requires Marker(a) + after == Marker(b) + beyond
    ensures a == b
  {
    hide Quoted;
    var head := "\"repo\":";
    assert (Marker(a) + after)[|head|..] == Quoted(a) + after;
    assert (Marker(b) + beyond)[|head|..] == Quoted(b) + beyond;
    QuotedTellsApart(a, b, after, beyond);
  }

  // ----- reading -----

  /**
   * A stored line: its text and what parsing gives. The repository is kept as text; `record` is the rest
   * of what a reader uses. A line that does not parse, or names no event, yields nothing.
   */
  datatype Stored<R> = Stored(text: string, parsed: Option<Named<R>>)
  datatype Named<R> = Named(repo: Option<string>, record: R)

  /** `read`. */
  function Read<R>(lines: seq<Stored<R>>): seq<Named<R>> {
    if lines == [] then []
    else (if lines[0].parsed.Some? then [lines[0].parsed.value] else []) + Read(lines[1..])
  }

  function OfRepo<R>(records: seq<Named<R>>, repo: string): seq<Named<R>> {
    if records == [] then []
    else (if records[0].repo == Some(repo) then [records[0]] else []) + OfRepo(records[1..], repo)
  }

  /** `read_repo`: the substring test first, then the parsed field. */
  function ReadRepo<R>(lines: seq<Stored<R>>, repo: string): seq<Named<R>> {
    if lines == [] then []
    else
      (if Contains(lines[0].text, Marker(repo)) && lines[0].parsed.Some? && lines[0].parsed.value.repo == Some(repo)
       then [lines[0].parsed.value] else []) + ReadRepo(lines[1..], repo)
  }

  /** The line was written by `render`, and parsing gives back the repository that was rendered. */
  ghost predicate Written<R>(line: Stored<R>) {
    exists e: Entry, n: nat ::
      n <= |SHEDDABLE| && line.text == Line(ShedFirst(e, n)) && line.parsed.Some?
      && match line.parsed.value.repo
         case None => true
         case Some(repo) => Repo in e.fields && e.fields[Repo] == Quoted(repo)
  }

  lemma WrittenCarriesMarker<R>(line: Stored<R>, repo: string)
    requires Written(line) && line.parsed.value.repo == Some(repo)
    ensures Contains(line.text, Marker(repo))
  {
    var e: Entry, n: nat :| n <= |SHEDDABLE| && line.text == Line(ShedFirst(e, n))
      && Repo in e.fields && e.fields[Repo] == Quoted(repo);
    LineNamesItsRepo(e, n, repo);
  }

  /** On a journal whose readable lines were written by `render`, the narrowed read is the filter of the whole read. */
  lemma {:induction false} NarrowedReadIsFilter<R>(lines: seq<Stored<R>>, repo: string)
    requires forall i {:trigger lines[i]} | 0 <= i < |lines| :: lines[i].parsed.None? || Written(lines[i])
    ensures ReadRepo(lines, repo) == OfRepo(Read(lines), repo)
  {
    hide Contains, Written, Marker;
    if lines != [] {
      assert lines[0].parsed.None? || Written(lines[0]);
      NarrowedReadIsFilter(lines[1..], repo);
      var first := lines[0].parsed;
      if first.Some? {
        if first.value.repo == Some(repo) {
          WrittenCarriesMarker(lines[0], repo);
        }
        assert Read(lines) == [first.value] + Read(lines[1..]);
        assert Read(lines)[1..] == Read(lines[1..]);
      } else {
        assert Read(lines) == Read(lines[1..]);
      }
    }
  }
}
