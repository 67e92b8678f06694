/** What installing and removing do to the entries of a settings document, said of the document's own members. */
module HookFacts {
  import opened Basics
  import opened HookDocument
  import opened HookLaws

  // ----- entries in a document -----

  /** Some object of the list has the entry in its `hooks` array. */
  ghost predicate Lists(matchers: seq<Json>, entry: Json) {
    exists m :: m in matchers && m.Object? && "hooks" in m.fields && m.fields["hooks"].List?
      && entry in m.fields["hooks"].items
  }

  /** The document lists the entry under the event. */
  ghost predicate Under(settings: Settings, event: string, entry: Json) {
    && "hooks" in settings && settings["hooks"].Object? && event in settings["hooks"].fields
    && settings["hooks"].fields[event].List? && Lists(settings["hooks"].fields[event].items, entry)
  }

  /** The entry is of type command and runs one of these. */
  predicate Runs(entry: Json, commands: Commands) {
    && entry.Object? && "type" in entry.fields && entry.fields["type"] == Text("command")
    && "command" in entry.fields && entry.fields["command"].Text? && entry.fields["command"].s in commands
  }

  /** The four events the installer manages. */
  predicate Managed(event: string) {
    event == "SessionStart" || event == "Stop" || event == "SessionEnd" || event == "PostToolUse"
  }

  lemma ManagedEvents(event: string)
    ensures event in EVENTS <==> Managed(event)
  {
    assert EVENTS[0] == "SessionStart" && EVENTS[1] == "Stop" && EVENTS[2] == "SessionEnd";
    assert EVENTS[3] == "PostToolUse";
  }

  // ----- removal -----

  lemma {:induction false} ForeignRuns(entries: seq<Json>, commands: Commands, entry: Json)
    ensures entry in Foreign(entries, commands) <==> entry in entries && !Runs(entry, commands)
  {
    if entries != [] {
      var front, last := entries[..|entries| - 1], entries[|entries| - 1];
      assert entries == front + [last];
      ForeignRuns(front, commands, entry);
    }
  }

  lemma ListsAppend(a: seq<Json>, b: seq<Json>, entry: Json)
    ensures Lists(a + b, entry) <==> Lists(a, entry) || Lists(b, entry)
  {
    if Lists(a, entry) {
      var m :| m in a && m.Object? && "hooks" in m.fields && m.fields["hooks"].List?
        && entry in m.fields["hooks"].items;
      assert m in a + b;
    }
    if Lists(b, entry) {
      var m :| m in b && m.Object? && "hooks" in m.fields && m.fields["hooks"].List?
        && entry in m.fields["hooks"].items;
      assert m in a + b;
    }
  }

  lemma ListsOne(m: Json, entry: Json)
    ensures Lists([m], entry) <==> Entries(m).Some? && entry in Entries(m).value
  {
    assert m in [m];
  }

  lemma OneRuns(m: Json, commands: Commands, entry: Json)
    ensures Lists(RetainedOne(m, commands), entry) <==> Lists([m], entry) && !Runs(entry, commands)
  {
    hide Foreign, Runs, Lists;
    ListsOne(m, entry);
    if Entries(m).Some? {
      var kept := Foreign(Entries(m).value, commands);
      ForeignRuns(Entries(m).value, commands, entry);
      if kept == [] {
        NobodyListed(entry);
      } else {
        ListsOne(WithEntries(m, kept), entry);
      }
    }
  }

  lemma NobodyListed(entry: Json)
    ensures !Lists([], entry)
  {
  }

  lemma {:induction false} RetainedRuns(matchers: seq<Json>, commands: Commands, entry: Json)
    ensures Lists(Retained(matchers, commands), entry) <==> Lists(matchers, entry) && !Runs(entry, commands)
  {
    hide RetainedOne, Lists, Runs;
    if matchers == [] {
      NobodyListed(entry);
    } else {
      var front, last := matchers[..|matchers| - 1], matchers[|matchers| - 1];
      assert matchers == front + [last];
      RetainedRuns(front, commands, entry);
      OneRuns(last, commands, entry);
      ListsAppend(front, [last], entry);
      ListsAppend(Retained(front, commands), RetainedOne(last, commands), entry);
    }
  }

  lemma UnderMeans(settings: Settings, event: string, entry: Json)
    ensures Under(settings, event, entry) <==> Lists(MatchersAt(settings, event), entry)
  {
    hide Lists;
    NobodyListed(entry);
  }

  lemma RemovedList(settings: Settings, commands: Commands, event: string)
    ensures MatchersAt(Without(settings, commands), event) ==
      if event in EVENTS then Retained(MatchersAt(settings, event), commands) else MatchersAt(settings, event)
  {
    hide Retained;
    NothingRetained(commands);
    var stripped := Stripped(Base(settings), EVENTS, commands);
    assert Items(stripped, event) ==
      if event in EVENTS then Retained(Items(Base(settings), event), commands) else Items(Base(settings), event);
  }

  lemma NothingRetained(commands: Commands)
    ensures Retained([], commands) == []
  {
  }

  /** Removal takes, under the four managed events, exactly the entries that run one of the commands. */
  lemma RemovalTakesExactly(settings: Settings, commands: Commands, event: string, entry: Json)
    ensures Under(Without(settings, commands), event, entry) <==>
      Under(settings, event, entry) && !(Managed(event) && Runs(entry, commands))
  {
    hide Retained, Lists, Runs, Managed, Under, Without, MatchersAt;
    ManagedEvents(event);
    UnderMeans(settings, event, entry);
    UnderMeans(Without(settings, commands), event, entry);
    RemovedList(settings, commands, event);
    RetainedRuns(MatchersAt(settings, event), commands, entry);
  }

  // ----- installation -----

  /** An entry that has no answer to whose it is: its command is a list or an object. */
  predicate Unanswerable(entry: Json) {
    && entry.Object? && "type" in entry.fields && entry.fields["type"] == Text("command")
    && "command" in entry.fields && (entry.fields["command"].List? || entry.fields["command"].Object?)
  }

  /** The walk raises exactly on a document that lists such an entry under a managed event. */
  lemma ReadableMeans(settings: Settings)
    ensures Readable(settings) <==>
      !exists event, entry :: Managed(event) && Unanswerable(entry) && Under(settings, event, entry)
  {
    hide Managed;
    forall event ensures event in EVENTS <==> Managed(event) {
      ManagedEvents(event);
    }
    if Readable(settings) {
      forall event, entry | Managed(event) && Under(settings, event, entry) ensures !Unanswerable(entry) {
        var items := settings["hooks"].fields[event].items;
        assert event in EVENTS && ReadableList(Table(settings).value[event]);
        var m :| m in items && m.Object? && "hooks" in m.fields && m.fields["hooks"].List?
          && entry in m.fields["hooks"].items;
        assert Entries(m) == Some(m.fields["hooks"].items);
        assert !Poison(entry);
      }
    } else {
      var event :| event in EVENTS && event in Table(settings).value && !ReadableList(Table(settings).value[event]);
      var m :| m in Table(settings).value[event].items && Entries(m).Some?
        && exists e :: e in Entries(m).value && Poison(e);
      var entry :| entry in Entries(m).value && Poison(entry);
      assert Unanswerable(entry) && Under(settings, event, entry);
    }
  }

  /** The object an installation appends, member by member. */
  function Appended(event: string, command: string): Json {
    var entry := Object(map["type" := Text("command"), "command" := Text(command), "args" := List([]),
      "timeout" := Number(10)]);
    if event == "PostToolUse"
    then Object(map["hooks" := List([entry]), "matcher" := Text("Edit|Write|MultiEdit|NotebookEdit")])
    else Object(map["hooks" := List([entry])])
  }

  lemma AppendedIsInstalled(event: string, command: string)
    ensures Installed(event, command) == Appended(event, command)
  {
  }

  /**
   * After an installation each managed event ends with that one object, and nothing before it runs a command of the
   * installer's, present or retired.
   */
  lemma InstallAppendsOne(settings: Settings, commands: map<string, string>, previous: Commands, event: string)
    requires Complete(commands) && With(settings, commands, previous).Ok? && Managed(event)
    ensures event in commands
    ensures var r := With(settings, commands, previous).value;
      && "hooks" in r && r["hooks"].Object? && event in r["hooks"].fields && r["hooks"].fields[event].List?
      && var items := r["hooks"].fields[event].items;
      && items != [] && items[|items| - 1] == Appended(event, commands[event])
      && forall entry | Lists(items[..|items| - 1], entry) ::
           !Runs(entry, previous) && forall e | e in commands :: !Runs(entry, {commands[e]})
  {
    hide With, Without, Installed, Appended, Lists, Runs, Items, Wanted, Managed, Table, MatchersAt, Base;
    ManagedEvents(event);
    Covers(commands);
    var all := previous + Wanted(commands);
    var r := With(settings, commands, previous).value;
    InstalledList(settings, commands, previous, all, event);
    AppendedIsInstalled(event, commands[event]);
    ListOf(r, event);
    var front := Items(Base(Without(settings, all)), event);
    assert MatchersAt(r, event)[..|front|] == front;
    forall entry | Lists(front, entry)
      ensures !Runs(entry, previous) && forall e | e in commands :: !Runs(entry, {commands[e]})
    {
      FrontRuns(settings, all, event, entry);
      forall e | e in commands ensures !Runs(entry, {commands[e]}) {
        Wants(commands, e);
        FewerRun(entry, {commands[e]}, all);
      }
      FewerRun(entry, previous, all);
    }
  }

  lemma FewerRun(entry: Json, fewer: Commands, commands: Commands)
    requires fewer <= commands && !Runs(entry, commands)
    ensures !Runs(entry, fewer)
  {
  }

  lemma ListOf(settings: Settings, event: string)
    requires MatchersAt(settings, event) != []
    ensures "hooks" in settings && settings["hooks"].Object? && event in settings["hooks"].fields
    ensures settings["hooks"].fields[event] == List(MatchersAt(settings, event))
  {
  }

  lemma FrontRuns(settings: Settings, all: Commands, event: string, entry: Json)
    requires event in EVENTS && Lists(Items(Base(Without(settings, all)), event), entry)
    ensures !Runs(entry, all)
  {
    hide Lists, Runs, Retained, Without;
    RemovedList(settings, all, event);
    RetainedRuns(MatchersAt(settings, event), all, entry);
    NobodyListed(entry);
  }
}
