/** What installing and removing the hook entries keeps, whatever the document held before. */
module HookLaws {
  import opened Basics
  import opened HookDocument

  // ----- reading our entries back -----

  function Carried(entry: Json, matcher: Json): Settings
    requires entry.Object?
  {
    entry.fields["matcher" := match Get(matcher, "matcher") { case Some(v) => v case None => Null }]
  }

  function OursOf(entries: seq<Json>, matcher: Json, commands: Commands): seq<Settings> {
    if entries == [] then []
    else
      var last := entries[|entries| - 1];
      OursOf(entries[..|entries| - 1], matcher, commands) +
        if IsOurs(last, commands) then [Carried(last, matcher)] else []
  }

  function OursIn(matchers: seq<Json>, commands: Commands): seq<Settings> {
    if matchers == [] then []
    else
      var last := matchers[|matchers| - 1];
      OursIn(matchers[..|matchers| - 1], commands)
      + if Entries(last).Some? then OursOf(Entries(last).value, last, commands) else []
  }

  function MatchersAt(settings: Settings, event: string): seq<Json> {
    if Table(settings).Some? then Items(Table(settings).value, event) else []
  }

  function Shape(settings: Settings, commands: Commands): map<string, seq<Settings>> {
    map e | e in EVENTS :: OursIn(MatchersAt(settings, e), commands)
  }

  method WalkMatchers(matchers: seq<Json>, commands: Commands) returns (found: Option<seq<Settings>>)
    ensures found.Some? <==> ReadableList(List(matchers))
    ensures found.Some? ==> found.value == OursIn(matchers, commands)
  {
    hide Poison, Entries, Carried, ReadableList, OursOf;
    var list: seq<Settings> := [];
    OneMoreReadable(matchers, 0);
    for i := 0 to |matchers|
      invariant list == OursIn(matchers[..i], commands)
      invariant ReadableList(List(matchers[..i]))
    {
      var matcher := matchers[i];
      assert matchers[..i + 1][..i] == matchers[..i];
      OneMoreReadable(matchers, i);
      if Entries(matcher).Some? {
        var ours := WalkEntries(Entries(matcher).value, matcher, commands);
        if ours.None? {
          return None;
        }
        list := list + ours.value;
      }
    }
    assert matchers[..|matchers|] == matchers;
    return Some(list);
  }

  method WalkEntries(entries: seq<Json>, matcher: Json, commands: Commands) returns (found: Option<seq<Settings>>)
    ensures found.Some? <==> forall e | e in entries :: !Poison(e)
    ensures found.Some? ==> found.value == OursOf(entries, matcher, commands)
  {
    var list: seq<Settings> := [];
    for i := 0 to |entries|
      invariant list == OursOf(entries[..i], matcher, commands)
      invariant forall k | 0 <= k < i :: !Poison(entries[k])
    {
      assert entries[..i + 1][..i] == entries[..i];
      if Poison(entries[i]) {
        return None;
      }
      if IsOurs(entries[i], commands) {
        list := list + [Carried(entries[i], matcher)];
      }
    }
    assert entries[..|entries|] == entries;
    return Some(list);
  }

  /** `_managed_shape`, with the walk it makes. */
  method ManagedShape(settings: Settings, commands: Commands) returns (r: Outcome<map<string, seq<Settings>>>)
    ensures r == if Readable(settings) then Ok(Shape(settings, commands)) else Unhashable
  {
    hide ReadableList, OursIn;
    var shape: map<string, seq<Settings>> := map[];
    for i := 0 to |EVENTS|
      invariant shape.Keys == Elements(EVENTS[..i])
      invariant forall e | e in EVENTS[..i] :: e in shape && shape[e] == OursIn(MatchersAt(settings, e), commands)
      invariant forall e | e in EVENTS[..i] && Table(settings).Some? && e in Table(settings).value ::
        ReadableList(Table(settings).value[e])
    {
      var event := EVENTS[i];
      assert EVENTS[..i + 1] == EVENTS[..i] + [event];
      AddElement(EVENTS[..i], event);
      var found := WalkMatchers(MatchersAt(settings, event), commands);
      ReadableAt(settings, event);
      if found.None? {
        assert event in EVENTS;
        return Unhashable;
      }
      shape := shape[event := found.value];
    }
    assert EVENTS[..|EVENTS|] == EVENTS;
    forall e ensures e in EVENTS <==> e in shape {
      assert e in Elements(EVENTS) <==> e in shape.Keys;
    }
    assert shape == Shape(settings, commands);
    return Ok(shape);
  }

  lemma ReadableAt(settings: Settings, event: string)
    ensures ReadableList(List(MatchersAt(settings, event))) <==>
      (Table(settings).Some? && event in Table(settings).value ==> ReadableList(Table(settings).value[event]))
  {
  }

  // ----- lists of entries -----

  ghost predicate AllForeign(entries: seq<Json>, commands: Commands) {
    forall e | e in entries :: !IsOurs(e, commands)
  }

  lemma {:induction false} ForeignMembers(entries: seq<Json>, commands: Commands)
    ensures forall e :: e in Foreign(entries, commands) <==> e in entries && !IsOurs(e, commands)
    ensures |Foreign(entries, commands)| <= |entries|
  {
    hide IsOurs;
    if entries != [] {
      ForeignMembers(entries[..|entries| - 1], commands);
      assert entries == entries[..|entries| - 1] + [entries[|entries| - 1]];
    }
  }

  lemma {:induction false} ForeignFixes(entries: seq<Json>, commands: Commands)
    ensures AllForeign(entries, commands) <==> Foreign(entries, commands) == entries
  {
    hide IsOurs;
    ForeignMembers(entries, commands);
    if entries != [] && AllForeign(entries, commands) {
      var front, last := entries[..|entries| - 1], entries[|entries| - 1];
      assert entries == front + [last];
      ForeignFixes(front, commands);
      assert last in entries;
    }
  }

  lemma {:induction false} NoneOfThemOurs(entries: seq<Json>, matcher: Json, commands: Commands)
    requires AllForeign(entries, commands)
    ensures OursOf(entries, matcher, commands) == []
  {
    hide IsOurs, Carried;
    if entries != [] {
      assert entries[|entries| - 1] in entries;
      NoneOfThemOurs(entries[..|entries| - 1], matcher, commands);
    }
  }

  lemma FewerCommands(entry: Json, commands: Commands, fewer: Commands)
    requires fewer <= commands && !IsOurs(entry, commands)
    ensures !IsOurs(entry, fewer)
  {
  }

  // ----- lists of matchers -----

  /** Nothing in the matcher is ours, and it is not an empty container. */
  ghost predicate TidyMatcher(matcher: Json, commands: Commands) {
    Entries(matcher).Some? ==> Entries(matcher).value != [] && AllForeign(Entries(matcher).value, commands)
  }

  ghost predicate AllTidy(matchers: seq<Json>, commands: Commands) {
    forall m | m in matchers :: TidyMatcher(m, commands)
  }

  lemma SameEntries(matcher: Json)
    requires Entries(matcher).Some?
    ensures matcher.Object? && WithEntries(matcher, Entries(matcher).value) == matcher
  {
  }

  lemma NewEntries(matcher: Json, entries: seq<Json>)
    requires matcher.Object?
    ensures Entries(WithEntries(matcher, entries)) == Some(entries)
  {
  }

  lemma OneFixes(matcher: Json, commands: Commands)
    ensures TidyMatcher(matcher, commands) <==> RetainedOne(matcher, commands) == [matcher]
    ensures |RetainedOne(matcher, commands)| <= 1
  {
    hide Foreign, AllForeign, WithEntries, Entries;
    if Entries(matcher).Some? {
      HasEntries(matcher);
      var entries := Entries(matcher).value;
      ForeignFixes(entries, commands);
      ForeignMembers(entries, commands);
      SameEntries(matcher);
      if entries != [] && !AllForeign(entries, commands) && Foreign(entries, commands) != [] {
        NewEntries(matcher, Foreign(entries, commands));
      }
    }
  }

  lemma {:induction false} RetainedFixes(matchers: seq<Json>, commands: Commands)
    ensures AllTidy(matchers, commands) <==> Retained(matchers, commands) == matchers
    ensures |Retained(matchers, commands)| <= |matchers|
  {
    hide TidyMatcher, RetainedOne;
    if matchers != [] {
      var front, last := matchers[..|matchers| - 1], matchers[|matchers| - 1];
      assert matchers == front + [last];
      RetainedFixes(front, commands);
      OneFixes(last, commands);
      if Retained(matchers, commands) == matchers {
        assert |Retained(front, commands)| == |front| && |RetainedOne(last, commands)| == 1;
        assert Retained(matchers, commands)[..|front|] == front;
        assert Retained(matchers, commands)[|front|..] == [last];
      }
      if AllTidy(matchers, commands) {
        assert last in matchers;
        assert forall m | m in front :: m in matchers;
      }
    }
  }

  lemma OneIsTidy(matcher: Json, commands: Commands, fewer: Commands)
    requires fewer <= commands
    ensures AllTidy(RetainedOne(matcher, commands), fewer)
  {
    hide Foreign, IsOurs, WithEntries, Entries;
    if Entries(matcher).Some? {
      HasEntries(matcher);
      var kept := Foreign(Entries(matcher).value, commands);
      ForeignMembers(Entries(matcher).value, commands);
      NewEntries(matcher, kept);
      forall e | e in kept ensures !IsOurs(e, fewer) {
        FewerCommands(e, commands, fewer);
      }
    }
  }

  lemma {:induction false} RetainedIsTidy(matchers: seq<Json>, commands: Commands, fewer: Commands)
    requires fewer <= commands
    ensures AllTidy(Retained(matchers, commands), fewer)
  {
    hide TidyMatcher, RetainedOne;
    if matchers != [] {
      RetainedIsTidy(matchers[..|matchers| - 1], commands, fewer);
      OneIsTidy(matchers[|matchers| - 1], commands, fewer);
    }
  }

  lemma {:induction false} TidyHasNoneOfOurs(matchers: seq<Json>, commands: Commands)
    requires AllTidy(matchers, commands)
    ensures OursIn(matchers, commands) == []
  {
    hide Entries, AllForeign, OursOf;
    if matchers != [] {
      var last := matchers[|matchers| - 1];
      assert last in matchers && TidyMatcher(last, commands);
      assert forall m | m in matchers[..|matchers| - 1] :: m in matchers;
      TidyHasNoneOfOurs(matchers[..|matchers| - 1], commands);
      if Entries(last).Some? {
        NoneOfThemOurs(Entries(last).value, last, commands);
      }
    }
  }

  // ----- the installed entry -----

  lemma HookIsOurs(command: string, commands: Commands)
    requires command in commands
    ensures IsOurs(Hook(command), commands) && !Poison(Hook(command)) && Hook(command).Object?
  {
  }

  lemma InstalledEntries(event: string, command: string)
    ensures Entries(Installed(event, command)) == Some([Hook(command)])
  {
  }

  /** Appending ours to a tidy list: the walk finds it alone, and removing takes it alone. */
  lemma AppendOurs(matchers: seq<Json>, event: string, command: string, commands: Commands)
    requires AllTidy(matchers, commands) && command in commands
    ensures Retained(matchers + [Installed(event, command)], commands) == matchers
    ensures Hook(command).Object? && OursIn(matchers + [Installed(event, command)], commands) ==
      [Carried(Hook(command), Installed(event, command))]
  {
    hide Retained, OursIn, Foreign, OursOf, AllTidy, Installed, Entries, Hook, IsOurs, Poison, Carried;
    var ours := Installed(event, command);
    var all := matchers + [ours];
    assert all[..|all| - 1] == matchers;
    HookIsOurs(command, commands);
    InstalledEntries(event, command);
    RetainedFixes(matchers, commands);
    TidyHasNoneOfOurs(matchers, commands);
    OnlyOurs(Hook(command), ours, commands);
    LastRetained(all, commands);
    LastOurs(all, commands);
  }

  lemma OnlyOurs(entry: Json, matcher: Json, commands: Commands)
    requires IsOurs(entry, commands) && entry.Object?
    ensures Foreign([entry], commands) == [] && OursOf([entry], matcher, commands) == [Carried(entry, matcher)]
  {
    hide IsOurs, Carried;
    assert [entry][..0] == [];
    assert Foreign([], commands) == [] && OursOf([], matcher, commands) == [];
  }

  lemma LastRetained(matchers: seq<Json>, commands: Commands)
    requires matchers != []
    ensures Retained(matchers, commands) ==
      Retained(matchers[..|matchers| - 1], commands) + RetainedOne(matchers[|matchers| - 1], commands)
  {
  }

  lemma LastOurs(matchers: seq<Json>, commands: Commands)
    requires matchers != []
    ensures var last := matchers[|matchers| - 1];
      OursIn(matchers, commands) == OursIn(matchers[..|matchers| - 1], commands)
        + if Entries(last).Some? then OursOf(Entries(last).value, last, commands) else []
  {
  }

  // ----- whole documents -----

  /** Nothing under a managed event is ours, and no container the installer would drop stands empty. */
  ghost predicate Tidy(settings: Settings, commands: Commands) {
    Table(settings).Some? ==>
      && Table(settings).value != map[]
      && forall e {:trigger e in EVENTS}
           | e in EVENTS && e in Table(settings).value && Table(settings).value[e].List? ::
           Table(settings).value[e].items != [] && AllTidy(Table(settings).value[e].items, commands)
  }

  lemma TableFixes(hooks: Settings, commands: Commands)
    ensures Stripped(hooks, EVENTS, commands) == hooks <==>
      forall e {:trigger e in EVENTS} | e in EVENTS && e in hooks && hooks[e].List? ::
        hooks[e].items != [] && AllTidy(hooks[e].items, commands)
  {
    hide Retained, AllTidy;
    var after := Stripped(hooks, EVENTS, commands);
    forall e | e in EVENTS && e in hooks && hooks[e].List?
      ensures (e in after && after[e] == hooks[e]) <==> hooks[e].items != [] && AllTidy(hooks[e].items, commands)
    {
      RetainedFixes(hooks[e].items, commands);
    }
    if after == hooks {
      forall e {:trigger e in EVENTS} | e in EVENTS && e in hooks && hooks[e].List?
        ensures hooks[e].items != [] && AllTidy(hooks[e].items, commands)
      {
        assert e in after && after[e] == hooks[e];
      }
    }
  }

  /** Removal changes nothing exactly when the document is tidy: nothing of ours in it, no container empty. */
  lemma RemovalFixes(settings: Settings, commands: Commands)
    ensures Without(settings, commands) == settings <==> Tidy(settings, commands)
  {
    assert Stripped(map[], EVENTS, commands) == map[];
    hide Stripped, AllTidy;
    if Table(settings).Some? {
      TableFixes(Table(settings).value, commands);
    }
  }

  /** Removal leaves a tidy document, so removing twice is removing once. */
  lemma RemovalIsTidy(settings: Settings, commands: Commands, fewer: Commands)
    requires fewer <= commands
    ensures Tidy(Without(settings, commands), fewer)
    ensures Without(Without(settings, commands), fewer) == Without(settings, commands)
  {
    hide Retained, AllTidy;
    var after := Without(settings, commands);
    if Table(settings).Some? && Table(after).Some? {
      var before := Table(settings).value;
      assert Table(after).value == Stripped(before, EVENTS, commands);
      forall e {:trigger e in EVENTS} | e in EVENTS && e in Table(after).value && Table(after).value[e].List?
        ensures Table(after).value[e].items != [] && AllTidy(Table(after).value[e].items, fewer)
      {
        RetainedIsTidy(before[e].items, commands, fewer);
      }
    }
    RemovalFixes(after, fewer);
  }

  /** The hook table an installation fills: the one removal leaves, or a new one. */
  function Base(settings: Settings): Settings {
    if Table(settings).Some? then Table(settings).value else map[]
  }

  lemma {:induction false} NoneBad(hooks: Settings, events: seq<string>)
    ensures FirstBad(hooks, events).None? <==> forall e | e in events && e in hooks :: hooks[e].List?
    ensures FirstBad(hooks, events).Some? ==>
      var e := FirstBad(hooks, events).value; e in events && e in hooks && !hooks[e].List?
  {
    if events != [] {
      NoneBad(hooks, events[1..]);
      assert events == [events[0]] + events[1..];
    }
  }

  /** An installation goes through exactly on documents where `hooks` and every managed event have the right shape. */
  lemma InstallsExactlyWhen(settings: Settings, commands: map<string, string>, previous: Commands)
    requires Complete(commands)
    ensures With(settings, commands, previous).Ok? <==>
      && Readable(settings) && ("hooks" in settings ==> settings["hooks"].Object?)
      && forall e | e in EVENTS && e in Base(settings) :: Base(settings)[e].List?
  {
    hide Readable, Retained, Installed;
    var all := previous + Wanted(commands);
    var removed := Without(settings, all);
    NoneBad(Base(removed), EVENTS);
    if "hooks" in settings && settings["hooks"].Object? {
      var before := Base(settings);
      assert forall e | e in Base(removed) :: e in before && (Base(removed)[e].List? <==> before[e].List?);
      assert forall e | e in before && !before[e].List? :: e in Stripped(before, EVENTS, all);
    }
  }

  /** What an installation makes: the stripped document with our entry appended to each managed event. */
  lemma InstallMakes(settings: Settings, commands: map<string, string>, previous: Commands)
    requires Complete(commands) && With(settings, commands, previous).Ok?
    ensures forall e | e in EVENTS :: e in commands
    ensures var removed := Without(settings, previous + Wanted(commands));
      && With(settings, commands, previous).value == removed["hooks" := Object(Filled(Base(removed), EVENTS, commands))]
      && (forall e | e in EVENTS && e in Base(removed) :: Base(removed)[e].List?)
      && ("hooks" in removed ==> removed["hooks"].Object?)
  {
    hide Readable, Without, Filled;
    Covers(commands);
    NoneBad(Base(Without(settings, previous + Wanted(commands))), EVENTS);
  }

  /** The list an installation leaves under a managed event: tidy matchers, then ours. */
  lemma InstalledList(settings: Settings, commands: map<string, string>, previous: Commands, fewer: Commands,
    event: string)
    requires Complete(commands) && With(settings, commands, previous).Ok? && event in EVENTS
    requires fewer <= previous + Wanted(commands)
    ensures event in commands
    ensures var front := Items(Base(Without(settings, previous + Wanted(commands))), event);
      && MatchersAt(With(settings, commands, previous).value, event) == front + [Installed(event, commands[event])]
      && AllTidy(front, fewer)
  {
    hide Readable, Without, AllTidy, Installed;
    InstallMakes(settings, commands, previous);
    RemovalIsTidy(settings, previous + Wanted(commands), fewer);
    NothingIsTidy(fewer);
  }

  lemma NothingIsTidy(commands: Commands)
    ensures AllTidy([], commands)
  {
  }

  lemma Wants(commands: map<string, string>, event: string)
    requires event in commands
    ensures commands[event] in Wanted(commands)
  {
  }

  /** The managed shape of an installed document. */
  function Constant(commands: map<string, string>): map<string, seq<Settings>>
    requires Complete(commands)
  {
    Covers(commands);
    map e | e in EVENTS ::
      [Hook(commands[e]).fields["matcher" := if e == "PostToolUse" then Text(EDIT_MATCHER) else Null]]
  }

  lemma CarriedOurs(event: string, command: string)
    ensures Hook(command).Object?
    ensures Carried(Hook(command), Installed(event, command)) ==
      Hook(command).fields["matcher" := if event == "PostToolUse" then Text(EDIT_MATCHER) else Null]
  {
  }

  /**
   * One entry of ours per managed event, the same for every document the installation accepts, whether the
   * reader knows only the present commands or the retired ones too.
   */
  lemma ShapeIsConstant(settings: Settings, commands: map<string, string>, previous: Commands, known: Commands)
    requires Complete(commands) && With(settings, commands, previous).Ok?
    requires Wanted(commands) <= known <= previous + Wanted(commands)
    ensures Shape(With(settings, commands, previous).value, known) == Constant(commands)
  {
    hide With, AllTidy, OursIn, Items, Base, Without, Installed, Hook, Carried, MatchersAt;
    var r := With(settings, commands, previous).value;
    Covers(commands);
    forall e | e in EVENTS ensures OursIn(MatchersAt(r, e), known) == Constant(commands)[e] {
      InstalledList(settings, commands, previous, known, e);
      Wants(commands, e);
      AppendOurs(Items(Base(Without(settings, previous + Wanted(commands))), e), e, commands[e], known);
      CarriedOurs(e, commands[e]);
    }
  }

  /** Stripping what was filled gives back what was there, event by event. */
  lemma StrippedAt(hooks: Settings, commands: map<string, string>, known: Commands, e: string)
    requires Complete(commands) && Wanted(commands) <= known && forall e | e in EVENTS :: e in commands
    requires e in EVENTS && e in hooks ==> hooks[e].List? && hooks[e].items != [] && AllTidy(hooks[e].items, known)
    ensures var after := Stripped(Filled(hooks, EVENTS, commands), EVENTS, known);
      (e in after <==> e in hooks) && (e in after && e in hooks ==> after[e] == hooks[e])
  {
    hide Retained, AllTidy, Installed, Wanted, Complete;
    assert e in Elements(EVENTS) <==> e in EVENTS;
    if e in EVENTS {
      Wants(commands, e);
      NothingIsTidy(known);
      AppendOurs(Items(hooks, e), e, commands[e], known);
    }
  }

  /** Removing after installing is removing: whatever the installation added is gone, and nothing else. */
  lemma RemovalUndoesInstall(settings: Settings, commands: map<string, string>, previous: Commands, known: Commands)
    requires Complete(commands) && With(settings, commands, previous).Ok?
    requires Wanted(commands) <= known <= previous + Wanted(commands)
    ensures Without(With(settings, commands, previous).value, known) == Without(settings, previous + Wanted(commands))
  {
    hide With, AllTidy, Filled, Stripped, Wanted;
    var removed := Without(settings, previous + Wanted(commands));
    InstallMakes(settings, commands, previous);
    RemovalIsTidy(settings, previous + Wanted(commands), known);
    Covers(commands);
    var after := Stripped(Filled(Base(removed), EVENTS, commands), EVENTS, known);
    forall e
      ensures e in after <==> e in Base(removed)
      ensures e in after && e in Base(removed) ==> after[e] == Base(removed)[e]
    {
      StrippedAt(Base(removed), commands, known, e);
    }
    assert after == Base(removed);
  }

  /**
   * An installation followed by a removal gives the document back exactly when it was tidy: an entry under a
   * present or retired command, or a container standing empty, is lost.
   */
  lemma InstallThenRemove(settings: Settings, commands: map<string, string>, previous: Commands)
    requires Complete(commands) && With(settings, commands, previous).Ok?
    ensures Without(With(settings, commands, previous).value, Wanted(commands)) == settings
      <==> Tidy(settings, previous + Wanted(commands))
  {
    hide With, Tidy, Without;
    RemovalUndoesInstall(settings, commands, previous, Wanted(commands));
    RemovalFixes(settings, previous + Wanted(commands));
  }

  /** An input on which the pair does not give the document back: an empty hook table is lost. */
  lemma EmptyTableIsLost(commands: map<string, string>)
    requires Complete(commands)
    ensures var settings: Settings := map["hooks" := Object(map[])];
      && With(settings, commands, {}).Ok?
      && Without(With(settings, commands, {}).value, Wanted(commands)) == map[] != settings
  {
    assert Stripped(map[], EVENTS, {} + Wanted(commands)) == map[];
    hide With;
    var settings: Settings := map["hooks" := Object(map[])];
    InstallsExactlyWhen(settings, commands, {});
    RemovalUndoesInstall(settings, commands, {}, Wanted(commands));
    assert settings - {"hooks"} == map[];
  }

  // ----- installing again -----

  lemma OneReadable(matcher: Json, commands: Commands)
    requires ReadableList(List([matcher]))
    ensures ReadableList(List(RetainedOne(matcher, commands)))
  {
    hide Foreign, IsOurs, Poison, WithEntries, Entries;
    if Entries(matcher).Some? {
      HasEntries(matcher);
      assert matcher in List([matcher]).items;
      ForeignMembers(Entries(matcher).value, commands);
      NewEntries(matcher, Foreign(Entries(matcher).value, commands));
    }
  }

  lemma BothReadable(a: seq<Json>, b: seq<Json>)
    ensures ReadableList(List(a + b)) <==> ReadableList(List(a)) && ReadableList(List(b))
  {
    hide Poison, Entries;
    assert forall m :: m in a + b <==> m in a || m in b;
  }

  lemma {:induction false} RetainedReadable(matchers: seq<Json>, commands: Commands)
    requires ReadableList(List(matchers))
    ensures ReadableList(List(Retained(matchers, commands)))
  {
    hide ReadableList, RetainedOne;
    if matchers != [] {
      var front, last := matchers[..|matchers| - 1], matchers[|matchers| - 1];
      assert matchers == front + [last];
      BothReadable(front, [last]);
      RetainedReadable(front, commands);
      OneReadable(last, commands);
      BothReadable(Retained(front, commands), RetainedOne(last, commands));
    }
  }

  lemma OursReadable(event: string, command: string)
    ensures ReadableList(List([Installed(event, command)]))
  {
    hide Installed, Hook, Poison, Entries;
    HookIsOurs(command, {command});
    InstalledEntries(event, command);
  }

  /** What removal leaves under an event is readable. */
  lemma StrippedReadable(settings: Settings, commands: Commands, event: string)
    requires Readable(settings) && event in EVENTS
    ensures ReadableList(List(Items(Base(Without(settings, commands)), event)))
  {
    assert ReadableList(List([]));
    hide ReadableList, Retained;
    if Table(settings).Some? && event in Table(settings).value && Table(settings).value[event].List? {
      var value := Table(settings).value[event];
      assert ReadableList(value) && value == List(value.items);
      RetainedReadable(value.items, commands);
    }
  }

  lemma StaysReadable(settings: Settings, commands: map<string, string>, previous: Commands)
    requires Complete(commands) && With(settings, commands, previous).Ok?
    ensures Readable(With(settings, commands, previous).value)
  {
    hide With, Readable, ReadableList, Without, Installed, Items, Base, MatchersAt;
    var r := With(settings, commands, previous).value;
    InstallsExactlyWhen(settings, commands, previous);
    forall e | e in EVENTS ensures ReadableList(List(MatchersAt(r, e))) {
      InstalledList(settings, commands, previous, Wanted(commands), e);
      var front := Items(Base(Without(settings, previous + Wanted(commands))), e);
      StrippedReadable(settings, previous + Wanted(commands), e);
      OursReadable(e, commands[e]);
      BothReadable(front, [Installed(e, commands[e])]);
    }
    EachReadable(r);
  }

  lemma EachReadable(settings: Settings)
    requires forall e | e in EVENTS :: ReadableList(List(MatchersAt(settings, e)))
    ensures Readable(settings)
  {
    hide ReadableList, MatchersAt;
    forall e {:trigger e in EVENTS} | e in EVENTS && Table(settings).Some? && e in Table(settings).value
      ensures ReadableList(Table(settings).value[e])
    {
      ReadableAt(settings, e);
    }
  }

  /** Installing again, from this runtime or after the retired one is forgotten, changes nothing. */
  lemma InstallIsIdempotent(settings: Settings, commands: map<string, string>, previous: Commands, again: Commands)
    requires Complete(commands) && With(settings, commands, previous).Ok?
    requires again <= previous + Wanted(commands)
    ensures With(With(settings, commands, previous).value, commands, again) == With(settings, commands, previous)
  {
    hide Readable, Without, Filled, Wanted, FirstBad;
    var r := With(settings, commands, previous).value;
    var removed := Without(settings, previous + Wanted(commands));
    StaysReadable(settings, commands, previous);
    InstallMakes(settings, commands, previous);
    RemovalUndoesInstall(settings, commands, previous, again + Wanted(commands));
    NoneBad(Base(removed), EVENTS);
    assert r == removed["hooks" := Object(Filled(Base(removed), EVENTS, commands))];
  }

  // ----- everybody else's entries -----

  /** What a list holds of others: a matcher of another shape, or an entry that is not ours with its surroundings. */
  datatype Stranger = Whole(matcher: Json) | Entry(around: Settings, entry: Json)

  function StrangersOf(entries: seq<Json>, around: Settings, commands: Commands): seq<Stranger> {
    if entries == [] then []
    else
      var last := entries[|entries| - 1];
      StrangersOf(entries[..|entries| - 1], around, commands) +
        if IsOurs(last, commands) then [] else [Entry(around, last)]
  }

  function Around(matcher: Json): Settings {
    if matcher.Object? then matcher.fields - {"hooks"} else map[]
  }

  function StrangersOne(matcher: Json, commands: Commands): seq<Stranger> {
    if Entries(matcher).None? then [Whole(matcher)] else StrangersOf(Entries(matcher).value, Around(matcher), commands)
  }

  function Strangers(matchers: seq<Json>, commands: Commands): seq<Stranger> {
    if matchers == [] then []
    else Strangers(matchers[..|matchers| - 1], commands) + StrangersOne(matchers[|matchers| - 1], commands)
  }

  lemma {:induction false} ForeignKeepsStrangers(entries: seq<Json>, around: Settings, commands: Commands)
    ensures StrangersOf(Foreign(entries, commands), around, commands) == StrangersOf(entries, around, commands)
  {
    hide IsOurs;
    if entries != [] {
      var front, last := entries[..|entries| - 1], entries[|entries| - 1];
      ForeignKeepsStrangers(front, around, commands);
      if !IsOurs(last, commands) {
        assert (Foreign(front, commands) + [last])[..|Foreign(front, commands)|] == Foreign(front, commands);
        assert Foreign(entries, commands) == Foreign(front, commands) + [last];
      } else {
        assert Foreign(entries, commands) == Foreign(front, commands);
      }
    }
  }

  lemma OneKeepsStrangers(matcher: Json, commands: Commands)
    ensures Strangers(RetainedOne(matcher, commands), commands) == StrangersOne(matcher, commands)
  {
    assert StrangersOf([], Around(matcher), commands) == [];
    hide Foreign, IsOurs, Entries, WithEntries, Around, StrangersOf;
    if Entries(matcher).None? {
      SingleStranger(matcher, commands);
    } else {
      HasEntries(matcher);
      var kept := Foreign(Entries(matcher).value, commands);
      ForeignKeepsStrangers(Entries(matcher).value, Around(matcher), commands);
      if kept != [] {
        NewEntries(matcher, kept);
        SameAround(matcher, kept);
        SingleStranger(WithEntries(matcher, kept), commands);
      }
    }
  }

  lemma SingleStranger(matcher: Json, commands: Commands)
    ensures Strangers([matcher], commands) == StrangersOne(matcher, commands)
  {
    hide StrangersOne;
    assert [matcher][..0] == [];
    assert Strangers([], commands) == [];
  }

  lemma SameAround(matcher: Json, entries: seq<Json>)
    requires matcher.Object?
    ensures Around(WithEntries(matcher, entries)) == Around(matcher)
  {
  }

  lemma {:induction false} StrangersAppend(a: seq<Json>, b: seq<Json>, commands: Commands)
    ensures Strangers(a + b, commands) == Strangers(a, commands) + Strangers(b, commands)
  {
    assert Strangers([], commands) == [];
    hide StrangersOne, Strangers;
    if b == [] {
      assert a + b == a;
    } else {
      var front := b[..|b| - 1];
      StrangersAppend(a, front, commands);
      assert (a + b)[..|a + b| - 1] == a + front;
      LastStrangers(b, commands);
      LastStrangers(a + b, commands);
    }
  }

  lemma LastStrangers(matchers: seq<Json>, commands: Commands)
    requires matchers != []
    ensures Strangers(matchers, commands) ==
      Strangers(matchers[..|matchers| - 1], commands) + StrangersOne(matchers[|matchers| - 1], commands)
  {
  }

  lemma {:induction false} RetainedKeepsStrangers(matchers: seq<Json>, commands: Commands)
    ensures Strangers(Retained(matchers, commands), commands) == Strangers(matchers, commands)
  {
    hide StrangersOne, RetainedOne;
    if matchers != [] {
      var front, last := matchers[..|matchers| - 1], matchers[|matchers| - 1];
      RetainedKeepsStrangers(front, commands);
      OneKeepsStrangers(last, commands);
      StrangersAppend(Retained(front, commands), RetainedOne(last, commands), commands);
    }
  }

  lemma OursIsNoStranger(event: string, command: string, commands: Commands)
    requires command in commands
    ensures Strangers([Installed(event, command)], commands) == []
  {
    assert StrangersOf([], Around(Installed(event, command)), commands) == [];
    hide Installed, Hook, IsOurs, Entries, Around;
    HookIsOurs(command, commands);
    InstalledEntries(event, command);
    SingleStranger(Installed(event, command), commands);
    assert [Hook(command)][..0] == [];
  }

  lemma RemovalKeepsStrangers(settings: Settings, commands: Commands, event: string)
    requires event in EVENTS
    ensures Strangers(Items(Base(Without(settings, commands)), event), commands) ==
      Strangers(MatchersAt(settings, event), commands)
  {
    hide Strangers, Retained;
    RetainedKeepsStrangers(MatchersAt(settings, event), commands);
  }

  /**
   * An installation keeps every entry that is not its own, in order and with its surroundings, under each
   * managed event; and leaves other events and the rest of the document as they are.
   */
  lemma InstallKeepsOthers(settings: Settings, commands: map<string, string>, previous: Commands, event: string)
    requires Complete(commands) && With(settings, commands, previous).Ok?
    ensures var all, r := previous + Wanted(commands), With(settings, commands, previous).value;
      && (event in EVENTS ==> Strangers(MatchersAt(r, event), all) == Strangers(MatchersAt(settings, event), all))
      && "hooks" in r && r["hooks"].Object?
      && (event !in EVENTS ==> (event in r["hooks"].fields <==> event in Base(settings)))
      && (event !in EVENTS && event in Base(settings) && event in r["hooks"].fields ==>
        r["hooks"].fields[event] == Base(settings)[event])
      && r - {"hooks"} == settings - {"hooks"}
  {
    hide With, Strangers, Items, Retained, MatchersAt, Installed, Wanted, AllTidy;
    var all := previous + Wanted(commands);
    InstallMakes(settings, commands, previous);
    OutsideManaged(settings, commands, all, event);
    if event in EVENTS {
      InstalledList(settings, commands, previous, all, event);
      var front := Items(Base(Without(settings, all)), event);
      StrangersAppend(front, [Installed(event, commands[event])], all);
      Wants(commands, event);
      OursIsNoStranger(event, commands[event], all);
      RemovalKeepsStrangers(settings, all, event);
    }
  }

  lemma OutsideManaged(settings: Settings, commands: map<string, string>, all: Commands, event: string)
    requires Complete(commands) && forall e | e in EVENTS :: e in commands
    ensures var removed := Without(settings, all);
      var filled := Filled(Base(removed), EVENTS, commands);
      && (event !in EVENTS ==> (event in filled <==> event in Base(settings)))
      && (event !in EVENTS && event in Base(settings) && event in filled ==> filled[event] == Base(settings)[event])
      && removed - {"hooks"} == settings - {"hooks"}
  {
    hide Retained, Installed, Items;
    assert forall e | e in Elements(EVENTS) :: e in EVENTS;
  }
}
