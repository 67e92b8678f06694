/** Merging the installer's own hook entries into a client's settings document, and taking them out again. */
module HookDocument {
  import opened Basics

  /** A JSON value. An object's members are compared as a map, since documents are written with sorted keys. */
  datatype Json =
    | Null
    | Bool(b: bool)
    | Number(n: int)
    | Text(s: string)
    | List(items: seq<Json>)
    | Object(fields: map<string, Json>)

  type Settings = map<string, Json>
  type Commands = set<string>

  const EVENTS: seq<string> := ["SessionStart", "Stop", "SessionEnd", "PostToolUse"]
  const EDIT_MATCHER := "Edit|Write|MultiEdit|NotebookEdit"

  datatype Outcome<T> = Ok(value: T) | Unhashable | NotObject | NotArray(event: string)

  function Get(o: Json, key: string): Option<Json> {
    if o.Object? && key in o.fields then Some(o.fields[key]) else None
  }

  // ----- whose entry it is -----

  /** `_is_managed_hook`, for an entry it can answer for. */
  predicate IsOurs(entry: Json, commands: Commands) {
    Get(entry, "type") == Some(Text("command"))
    && match Get(entry, "command") { case Some(Text(c)) => c in commands case _ => false }
  }

  /** The set lookup raises on a command that is itself a list or an object. */
  predicate Poison(entry: Json) {
    Get(entry, "type") == Some(Text("command"))
    && match Get(entry, "command") { case Some(List(_)) => true case Some(Object(_)) => true case _ => false }
  }

  /** The entry list of a matcher, if it has the shape this installer understands. */
  function Entries(matcher: Json): Option<seq<Json>> {
    match Get(matcher, "hooks") { case Some(List(items)) => Some(items) case _ => None }
  }

  function WithEntries(matcher: Json, entries: seq<Json>): Json
    requires matcher.Object?
  {
    Object(matcher.fields["hooks" := List(entries)])
  }

  // ----- taking our entries out -----

  function Foreign(entries: seq<Json>, commands: Commands): seq<Json> {
    if entries == [] then []
    else Foreign(entries[..|entries| - 1], commands)
         + if IsOurs(entries[|entries| - 1], commands) then [] else [entries[|entries| - 1]]
  }

  function RetainedOne(matcher: Json, commands: Commands): seq<Json> {
    if Entries(matcher).None? then [matcher]
    else
      var kept := Foreign(Entries(matcher).value, commands);
      if kept == [] then [] else [WithEntries(matcher, kept)]
  }

  function Retained(matchers: seq<Json>, commands: Commands): seq<Json> {
    if matchers == [] then []
    else Retained(matchers[..|matchers| - 1], commands) + RetainedOne(matchers[|matchers| - 1], commands)
  }

  predicate Emptied(value: Json, commands: Commands) {
    value.List? && Retained(value.items, commands) == []
  }

  function StrippedEvent(value: Json, commands: Commands): Json {
    if value.List? then List(Retained(value.items, commands)) else value
  }

  /** The hook table with our entries gone from the events listed. */
  function Stripped(hooks: Settings, events: seq<string>, commands: Commands): Settings {
    map e | e in hooks && !(e in events && Emptied(hooks[e], commands)) ::
      if e in events then StrippedEvent(hooks[e], commands) else hooks[e]
  }

  function Table(settings: Settings): Option<Settings> {
    if "hooks" in settings && settings["hooks"].Object? then Some(settings["hooks"].fields) else None
  }

  function Without(settings: Settings, commands: Commands): Settings {
    if Table(settings).None? then settings
    else
      var hooks := Stripped(Table(settings).value, EVENTS, commands);
      if hooks == map[] then settings - {"hooks"} else settings["hooks" := Object(hooks)]
  }

  predicate ReadableList(value: Json) {
    value.List? ==>
      forall m {:trigger Entries(m)} | m in value.items && Entries(m).Some? ::
        forall e | e in Entries(m).value :: !Poison(e)
  }

  /** No entry the walk reaches makes it raise. */
  predicate Readable(settings: Settings) {
    Table(settings).Some? ==>
      forall e {:trigger e in EVENTS} | e in EVENTS && e in Table(settings).value ::
        ReadableList(Table(settings).value[e])
  }

  /** The comprehension over one matcher's entries. */
  method FilterEntries(entries: seq<Json>, commands: Commands) returns (kept: Option<seq<Json>>)
    ensures kept.Some? <==> forall e | e in entries :: !Poison(e)
    ensures kept.Some? ==> kept.value == Foreign(entries, commands)
  {
    var filtered: seq<Json> := [];
    for i := 0 to |entries|
      invariant filtered == Foreign(entries[..i], commands)
      invariant forall k | 0 <= k < i :: !Poison(entries[k])
    {
      assert entries[..i + 1][..i] == entries[..i];
      if Poison(entries[i]) {
        return None;
      }
      if !IsOurs(entries[i], commands) {
        filtered := filtered + [entries[i]];
      }
    }
    assert entries[..|entries|] == entries;
    return Some(filtered);
  }

  method RetainMatchers(matchers: seq<Json>, commands: Commands) returns (kept: Option<seq<Json>>)
    ensures kept.Some? <==> ReadableList(List(matchers))
    ensures kept.Some? ==> kept.value == Retained(matchers, commands)
  {
    hide Foreign, Poison, Entries, ReadableList;
    var retained: seq<Json> := [];
    OneMoreReadable(matchers, 0);
    for i := 0 to |matchers|
      invariant retained == Retained(matchers[..i], commands)
      invariant ReadableList(List(matchers[..i]))
    {
      assert matchers[..i + 1][..i] == matchers[..i];
      OneMoreReadable(matchers, i);
      var matcher := matchers[i];
      if Entries(matcher).None? {
        retained := retained + [matcher];
      } else {
        var filtered := FilterEntries(Entries(matcher).value, commands);
        if filtered.None? {
          return None;
        }
        HasEntries(matcher);
        if filtered.value != [] {
          retained := retained + [WithEntries(matcher, filtered.value)];
        }
      }
    }
    assert matchers[..|matchers|] == matchers;
    return Some(retained);
  }

  /** Reading a list matcher by matcher: it is readable as far as each has been. */
  lemma OneMoreReadable(matchers: seq<Json>, i: nat)
    requires i <= |matchers|
    ensures i == 0 ==> ReadableList(List(matchers[..i]))
    ensures i < |matchers| ==>
      (ReadableList(List(matchers[..i + 1])) <==>
        ReadableList(List(matchers[..i])) && (Entries(matchers[i]).Some? ==>
          forall e | e in Entries(matchers[i]).value :: !Poison(e)))
    ensures i < |matchers| && ReadableList(List(matchers)) ==> ReadableList(List(matchers[..i + 1]))
  {
    hide Poison, Entries;
    if i < |matchers| {
      assert matchers[..i + 1] == matchers[..i] + [matchers[i]];
      assert forall m | m in matchers[..i + 1] :: m in matchers;
    }
  }

  lemma HasEntries(matcher: Json)
    ensures Entries(matcher).Some? ==> matcher.Object?
  {
  }

  /** `_without_managed_hooks`. */
  method WithoutManagedHooks(settings: Settings, commands: Commands) returns (r: Outcome<Settings>)
    ensures r == if Readable(settings) then Ok(Without(settings, commands)) else Unhashable
  {
    hide ReadableList, Retained;
    if Table(settings).None? {
      return Ok(settings);
    }
    var table := Table(settings).value;
    var hooks := table;
    for i := 0 to |EVENTS|
      invariant hooks == Stripped(table, EVENTS[..i], commands)
      invariant forall e | e in EVENTS[..i] && e in table :: ReadableList(table[e])
    {
      var event := EVENTS[i];
      assert EVENTS[..i + 1] == EVENTS[..i] + [event];
      NotYet(i);
      if event in hooks && hooks[event].List? {
        var retained := RetainMatchers(hooks[event].items, commands);
        if retained.None? {
          assert event in EVENTS;
          return Unhashable;
        }
        if retained.value != [] {
          hooks := hooks[event := List(retained.value)];
        } else {
          hooks := hooks - {event};
        }
      } else {
        NothingToRead(table, event);
      }
    }
    assert EVENTS[..|EVENTS|] == EVENTS;
    if hooks == map[] {
      return Ok(settings - {"hooks"});
    }
    return Ok(settings["hooks" := Object(hooks)]);
  }

  lemma NotYet(i: nat)
    requires i < |EVENTS|
    ensures EVENTS[i] !in EVENTS[..i]
  {
  }

  lemma NothingToRead(table: Settings, event: string)
    ensures event in table && !table[event].List? ==> ReadableList(table[event])
  {
  }

  // ----- putting them in -----

  function Matcher(event: string): Settings {
    if event == "PostToolUse" then map["matcher" := Text(EDIT_MATCHER)] else map[]
  }

  function Hook(command: string): Json {
    Object(map["type" := Text("command"), "command" := Text(command), "args" := List([]), "timeout" := Number(10)])
  }

  /** The one matcher installed for an event. */
  function Installed(event: string, command: string): Json {
    Object(map["hooks" := List([Hook(command)])] + Matcher(event))
  }

  predicate Complete(commands: map<string, string>) {
    commands.Keys == Elements(EVENTS)
  }

  function Wanted(commands: map<string, string>): Commands {
    set e | e in commands :: commands[e]
  }

  function FirstBad(hooks: Settings, events: seq<string>): Option<string> {
    if events == [] then None
    else if events[0] in hooks && !hooks[events[0]].List? then Some(events[0])
    else FirstBad(hooks, events[1..])
  }

  function Items(hooks: Settings, event: string): seq<Json> {
    if event in hooks && hooks[event].List? then hooks[event].items else []
  }

  function Filled(hooks: Settings, events: seq<string>, commands: map<string, string>): Settings
    requires forall e | e in events :: e in commands
  {
    map e | e in hooks.Keys + Elements(events) ::
      if e in events then List(Items(hooks, e) + [Installed(e, commands[e])]) else hooks[e]
  }

  function With(settings: Settings, commands: map<string, string>, previous: Commands): Outcome<Settings>
    requires Complete(commands)
  {
    if !Readable(settings) then Unhashable
    else
      var result := Without(settings, previous + Wanted(commands));
      if "hooks" in result && !result["hooks"].Object? then NotObject
      else
        var hooks := if "hooks" in result then result["hooks"].fields else map[];
        var bad := FirstBad(hooks, EVENTS);
        if bad.Some? then NotArray(bad.value)
        else Covers(commands); Ok(result["hooks" := Object(Filled(hooks, EVENTS, commands))])
  }

  lemma Covers(commands: map<string, string>)
    requires Complete(commands)
    ensures forall e | e in EVENTS :: e in commands
  {
    assert forall e | e in EVENTS :: e in Elements(EVENTS);
  }

  /** `_with_managed_hooks`. */
  method WithManagedHooks(settings: Settings, commands: map<string, string>, previous: Commands)
    returns (r: Outcome<Settings>)
    requires Complete(commands)
    ensures r == With(settings, commands, previous)
  {
    hide Readable, Without, Installed, Wanted;
    var removed := WithoutManagedHooks(settings, previous + Wanted(commands));
    if !removed.Ok? {
      return Unhashable;
    }
    var result := removed.value;
    if "hooks" in result && !result["hooks"].Object? {
      return NotObject;
    }
    var table := if "hooks" in result then result["hooks"].fields else map[];
    var hooks := table;
    Covers(commands);
    for i := 0 to |EVENTS|
      invariant hooks == Filled(table, EVENTS[..i], commands)
      invariant FirstBad(table, EVENTS) == FirstBad(table, EVENTS[i..])
    {
      var event := EVENTS[i];
      assert EVENTS[..i + 1] == EVENTS[..i] + [event];
      NotYet(i);
      assert EVENTS[i..][0] == event && EVENTS[i..][1..] == EVENTS[i + 1..];
      FilledAt(table, EVENTS[..i], event, commands);
      if event in hooks && !hooks[event].List? {
        return NotArray(event);
      }
      var configured := Items(hooks, event);
      hooks := hooks[event := List(configured + [Installed(event, commands[event])])];
    }
    assert EVENTS[..|EVENTS|] == EVENTS;
    return Ok(result["hooks" := Object(hooks)]);
  }

  /** Filling one more event. */
  lemma FilledAt(hooks: Settings, events: seq<string>, event: string, commands: map<string, string>)
    requires event !in events && event in commands && forall e | e in events :: e in commands
    ensures Items(Filled(hooks, events, commands), event) == Items(hooks, event)
    ensures event in Filled(hooks, events, commands) <==> event in hooks
    ensures event in hooks ==> Filled(hooks, events, commands)[event] == hooks[event]
    ensures Filled(hooks, events + [event], commands) ==
      Filled(hooks, events, commands)[event := List(Items(hooks, event) + [Installed(event, commands[event])])]
  {
    hide Installed;
    AddElement(events, event);
  }
}
