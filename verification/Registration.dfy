/** The two writers of an MCP registration, as they edit JSON and TOML argument
    vectors in place, and the JSON document around the vector (`src/setup.rs`,
    `merge_json_mcp`, `merge_codex_mcp`, `register_json`, `mcp_arg_vec`). */
module Registration {
  import opened Base
  import opened Json
  import opened Argv

  // ----- JSON argument vectors ------------------------------------------------

  function TextOf(arg: Value): Option<string> {
    if arg.String? then Some(arg.text) else None
  }

  function Texts(args: seq<Value>): View {
    seq(|args|, i requires 0 <= i < |args| => TextOf(args[i]))
  }

  function Retained(args: seq<Value>): seq<Value> {
    if args == [] then []
    else (if args[0] == String(DEPRECATED) then [] else [args[0]]) + Retained(args[1..])
  }

  lemma {:induction false} TextsOfRetained(args: seq<Value>)
    ensures Texts(Retained(args)) == Prune(Texts(args))
  {
    if args != [] {
      TextsOfRetained(args[1..]);
      assert Texts(args)[1..] == Texts(args[1..]);
    }
  }

  lemma {:induction false} RetainedAppend(args: seq<Value>, arg: Value)
    ensures Retained(args + [arg]) == Retained(args) + if arg == String(DEPRECATED) then [] else [arg]
  {
    if args == [] {
      assert args + [arg] == [arg];
    } else {
      RetainedAppend(args[1..], arg);
      assert (args + [arg])[0] == args[0] && (args + [arg])[1..] == args[1..] + [arg];
      var first := if args[0] == String(DEPRECATED) then [] else [args[0]];
      var last := if arg == String(DEPRECATED) then [] else [arg];
      assert first + (Retained(args[1..]) + last) == first + Retained(args[1..]) + last;
    }
  }

  lemma {:induction false} RetainedShrinks(args: seq<Value>)
    ensures |Retained(args)| <= |args|
    ensures |Retained(args)| == |args| ==> String(DEPRECATED) !in args && Retained(args) == args
  {
    if args != [] {
      RetainedShrinks(args[1..]);
    }
  }

  /** The values behind a view: strings are rebuilt from their text, any other
      value is the one that stood there before. */
  function Revalue(before: seq<Value>, view: View): seq<Value> {
    seq(|view|, k requires 0 <= k < |view| =>
      if view[k].Some? then String(view[k].value) else if k < |before| then before[k] else Null)
  }

  lemma RevalueTwice(first: seq<Value>, second: seq<Value>, third: seq<Value>)
    requires |first| <= |second| && second == Revalue(first, Texts(second))
    requires third == Revalue(second, Texts(third))
    ensures third == Revalue(first, Texts(third))
  {
    forall k | 0 <= k < |third|
      ensures third[k] == Revalue(first, Texts(third))[k]
    {
      if k < |second| && !third[k].String? {
        assert third[k] == second[k] && TextOf(second[k]).None?;
      }
    }
  }

  function JsonArgs(args: seq<Value>, want: Desired): seq<Value> {
    Revalue(Retained(args), JsonMerge(Texts(args), want).args)
  }

  class JsonArgv {
    var args: seq<Value>

    constructor (args: seq<Value>)
      ensures this.args == args
    {
      this.args := args;
    }

    method SetFlag(flag: string, value: string)
      modifies this
      ensures Texts(args) == Argv.SetFlag(Texts(old(args)), flag, value)
      ensures args == Revalue(old(args), Texts(args))
    {
      var i := FlagAt(Texts(args), flag);
      if i + 1 < |args| {
        args := args[i + 1 := String(value)];
      } else if i < |args| {
        args := args + [String(value)];
      } else {
        args := args + [String(flag)];
        args := args + [String(value)];
      }
    }

    method StripDeprecated() returns (stripped: seq<string>)
      modifies this
      ensures args == Retained(old(args))
      ensures Texts(args) == Prune(Texts(old(args)))
      ensures stripped == [] <==> Texts(args) == Texts(old(args))
    {
      stripped := [];
      var kept: seq<Value> := [];
      assert args[..0] == [];
      for i := 0 to |args|
        invariant args == old(args)
        invariant kept == Retained(args[..i])
        invariant |kept| + |stripped| == i
      {
        RetainedAppend(args[..i], args[i]);
        assert args[..i + 1] == args[..i] + [args[i]];
        if args[i] == String(DEPRECATED) {
          stripped := stripped + [DEPRECATED];
        } else {
          kept := kept + [args[i]];
        }
      }
      assert args[..|args|] == args;
      TextsOfRetained(args);
      RetainedShrinks(args);
      args := kept;
    }

    method BindDatabase(want: Desired) returns (outcome: Registration)
      modifies this
      ensures BindDb(Texts(old(args)), want) == Merged(Texts(args), outcome)
      ensures args == Revalue(old(args), Texts(args))
    {
      outcome := Unchanged;
      var existing := FlagValue(Texts(args), DB);
      match DecideDb(existing, want.db, want.force, want.resolve) {
        case Keep =>
        case Elsewhere(other) =>
          outcome := PointsElsewhere(other);
        case Replace(previous) =>
          SetFlag(DB, want.db);
          outcome := Rebound(previous);
      }
    }

    method Configure(config: string, force: bool) returns (added: bool, forced: bool)
      modifies this
      ensures added <==> FlagValue(Texts(old(args)), CONFIG).None?
      ensures forced <==> !added && force && FlagValue(Texts(old(args)), CONFIG) != Some(config)
      ensures Texts(args) ==
        if added then Texts(old(args)) + [Some(CONFIG), Some(config)]
        else if forced then Argv.SetFlag(Texts(old(args)), CONFIG, config)
        else Texts(old(args))
      ensures args == Revalue(old(args), Texts(args))
    {
      added, forced := false, false;
      match FlagValue(Texts(args), CONFIG) {
        case None =>
          args := args + [String(CONFIG)];
          args := args + [String(config)];
          added := true;
        case Some(current) =>
          if force && current != config {
            SetFlag(CONFIG, config);
            forced := true;
          }
      }
    }

    /** Reconcile in place, one step after the other, as `merge_json_mcp` does. */
    method Reconcile(want: Desired) returns (outcome: Registration)
      modifies this
      ensures Texts(args) == JsonMerge(Texts(old(args)), want).args
      ensures args == JsonArgs(old(args), want)
      ensures outcome == JsonMerge(Texts(old(args)), want).outcome
    {
      var stripped := StripDeprecated();
      ghost var retained := args;
      outcome := BindDatabase(want);
      ghost var bound := args;
      var added, forced := false, false;
      if !outcome.PointsElsewhere? && want.config.Some? {
        added, forced := Configure(want.config.value, want.force);
        RevalueTwice(retained, bound, args);
      }
      MergeFromSteps(Texts(old(args)), want, stripped != [], Texts(bound), outcome, added, forced, Texts(args));
      if outcome == Unchanged && (stripped != [] || added || forced) {
        outcome := Reconciled;
      }
    }
  }

  // ----- TOML argument vectors ------------------------------------------------

  /** A `toml_edit` array element: its string, or the source of any other value,
      and the comments and layout around it. */
  datatype TomlArg = TomlArg(text: Option<string>, source: string, decor: string)

  function TomlTexts(args: seq<TomlArg>): View {
    seq(|args|, i requires 0 <= i < |args| => args[i].text)
  }

  function TomlString(value: string): TomlArg {
    TomlArg(Some(value), "", "")
  }

  /** Every element keeps its layout, and a value that is no string stays as it was. */
  predicate LayoutKept(before: seq<TomlArg>, after: seq<TomlArg>) {
    && |before| <= |after|
    && (forall k :: 0 <= k < |before| ==> after[k].decor == before[k].decor)
    && (forall k :: 0 <= k < |before| && after[k].text.None? ==> after[k] == before[k])
  }

  class TomlArgv {
    var args: seq<TomlArg>

    constructor (args: seq<TomlArg>)
      ensures this.args == args
    {
      this.args := args;
    }

    static method SetFlag(args: seq<TomlArg>, flag: string, value: string) returns (updated: seq<TomlArg>)
      ensures TomlTexts(updated) == Argv.SetFlag(TomlTexts(args), flag, value)
      ensures LayoutKept(args, updated)
    {
      var i := FlagAt(TomlTexts(args), flag);
      if i + 1 < |args| {
        updated := args[i + 1 := TomlString(value).(decor := args[i + 1].decor)];
      } else if i < |args| {
        updated := args + [TomlString(value)];
      } else {
        updated := args + [TomlString(flag), TomlString(value)];
      }
    }

    static method BindDatabase(args: seq<TomlArg>, want: Desired)
      returns (bound: seq<TomlArg>, outcome: Registration)
      ensures BindDb(TomlTexts(args), want) == Merged(TomlTexts(bound), outcome)
      ensures LayoutKept(args, bound)
    {
      bound, outcome := args, Unchanged;
      match DecideDb(FlagValue(TomlTexts(args), DB), want.db, want.force, want.resolve) {
        case Keep =>
        case Elsewhere(other) =>
          outcome := PointsElsewhere(other);
        case Replace(previous) =>
          bound := SetFlag(args, DB, want.db);
          outcome := Rebound(previous);
      }
    }

    /** The edited document replaces the file only when nothing was refused. */
    method Reconcile(want: Desired) returns (outcome: Result<Registration, TomlRefusal>)
      modifies this
      ensures match TomlMerge(TomlTexts(old(args)), want)
              case Ok(merged) =>
                TomlTexts(args) == merged.args && outcome == Ok(merged.outcome) && LayoutKept(old(args), args)
              case Err(refusal) => args == old(args) && outcome == Err(refusal)
    {
      var document, result := BindDatabase(args, want);
      if !result.PointsElsewhere? && want.config.Some? {
        var at := FlagAt(TomlTexts(document), CONFIG);
        if at < |document| {
          if at + 1 == |document| || document[at + 1].text.None? {
            return Err(ConfigWithoutPath);
          }
          if want.force && document[at + 1].text != want.config {
            document := SetFlag(document, CONFIG, want.config.value);
            result := Noted(result);
          }
        } else {
          ghost var bound := document;
          document := document + [TomlString(CONFIG), TomlString(want.config.value)];
          assert TomlTexts(document) == TomlTexts(bound) + [Some(CONFIG), want.config];
          result := Noted(result);
        }
      }
      args := document;
      return Ok(result);
    }
  }

  // ----- What setup generates -------------------------------------------------

  function McpArgVec(db: string, config: Option<string>, lite: bool): seq<string> {
    ["mcp"] + (if lite then ["--lite"] else []) + [DB, db]
    + (if config.Some? then [CONFIG, config.value] else [])
  }

  function Strings(args: seq<string>): seq<Value> {
    seq(|args|, i requires 0 <= i < |args| => String(args[i]))
  }

  /** The entry `register_json` builds: OpenCode (key `mcp`) keeps the whole argv in
      `command`, VS Code (key `servers`) names the transport. */
  function GeneratedEntry(serversKey: string, db: string, config: Option<string>, lite: bool): Value {
    var args := McpArgVec(db, config, lite);
    if serversKey == "mcp" then
      Object(map["type" := String("local"), "command" := Array(Strings(["nestweaver"] + args)),
                 "enabled" := Bool(true)])
    else
      Object((if serversKey == "servers" then map["type" := String("stdio")] else map[])
             + map["command" := String("nestweaver"), "args" := Array(Strings(args))])
  }

  // ----- The JSON document ----------------------------------------------------

  datatype JsonRefusal = RootNotAnObject | ServersNotAnObject

  function ArgvKey(entry: Value): string {
    if entry.GetArray("args").Some? then "args" else "command"
  }

  function EntryArgv(entry: Value): Option<seq<Value>> {
    entry.GetArray(ArgvKey(entry))
  }

  datatype Document = Document(root: Value, outcome: Registration)

  function MergeEntry(entry: Value, want: Desired): Document {
    match EntryArgv(entry)
    case None => Document(entry, Unchanged)
    case Some(args) =>
      Document(Object(entry.fields[ArgvKey(entry) := Array(JsonArgs(args, want))]),
               JsonMerge(Texts(args), want).outcome)
  }

  function MergeMcp(root: Value, serversKey: string, name: string, generated: Value, want: Desired)
    : Result<Document, JsonRefusal>
  {
    if !root.Object? then Err(RootNotAnObject)
    else
      var servers := if serversKey in root.fields then root.fields[serversKey] else Object(map[]);
      if servers.Get(name).None? then
        if !servers.Object? then Err(ServersNotAnObject)
        else Ok(Document(Object(root.fields[serversKey := Object(servers.fields[name := generated])]), Added))
      else
        var merged := MergeEntry(servers.fields[name], want);
        Ok(Document(Object(root.fields[serversKey := Object(servers.fields[name := merged.root])]), merged.outcome))
  }

  class McpConfigFile {
    var root: Value

    constructor (root: Value)
      ensures this.root == root
    {
      this.root := root;
    }

    method Merge(serversKey: string, name: string, generated: Value, want: Desired)
      returns (outcome: Result<Registration, JsonRefusal>)
      modifies this
      ensures match MergeMcp(old(root), serversKey, name, generated, want)
              case Ok(document) => root == document.root && outcome == Ok(document.outcome)
              case Err(refusal) => root == old(root) && outcome == Err(refusal)
    {
      if !root.Object? {
        return Err(RootNotAnObject);
      }
      var servers := if serversKey in root.fields then root.fields[serversKey] else Object(map[]);
      if servers.Get(name).None? {
        if !servers.Object? {
          return Err(ServersNotAnObject);
        }
        root := Object(root.fields[serversKey := Object(servers.fields[name := generated])]);
        return Ok(Added);
      }
      var entry := servers.fields[name];
      var registration := Unchanged;
      if EntryArgv(entry).Some? {
        var argv := new JsonArgv(EntryArgv(entry).value);
        registration := argv.Reconcile(want);
        entry := Object(entry.fields[ArgvKey(entry) := Array(argv.args)]);
      }
      root := Object(root.fields[serversKey := Object(servers.fields[name := entry])]);
      return Ok(registration);
    }
  }

  // ----- Document-level results -----------------------------------------------

  function Servers(root: Value, serversKey: string): map<string, Value> {
    match root.Get(serversKey)
    case Some(Object(servers)) => servers
    case _ => map[]
  }

  /** A merge touches one argv of one entry of one table of the document. */
  lemma MergeKeepsTheRest(root: Value, serversKey: string, name: string, generated: Value, want: Desired)
    requires MergeMcp(root, serversKey, name, generated, want).Ok?
    ensures var root' := MergeMcp(root, serversKey, name, generated, want).value.root;
      var before, after := Servers(root, serversKey), Servers(root', serversKey);
      && root'.Object? && root'.fields - {serversKey} == root.fields - {serversKey}
      && after - {name} == before - {name}
      && name in after
      && (name in before && before[name].Object? ==>
            after[name].Object? &&
            var key := ArgvKey(before[name]);
            after[name].fields - {key} == before[name].fields - {key})
  {}

  lemma RevalueOwnTexts(args: seq<Value>)
    ensures Revalue(args, Texts(args)) == args
  {
    assert |Revalue(args, Texts(args))| == |args|;
  }

  lemma TextsOfRevalue(before: seq<Value>, view: View)
    requires forall k :: 0 <= k < |view| && view[k].None? ==> k < |before| && Texts(before)[k].None?
    ensures Texts(Revalue(before, view)) == view
  {
    forall k | 0 <= k < |view|
      ensures TextOf(Revalue(before, view)[k]) == view[k]
    {
      if view[k].None? {
        assert Texts(before)[k] == TextOf(before[k]);
      }
    }
  }

  lemma TextsOfJsonArgs(args: seq<Value>, want: Desired)
    requires want.IsPlain()
    ensures Texts(JsonArgs(args, want)) == JsonMerge(Texts(args), want).args
  {
    var view := JsonMerge(Texts(args), want).args;
    JsonMergeKeeps(Texts(args), want);
    KeepsNonText(Prune(Texts(args)), view, want);
    TextsOfRetained(args);
    TextsOfRevalue(Retained(args), view);
  }

  lemma {:induction false} RetainedWithout(args: seq<Value>)
    requires Some(DEPRECATED) !in Texts(args)
    ensures Retained(args) == args
  {
    if args != [] {
      assert Texts(args)[0] == TextOf(args[0]);
      assert Texts(args[1..]) == Texts(args)[1..];
      RetainedWithout(args[1..]);
    }
  }

  /** A vector on which the merge has nothing to do is left alone, value by value. */
  lemma QuietJsonArgs(args: seq<Value>, want: Desired)
    requires Some(DEPRECATED) !in Texts(args)
    requires NothingToDo(Texts(args), JsonMerge(Texts(args), want))
    ensures JsonArgs(args, want) == args
  {
    RetainedWithout(args);
    RevalueOwnTexts(args);
  }

  predicate EntrySettles(entry: Value, want: Desired) {
    EntryArgv(entry).Some? ==> JsonSettles(Texts(EntryArgv(entry).value), want)
  }

  predicate IsQuiet(outcome: Registration) {
    outcome.Unchanged? || outcome.PointsElsewhere?
  }

  lemma JsonArgsTwice(args: seq<Value>, want: Desired)
    requires want.IsPlain()
    ensures var once := JsonArgs(args, want);
      JsonArgs(once, want) == once && IsQuiet(JsonMerge(Texts(once), want).outcome) <==> JsonSettles(Texts(args), want)
  {
    var once := JsonArgs(args, want);
    TextsOfJsonArgs(args, want);
    TextsOfJsonArgs(once, want);
    JsonMergeTwiceIff(Texts(args), want);
    JsonMergeStaysPruned(Texts(args), want);
    if JsonSettles(Texts(args), want) {
      QuietJsonArgs(once, want);
    }
  }

  function WithArgv(entry: Value, args: seq<Value>): Value
    requires EntryArgv(entry).Some?
  {
    Object(entry.fields[ArgvKey(entry) := Array(args)])
  }

  lemma ReplacedArgv(entry: Value, args: seq<Value>)
    requires EntryArgv(entry).Some?
    ensures EntryArgv(WithArgv(entry, args)) == Some(args)
    ensures forall other :: WithArgv(WithArgv(entry, args), other) == WithArgv(entry, other)
    ensures WithArgv(entry, EntryArgv(entry).value) == entry
  {
    var replaced := WithArgv(entry, args);
    assert ArgvKey(replaced) == ArgvKey(entry);
    forall other
      ensures WithArgv(replaced, other) == WithArgv(entry, other)
    {
      assert replaced.fields[ArgvKey(entry) := Array(other)] == entry.fields[ArgvKey(entry) := Array(other)];
    }
    assert entry.fields[ArgvKey(entry) := entry.fields[ArgvKey(entry)]] == entry.fields;
  }

  lemma MergeEntryTwice(entry: Value, want: Desired)
    requires want.IsPlain()
    ensures var once := MergeEntry(entry, want).root;
      MergeEntry(once, want).root == once && IsQuiet(MergeEntry(once, want).outcome) <==> EntrySettles(entry, want)
  {
    match EntryArgv(entry)
    case None =>
    case Some(args) =>
      var once := JsonArgs(args, want);
      JsonArgsTwice(args, want);
      ReplacedArgv(entry, once);
      ReplacedArgv(WithArgv(entry, once), JsonArgs(once, want));
  }

  lemma GeneratedFlags(args: seq<string>, at: nat, config: Option<string>)
    requires at + 1 < |args| && args[at] == DB && IsPlainValue(args[at + 1])
    requires forall i :: 0 <= i < at ==> IsPlainValue(args[i])
    requires config.Some? ==> IsPlainValue(config.value)
    requires args[at + 2..] == if config.Some? then [CONFIG, config.value] else []
    ensures var view := Texts(Strings(args));
      && Some(DEPRECATED) !in view
      && FlagValue(view, DB) == Some(args[at + 1])
      && (config.Some? ==> FlagValue(view, CONFIG) == config)
  {
    var view := Texts(Strings(args));
    assert |view| == |args| && forall i :: 0 <= i < |args| ==> view[i] == Some(args[i]);
    assert |args| == if config.Some? then at + 4 else at + 2;
    assert config.Some? ==> args[at + 2] == args[at + 2..][0] && args[at + 3] == args[at + 2..][1];
    FlagsInOrder(view, at, config);
  }

  lemma FlagsInOrder(view: View, at: nat, config: Option<string>)
    requires |view| == (if config.Some? then at + 4 else at + 2) && view[at] == Some(DB)
    requires forall i :: (0 <= i < at || i == at + 1) ==> view[i].Some? && IsPlainValue(view[i].value)
    requires config.Some? ==> IsPlainValue(config.value) && view[at + 2] == Some(CONFIG) && view[at + 3] == config
    ensures Some(DEPRECATED) !in view && FlagValue(view, DB) == view[at + 1]
    ensures config.Some? ==> FlagValue(view, CONFIG) == config
  {
    FlagsDiffer();
    FlagAtUnique(view, DB, at);
    if config.Some? {
      FlagAtUnique(view, CONFIG, at + 2);
    }
  }

  lemma GeneratedArgvIsQuiet(args: seq<string>, at: nat, want: Desired)
    requires want.IsPlain()
    requires at + 1 < |args| && args[at] == DB && args[at + 1] == want.db
    requires forall i :: 0 <= i < at ==> IsPlainValue(args[i])
    requires args[at + 2..] == if want.config.Some? then [CONFIG, want.config.value] else []
    ensures var view := Texts(Strings(args));
      Some(DEPRECATED) !in view && NothingToDo(view, JsonMerge(view, want)) && FlagValue(view, DB) == Some(want.db)
  {
    GeneratedFlags(args, at, want.config);
    JsonMergeOfPruned(Texts(Strings(args)), want);
  }

  lemma LiteralsArePlain()
    ensures IsPlainValue("mcp") && IsPlainValue("--lite") && IsPlainValue("nestweaver")
  {
    assert |"mcp"| == 3 && |"--lite"| == 6 && |"nestweaver"| == 10;
  }

  function GeneratedArgv(serversKey: string, db: string, config: Option<string>, lite: bool): seq<string> {
    (if serversKey == "mcp" then ["nestweaver"] else []) + McpArgVec(db, config, lite)
  }

  lemma GeneratedEntryArgv(serversKey: string, db: string, config: Option<string>, lite: bool)
    ensures EntryArgv(GeneratedEntry(serversKey, db, config, lite))
         == Some(Strings(GeneratedArgv(serversKey, db, config, lite)))
  {
    var entry := GeneratedEntry(serversKey, db, config, lite);
    if serversKey == "mcp" {
      assert entry.Get("args") == None;
    } else {
      assert [] + McpArgVec(db, config, lite) == McpArgVec(db, config, lite);
    }
  }

  lemma GeneratedArgvShape(serversKey: string, lite: bool, want: Desired)
    requires want.IsPlain()
    ensures var view := Texts(Strings(GeneratedArgv(serversKey, want.db, want.config, lite)));
      Some(DEPRECATED) !in view && NothingToDo(view, JsonMerge(view, want)) && FlagValue(view, DB) == Some(want.db)
  {
    LiteralsArePlain();
    var args := GeneratedArgv(serversKey, want.db, want.config, lite);
    var tail := if want.config.Some? then [CONFIG, want.config.value] else [];
    var at := |args| - |tail| - 2;
    assert args[at + 2..] == tail;
    GeneratedArgvIsQuiet(args, at, want);
  }

  /** What the host runs for an entry: a `command` array, or `command` with `args`. */
  function Launched(entry: Value): Option<View> {
    match (entry.Get("command"), entry.GetArray("args"))
    case (Some(Array(argv)), None) => Some(Texts(argv))
    case (Some(String(command)), Some(args)) => Some([Some(command)] + Texts(args))
    case _ => None
  }

  /** Whatever the host's format, the entry runs `nestweaver` with the generated argv;
      OpenCode's is local and enabled, and VS Code's names its transport. */
  lemma GeneratedEntryLaunches(serversKey: string, db: string, config: Option<string>, lite: bool)
    ensures var entry := GeneratedEntry(serversKey, db, config, lite);
      && Launched(entry) == Some(Texts(Strings(["nestweaver"] + McpArgVec(db, config, lite))))
      && entry.GetText("type") ==
           (if serversKey == "mcp" then Some("local") else if serversKey == "servers" then Some("stdio") else None)
      && entry.Get("enabled") == if serversKey == "mcp" then Some(Bool(true)) else None
  {
    assert |"type"| == 4 && |"args"| == 4 && |"command"| == 7 && |"enabled"| == 7;
    assert "type"[0] == 't' && "args"[0] == 'a' && "command"[0] == 'c' && "enabled"[0] == 'e';
    var args := McpArgVec(db, config, lite);
    assert Texts(Strings(["nestweaver"] + args)) == [Some("nestweaver")] + Texts(Strings(args));
  }

  /** The entry setup generates is one that setup leaves alone. */
  lemma GeneratedEntryIsQuiet(serversKey: string, lite: bool, want: Desired)
    requires want.IsPlain()
    ensures var entry := GeneratedEntry(serversKey, want.db, want.config, lite);
      MergeEntry(entry, want).root == entry && IsQuiet(MergeEntry(entry, want).outcome)
  {
    var entry := GeneratedEntry(serversKey, want.db, want.config, lite);
    var args := Strings(GeneratedArgv(serversKey, want.db, want.config, lite));
    GeneratedEntryArgv(serversKey, want.db, want.config, lite);
    GeneratedArgvShape(serversKey, lite, want);
    QuietJsonArgs(args, want);
    ReplacedArgv(entry, args);
  }

  /** A document whose entry is left alone is left alone. */
  lemma QuietEntryQuietDocument(root: Value, serversKey: string, name: string, generated: Value, want: Desired)
    requires name in Servers(root, serversKey)
    requires MergeEntry(Servers(root, serversKey)[name], want).root == Servers(root, serversKey)[name]
    ensures MergeMcp(root, serversKey, name, generated, want)
         == Ok(Document(root, MergeEntry(Servers(root, serversKey)[name], want).outcome))
  {
    var servers := root.fields[serversKey];
    assert servers.fields[name := servers.fields[name]] == servers.fields;
    assert root.fields[serversKey := servers] == root.fields;
  }

  /** The entry a merge leaves in the document. */
  lemma MergedEntry(root: Value, serversKey: string, name: string, generated: Value, want: Desired)
    requires MergeMcp(root, serversKey, name, generated, want).Ok?
    ensures var root' := MergeMcp(root, serversKey, name, generated, want).value.root;
      && name in Servers(root', serversKey)
      && Servers(root', serversKey)[name] ==
           if name !in Servers(root, serversKey) then generated
           else MergeEntry(Servers(root, serversKey)[name], want).root
  {}

  /** Running the whole merge twice: the second run leaves the document alone and
      says that it is configured or that it points elsewhere, exactly when an entry
      that was there before settles. A new entry always does. */
  lemma MergeMcpTwice(root: Value, serversKey: string, name: string, lite: bool, want: Desired)
    requires want.IsPlain()
    ensures
      var generated := GeneratedEntry(serversKey, want.db, want.config, lite);
      var once := MergeMcp(root, serversKey, name, generated, want);
      once.Ok? ==>
        var twice := MergeMcp(once.value.root, serversKey, name, generated, want);
        && twice.Ok?
        && (twice.value.root == once.value.root && IsQuiet(twice.value.outcome) <==>
              (name in Servers(root, serversKey) ==> EntrySettles(Servers(root, serversKey)[name], want)))
  {
    var generated := GeneratedEntry(serversKey, want.db, want.config, lite);
    var once := MergeMcp(root, serversKey, name, generated, want);
    if once.Ok? {
      if name in Servers(root, serversKey) {
        MergeEntryTwice(Servers(root, serversKey)[name], want);
      } else {
        GeneratedEntryIsQuiet(serversKey, lite, want);
      }
      MergedEntry(root, serversKey, name, generated, want);
      var root' := once.value.root;
      var twice := MergeMcp(root', serversKey, name, generated, want);
      assert twice.Ok? && twice.value.outcome == MergeEntry(Servers(root', serversKey)[name], want).outcome;
      MergedEntry(root', serversKey, name, generated, want);
      if MergeEntry(Servers(root', serversKey)[name], want).root == Servers(root', serversKey)[name] {
        QuietEntryQuietDocument(root', serversKey, name, generated, want);
      }
    }
  }

  // ----- Hooks and registration -----------------------------------------------

  /** The entry has an argv that names the database. */
  predicate EntryNames(entry: Value, db: string, resolve: string -> string) {
    EntryArgv(entry).Some? && Names(Texts(EntryArgv(entry).value), db, resolve)
  }

  lemma MergedEntryNamesIff(entry: Value, want: Desired)
    requires want.IsPlain()
    ensures var merged := MergeEntry(entry, want);
      EntryNames(merged.root, EffectiveDb(merged.outcome, want.db), want.resolve) <==>
        EntryArgv(entry).Some? && EndsUpNaming(Texts(EntryArgv(entry).value), want)
  {
    match EntryArgv(entry)
    case None =>
    case Some(args) =>
      ReplacedArgv(entry, JsonArgs(args, want));
      TextsOfJsonArgs(args, want);
      EffectiveDbIsNamedIff(Texts(args), want);
  }

  lemma GeneratedEntryNames(serversKey: string, lite: bool, want: Desired)
    requires want.IsPlain()
    ensures EntryNames(GeneratedEntry(serversKey, want.db, want.config, lite), want.db, want.resolve)
  {
    GeneratedEntryArgv(serversKey, want.db, want.config, lite);
    GeneratedArgvShape(serversKey, lite, want);
  }

  /** After a registration the hooks are bound to the database that its entry names if
      and only if an entry that was there has an argv that ends up naming it. A new
      entry always does. */
  lemma HooksAgreeIff(root: Value, serversKey: string, name: string, lite: bool, want: Desired)
    requires want.IsPlain()
    ensures
      var generated := GeneratedEntry(serversKey, want.db, want.config, lite);
      var merged := MergeMcp(root, serversKey, name, generated, want);
      merged.Ok? ==>
        var before, after := Servers(root, serversKey), Servers(merged.value.root, serversKey);
        && name in after
        && (EntryNames(after[name], EffectiveDb(merged.value.outcome, want.db), want.resolve) <==>
              (name in before ==>
                 EntryArgv(before[name]).Some? && EndsUpNaming(Texts(EntryArgv(before[name]).value), want)))
  {
    var generated := GeneratedEntry(serversKey, want.db, want.config, lite);
    var merged := MergeMcp(root, serversKey, name, generated, want);
    if merged.Ok? {
      MergedEntry(root, serversKey, name, generated, want);
      GeneratedEntryNames(serversKey, lite, want);
      if name in Servers(root, serversKey) {
        MergedEntryNamesIff(Servers(root, serversKey)[name], want);
      }
    }
  }

  /** An entry without an argv is left alone even when forced, and names nothing. */
  lemma EntryWithoutArgv(command: string, want: Desired)
    ensures var entry := Object(map["command" := String(command)]);
      var merged := MergeEntry(entry, want);
      && merged == Document(entry, Unchanged)
      && !EntryNames(merged.root, EffectiveDb(merged.outcome, want.db), want.resolve)
  {
    var entry := Object(map["command" := String(command)]);
    assert entry.Get("args") == None && entry.GetArray("command") == None;
  }
}
