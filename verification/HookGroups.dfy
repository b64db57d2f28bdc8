/** Claude Code settings as the hook installer sees them: events, matcher groups
    and hooks (`src/setup.rs`, `remove_nestweaver_hooks` and
    `install_claude_hooks`). Which hooks are NestWeaver's own is a parameter here;
    module ClaudeHooks supplies it. */
module HookGroups {
  import opened Base
  import opened Sequences
  import opened Json

  /** `hooks.retain(|hook| !is_nestweaver_hook(hook))` */
  function Others(hooks: seq<Value>, ours: Value -> bool): seq<Value> {
    if hooks == [] then []
    else (if ours(hooks[0]) then [] else [hooks[0]]) + Others(hooks[1..], ours)
  }

  function PruneGroup(group: Value, ours: Value -> bool): Value {
    match group.GetArray("hooks")
    case Some(hooks) => Object(group.fields["hooks" := Array(Others(hooks, ours))])
    case None => group
  }

  predicate IsKept(group: Value) {
    group.GetArray("hooks") != Some([])
  }

  function PruneGroups(groups: seq<Value>, ours: Value -> bool): seq<Value> {
    if groups == [] then []
    else
      var group := PruneGroup(groups[0], ours);
      (if IsKept(group) then [group] else []) + PruneGroups(groups[1..], ours)
  }

  function GroupHooks(group: Value): seq<Value> {
    match group.GetArray("hooks")
    case Some(hooks) => hooks
    case None => []
  }

  /** The hooks of one event, group by group, in order. */
  function Flatten(groups: seq<Value>): seq<Value> {
    if groups == [] then [] else GroupHooks(groups[0]) + Flatten(groups[1..])
  }

  // ----- Installing -----------------------------------------------------------

  datatype Refusal = HooksNotAnObject | EventNotAnArray(event: string)

  datatype Status = AlreadyInstalled | Installed | Updated

  const SESSION_START := "SessionStart"
  const PRE_TOOL_USE := "PreToolUse"

  /** The two hooks one run of setup generates. */
  datatype Generated = Generated(start: Value, tool: Value)
  {
    predicate AllOurs(ours: Value -> bool) {
      ours(start) && ours(tool)
    }
  }

  function Group(matcher: string, hook: Value): Value {
    Object(map["matcher" := String(matcher), "hooks" := Array([hook])])
  }

  function Groups(hooks: map<string, Value>, event: string): seq<Value> {
    if event in hooks && hooks[event].Array? then hooks[event].items else []
  }

  function InstallEvent(hooks: map<string, Value>, event: string, group: Value, ours: Value -> bool)
    : Result<map<string, Value>, Refusal>
  {
    if event in hooks && !hooks[event].Array? then Err(EventNotAnArray(event))
    else Ok(hooks[event := Array(PruneGroups(Groups(hooks, event), ours) + [group])])
  }

  lemma EventNamesDiffer()
    ensures SESSION_START != PRE_TOOL_USE
  {
    assert |SESSION_START| != |PRE_TOOL_USE|;
  }

  function InstallBoth(hooks: map<string, Value>, hook: Generated, ours: Value -> bool)
    : Result<map<string, Value>, Refusal>
  {
    var hooks' :- InstallEvent(hooks, SESSION_START, Group("", hook.start), ours);
    InstallEvent(hooks', PRE_TOOL_USE, Group("Bash", hook.tool), ours)
  }

  function HooksOf(root: map<string, Value>): Value {
    if "hooks" in root then root["hooks"] else Object(map[])
  }

  function Install(root: map<string, Value>, hook: Generated, ours: Value -> bool)
    : Result<map<string, Value>, Refusal>
  {
    match HooksOf(root)
    case Object(hooks) =>
      var hooks' :- InstallBoth(hooks, hook, ours);
      Ok(root["hooks" := Object(hooks')])
    case _ => Err(HooksNotAnObject)
  }

  predicate AnyOurs(groups: seq<Value>, ours: Value -> bool) {
    exists hook :: hook in Flatten(groups) && ours(hook)
  }

  predicate HadOurs(root: map<string, Value>, ours: Value -> bool) {
    && HooksOf(root).Object?
    && (AnyOurs(Groups(HooksOf(root).fields, SESSION_START), ours) ||
        AnyOurs(Groups(HooksOf(root).fields, PRE_TOOL_USE), ours))
  }

  /** The parsed settings file, edited in place. */
  class ClaudeSettings {
    var root: map<string, Value>

    constructor (root: map<string, Value>)
      ensures this.root == root
    {
      this.root := root;
    }

    /** Prune one event's matcher groups, one group at a time. */
    static method RemoveNestWeaverHooks(groups: seq<Value>, ours: Value -> bool) returns (kept: seq<Value>)
      ensures kept == PruneGroups(groups, ours)
    {
      kept := [];
      assert groups[..0] == [];
      for i := 0 to |groups|
        invariant kept == PruneGroups(groups[..i], ours)
      {
        var group := PruneGroup(groups[i], ours);
        PruneGroupsAppend(groups[..i], groups[i], ours);
        assert groups[..i + 1] == groups[..i] + [groups[i]];
        if IsKept(group) {
          kept := kept + [group];
        }
      }
      assert groups[..|groups|] == groups;
    }

    /** Nothing is written when the settings are refused; otherwise the new
        settings are those of `Install`, and the status says whether they differ. */
    method InstallHooks(hook: Generated, ours: Value -> bool) returns (outcome: Result<Status, Refusal>)
      modifies this
      ensures match Install(old(root), hook, ours)
              case Ok(root') =>
                && root == root'
                && outcome == Ok(if root' == old(root) then AlreadyInstalled
                                 else if HadOurs(old(root), ours) then Updated else Installed)
              case Err(refusal) => root == old(root) && outcome == Err(refusal)
    {
      var slot := HooksOf(root);
      if !slot.Object? {
        return Err(HooksNotAnObject);
      }
      var hooks := slot.fields;
      EventNamesDiffer();
      var generated := [(SESSION_START, Group("", hook.start)), (PRE_TOOL_USE, Group("Bash", hook.tool))];
      for k := 0 to 2
        invariant root == old(root)
        invariant k == 0 ==> hooks == slot.fields
        invariant k == 1 ==> InstallEvent(slot.fields, SESSION_START, Group("", hook.start), ours) == Ok(hooks)
        invariant k == 2 ==> InstallBoth(slot.fields, hook, ours) == Ok(hooks)
      {
        var event, group := generated[k].0, generated[k].1;
        if event in hooks && !hooks[event].Array? {
          return Err(EventNotAnArray(event));
        }
        var kept := RemoveNestWeaverHooks(Groups(hooks, event), ours);
        hooks := hooks[event := Array(kept + [group])];
      }
      var updated := root["hooks" := Object(hooks)];
      if updated == root {
        return Ok(AlreadyInstalled);
      }
      outcome := Ok(if HadOurs(root, ours) then Updated else Installed);
      root := updated;
    }
  }

  // ----- Last writer wins -----------------------------------------------------

  lemma {:induction false} OthersOfOthers(hooks: seq<Value>, ours: Value -> bool)
    ensures Others(Others(hooks, ours), ours) == Others(hooks, ours)
  {
    if hooks != [] {
      OthersOfOthers(hooks[1..], ours);
      if ours(hooks[0]) {
        assert Others(hooks, ours) == Others(hooks[1..], ours);
      } else {
        assert Others(hooks, ours)[1..] == Others(hooks[1..], ours);
      }
    }
  }

  lemma {:induction false} OthersOfConcat(a: seq<Value>, b: seq<Value>, ours: Value -> bool)
    ensures Others(a + b, ours) == Others(a, ours) + Others(b, ours)
  {
    if a == [] {
      assert a + b == b;
    } else {
      OthersOfConcat(a[1..], b, ours);
      assert (a + b)[0] == a[0] && (a + b)[1..] == a[1..] + b;
      var first := if ours(a[0]) then [] else [a[0]];
      assert first + (Others(a[1..], ours) + Others(b, ours)) == first + Others(a[1..], ours) + Others(b, ours);
    }
  }

  lemma PruneGroupTwice(group: Value, ours: Value -> bool)
    ensures PruneGroup(PruneGroup(group, ours), ours) == PruneGroup(group, ours)
  {
    match group.GetArray("hooks")
    case None =>
    case Some(hooks) => OthersOfOthers(hooks, ours);
  }

  lemma {:induction false} PruneGroupsAppend(groups: seq<Value>, group: Value, ours: Value -> bool)
    ensures PruneGroups(groups + [group], ours) ==
      PruneGroups(groups, ours) + PruneGroups([group], ours)
    ensures PruneGroups([group], ours) ==
      if IsKept(PruneGroup(group, ours)) then [PruneGroup(group, ours)] else []
  {
    if groups == [] {
      assert groups + [group] == [group];
    } else {
      PruneGroupsAppend(groups[1..], group, ours);
      assert (groups + [group])[0] == groups[0] && (groups + [group])[1..] == groups[1..] + [group];
      var pruned := PruneGroup(groups[0], ours);
      var first, more := if IsKept(pruned) then [pruned] else [], PruneGroups(groups[1..], ours);
      assert PruneGroups(groups + [group], ours) == first + (more + PruneGroups([group], ours));
      Assoc(first, more, PruneGroups([group], ours));
    }
  }

  lemma {:induction false} PruneGroupsTwice(groups: seq<Value>, ours: Value -> bool)
    ensures PruneGroups(PruneGroups(groups, ours), ours) == PruneGroups(groups, ours)
  {
    if groups != [] {
      PruneGroupsTwice(groups[1..], ours);
      PruneGroupTwice(groups[0], ours);
      if IsKept(PruneGroup(groups[0], ours)) {
        assert PruneGroups(groups, ours)[1..] == PruneGroups(groups[1..], ours);
      } else {
        assert PruneGroups(groups, ours) == PruneGroups(groups[1..], ours);
      }
    }
  }

  /** A generated group leaves nothing behind when the event is pruned again. */
  lemma OurGroupVanishes(groups: seq<Value>, matcher: string, hook: Value, ours: Value -> bool)
    requires ours(hook)
    ensures PruneGroups(PruneGroups(groups, ours) + [Group(matcher, hook)], ours) == PruneGroups(groups, ours)
  {
    PruneGroupsAppend(PruneGroups(groups, ours), Group(matcher, hook), ours);
    PruneGroupsTwice(groups, ours);
    assert Others([hook], ours) == [];
    assert PruneGroups([Group(matcher, hook)], ours) == [];
  }

  lemma InstallBothOverwrites(hooks: map<string, Value>, first: Generated, second: Generated, ours: Value -> bool)
    requires first.AllOurs(ours)
    requires InstallBoth(hooks, first, ours).Ok?
    ensures InstallBoth(InstallBoth(hooks, first, ours).value, second, ours) == InstallBoth(hooks, second, ours)
  {
    OurGroupVanishes(Groups(hooks, SESSION_START), "", first.start, ours);
    OurGroupVanishes(Groups(hooks, PRE_TOOL_USE), "Bash", first.tool, ours);
    var once := InstallBoth(hooks, first, ours).value;
    InstalledBoth(hooks, first, ours);
    InstalledBoth(hooks, second, ours);
    InstalledBoth(once, second, ours);
    var start, tool := PruneGroups(Groups(hooks, SESSION_START), ours), PruneGroups(Groups(hooks, PRE_TOOL_USE), ours);
    BothReplaced(hooks, SESSION_START, PRE_TOOL_USE, Array(start + [Group("", first.start)]),
      Array(tool + [Group("Bash", first.tool)]), Array(start + [Group("", second.start)]),
      Array(tool + [Group("Bash", second.tool)]));
  }

  lemma BothReplaced(hooks: map<string, Value>, x: string, y: string, a: Value, b: Value, c: Value, d: Value)
    ensures hooks[x := a][y := b][x := c][y := d] == hooks[x := c][y := d]
  {}

  lemma InstalledBoth(hooks: map<string, Value>, hook: Generated, ours: Value -> bool)
    requires SESSION_START in hooks ==> hooks[SESSION_START].Array?
    requires PRE_TOOL_USE in hooks ==> hooks[PRE_TOOL_USE].Array?
    ensures var start := PruneGroups(Groups(hooks, SESSION_START), ours) + [Group("", hook.start)];
      var tool := PruneGroups(Groups(hooks, PRE_TOOL_USE), ours) + [Group("Bash", hook.tool)];
      && InstallBoth(hooks, hook, ours) == Ok(hooks[SESSION_START := Array(start)][PRE_TOOL_USE := Array(tool)])
      && Groups(InstallBoth(hooks, hook, ours).value, SESSION_START) == start
      && Groups(InstallBoth(hooks, hook, ours).value, PRE_TOOL_USE) == tool
  {
    EventNamesDiffer();
  }

  /** Installing one generation and then another is installing the second. */
  lemma InstallOverwrites(root: map<string, Value>, first: Generated, second: Generated, ours: Value -> bool)
    requires first.AllOurs(ours)
    requires Install(root, first, ours).Ok?
    ensures Install(Install(root, first, ours).value, second, ours) == Install(root, second, ours)
  {
    var hooks := HooksOf(root).fields;
    InstallBothOverwrites(hooks, first, second, ours);
    var once := Install(root, first, ours).value;
    var twice := InstallBoth(hooks, second, ours);
    if twice.Ok? {
      assert once["hooks" := Object(twice.value)] == root["hooks" := Object(twice.value)];
    }
  }

  lemma {:induction false} OthersKeepAllIff(hooks: seq<Value>, ours: Value -> bool)
    ensures Others(hooks, ours) == hooks <==> forall hook :: hook in hooks ==> !ours(hook)
    ensures |Others(hooks, ours)| <= |hooks|
  {
    if hooks != [] {
      OthersKeepAllIff(hooks[1..], ours);
      assert hooks == [hooks[0]] + hooks[1..];
      var rest := Others(hooks[1..], ours);
      if ours(hooks[0]) {
        assert |Others(hooks, ours)| < |hooks|;
      } else {
        assert ([hooks[0]] + rest)[1..] == rest;
      }
    }
  }

  /** An update is reported exactly when the installation takes a hook of ours away. */
  lemma UpdatedIff(root: map<string, Value>, ours: Value -> bool)
    requires HooksOf(root).Object?
    ensures HadOurs(root, ours) <==>
      var hooks := HooksOf(root).fields;
      || Flatten(PruneGroups(Groups(hooks, "SessionStart"), ours)) != Flatten(Groups(hooks, "SessionStart"))
      || Flatten(PruneGroups(Groups(hooks, "PreToolUse"), ours)) != Flatten(Groups(hooks, "PreToolUse"))
  {
    var hooks := HooksOf(root).fields;
    FlattenOfPruned(Groups(hooks, SESSION_START), ours);
    FlattenOfPruned(Groups(hooks, PRE_TOOL_USE), ours);
    OthersKeepAllIff(Flatten(Groups(hooks, SESSION_START)), ours);
    OthersKeepAllIff(Flatten(Groups(hooks, PRE_TOOL_USE)), ours);
  }

  // ----- Nothing of the user's is lost ----------------------------------------

  lemma {:induction false} FlattenOfPruned(groups: seq<Value>, ours: Value -> bool)
    ensures Flatten(PruneGroups(groups, ours)) == Others(Flatten(groups), ours)
  {
    if groups != [] {
      FlattenOfPruned(groups[1..], ours);
      OthersOfConcat(GroupHooks(groups[0]), Flatten(groups[1..]), ours);
      var group := PruneGroup(groups[0], ours);
      assert GroupHooks(group) == Others(GroupHooks(groups[0]), ours);
      if IsKept(group) {
        assert PruneGroups(groups, ours)[1..] == PruneGroups(groups[1..], ours);
      } else {
        assert PruneGroups(groups, ours) == PruneGroups(groups[1..], ours);
      }
    }
  }

  lemma {:induction false} FlattenAppend(groups: seq<Value>, group: Value)
    ensures Flatten(groups + [group]) == Flatten(groups) + GroupHooks(group)
  {
    if groups == [] {
      assert groups + [group] == [group];
    } else {
      FlattenAppend(groups[1..], group);
      assert (groups + [group])[1..] == groups[1..] + [group];
    }
  }

  lemma {:induction false} OthersAreNotOurs(hooks: seq<Value>, ours: Value -> bool)
    ensures forall hook :: hook in Others(hooks, ours) <==> hook in hooks && !ours(hook)
  {
    if hooks != [] {
      OthersAreNotOurs(hooks[1..], ours);
      assert hooks == [hooks[0]] + hooks[1..];
    }
  }

  /** A matcher group disappears exactly when it lists hooks and none of them is
      the user's. This includes a group the user left empty. */
  lemma GroupSurvivesIff(group: Value, ours: Value -> bool)
    ensures IsKept(PruneGroup(group, ours)) <==>
      group.GetArray("hooks").None? || exists hook :: hook in GroupHooks(group) && !ours(hook)
    ensures group.Object? ==>
      PruneGroup(group, ours).Object? && PruneGroup(group, ours).fields - {"hooks"} == group.fields - {"hooks"}
  {
    match group.GetArray("hooks")
    case None =>
    case Some(hooks) =>
      OthersAreNotOurs(hooks, ours);
      if IsKept(PruneGroup(group, ours)) {
        var survivor := Others(hooks, ours)[0];
        assert survivor in Others(hooks, ours);
      }
  }

  /** A group that the user left empty does not survive. */
  lemma EmptyGroupIsDropped(matcher: string, ours: Value -> bool)
    ensures PruneGroups([Object(map["matcher" := String(matcher), "hooks" := Array([])])], ours) == []
  {
    var group := Object(map["matcher" := String(matcher), "hooks" := Array([])]);
    assert group.GetArray("hooks") == Some([]) && Others([], ours) == [];
    assert PruneGroup(group, ours).GetArray("hooks") == Some([]);
  }

  /** In both events the user's hooks survive, in order, followed by exactly one
      generated hook; other events and other settings are untouched. Installation
      is refused exactly when one of the three slots has the wrong shape. */
  lemma InstallKeepsTheRest(root: map<string, Value>, hook: Generated, ours: Value -> bool)
    ensures Install(root, hook, ours).Ok? <==>
      && HooksOf(root).Object?
      && forall event | event in [SESSION_START, PRE_TOOL_USE] && event in HooksOf(root).fields ::
           HooksOf(root).fields[event].Array?
    ensures Install(root, hook, ours).Ok? ==>
      var root' := Install(root, hook, ours).value;
      var before, after := HooksOf(root).fields, HooksOf(root').fields;
      && HooksOf(root').Object?
      && root' - {"hooks"} == root - {"hooks"}
      && after - {SESSION_START, PRE_TOOL_USE} == before - {SESSION_START, PRE_TOOL_USE}
      && Flatten(Groups(after, SESSION_START)) ==
           Others(Flatten(Groups(before, SESSION_START)), ours) + [hook.start]
      && Flatten(Groups(after, PRE_TOOL_USE)) ==
           Others(Flatten(Groups(before, PRE_TOOL_USE)), ours) + [hook.tool]
  {
    assert SESSION_START in [SESSION_START, PRE_TOOL_USE] && PRE_TOOL_USE in [SESSION_START, PRE_TOOL_USE];
    if HooksOf(root).Object? {
      BothEventsKeep(HooksOf(root).fields, hook, ours);
    }
  }

  lemma EventKeeps(hooks: map<string, Value>, event: string, matcher: string, hook: Value, ours: Value -> bool)
    requires InstallEvent(hooks, event, Group(matcher, hook), ours).Ok?
    ensures Flatten(Groups(InstallEvent(hooks, event, Group(matcher, hook), ours).value, event)) ==
      Others(Flatten(Groups(hooks, event)), ours) + [hook]
  {
    FlattenOfPruned(Groups(hooks, event), ours);
    FlattenAppend(PruneGroups(Groups(hooks, event), ours), Group(matcher, hook));
  }

  lemma BothEventsKeep(hooks: map<string, Value>, hook: Generated, ours: Value -> bool)
    ensures InstallBoth(hooks, hook, ours).Ok? ==>
      var after := InstallBoth(hooks, hook, ours).value;
      && after - {SESSION_START, PRE_TOOL_USE} == hooks - {SESSION_START, PRE_TOOL_USE}
      && Flatten(Groups(after, SESSION_START)) == Others(Flatten(Groups(hooks, SESSION_START)), ours) + [hook.start]
      && Flatten(Groups(after, PRE_TOOL_USE)) == Others(Flatten(Groups(hooks, PRE_TOOL_USE)), ours) + [hook.tool]
  {
    EventNamesDiffer();
    if InstallBoth(hooks, hook, ours).Ok? {
      EventKeeps(hooks, SESSION_START, "", hook.start, ours);
      var once := InstallEvent(hooks, SESSION_START, Group("", hook.start), ours).value;
      EventKeeps(once, PRE_TOOL_USE, "Bash", hook.tool, ours);
    }
  }
}
