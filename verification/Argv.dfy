/** Reconciling the argument vector of an existing MCP registration
    (`src/setup.rs`). An argument is seen through `as_str`: its text, or `None`
    for a value that is not a string. */
module Argv {
  import opened Base

  type View = seq<Option<string>>

  const DB := "--db"
  const CONFIG := "--config"
  const DEPRECATED := "--allow-mcp-add-sources"
  const NO_DB_ARG := "(none — the server's default)"

  /** A value that cannot be mistaken for a flag the merge looks for. */
  predicate IsPlainValue(value: string) {
    value != DB && value != CONFIG && value != DEPRECATED
  }

  lemma FlagsDiffer()
    ensures DB != CONFIG && DB != DEPRECATED && CONFIG != DEPRECATED
  {
    assert |DB| != |CONFIG| && |DB| != |DEPRECATED| && |CONFIG| != |DEPRECATED|;
  }

  datatype Registration =
    | Added
    | Unchanged
    | Reconciled
    | Rebound(previousDb: string)
    | PointsElsewhere(existingDb: string)

  // ----- Looking flags up and setting them ------------------------------------

  /** `args.iter().position(|a| a.as_str() == Some(flag))`, or the length. */
  function FlagAt(args: View, flag: string): (i: nat)
    ensures i <= |args|
    ensures i < |args| ==> args[i] == Some(flag)
    ensures forall k :: 0 <= k < i ==> args[k] != Some(flag)
  {
    if args == [] || args[0] == Some(flag) then 0 else 1 + FlagAt(args[1..], flag)
  }

  function FlagValue(args: View, flag: string): Option<string> {
    var i := FlagAt(args, flag);
    if i + 1 < |args| then args[i + 1] else None
  }

  function SetFlag(args: View, flag: string, value: string): View {
    var i := FlagAt(args, flag);
    if i + 1 < |args| then args[i + 1 := Some(value)]
    else if i < |args| then args + [Some(value)]
    else args + [Some(flag), Some(value)]
  }

  /** `args.retain(...)`: deprecated flags go, everything else stays in order. */
  function Prune(args: View): View {
    if args == [] then []
    else (if args[0] == Some(DEPRECATED) then [] else [args[0]]) + Prune(args[1..])
  }

  // ----- Deciding about the database ------------------------------------------

  datatype DbAction = Keep | Replace(previous: string) | Elsewhere(existing: string)

  /** `resolve` stands for joining to the base directory and canonicalising. */
  predicate SameDb(existing: string, desired: string, resolve: string -> string) {
    existing == desired || resolve(existing) == resolve(desired)
  }

  /** The argv names the database, by its text or by what it resolves to. */
  predicate Names(args: View, db: string, resolve: string -> string) {
    match FlagValue(args, DB)
    case Some(text) => SameDb(text, db, resolve)
    case None => false
  }

  function DecideDb(existing: Option<string>, desired: string, force: bool, resolve: string -> string): DbAction {
    match existing
    case Some(text) =>
      if text == desired then Keep
      else if SameDb(text, desired, resolve) && !force then Keep
      else if force then Replace(text)
      else Elsewhere(text)
    case None =>
      if force then Replace(NO_DB_ARG) else Elsewhere(NO_DB_ARG)
  }

  /** What a run of setup wants the registration to say. */
  datatype Desired = Desired(db: string, config: Option<string>, force: bool, resolve: string -> string)
  {
    predicate IsPlain() {
      IsPlainValue(db) && (config.Some? ==> IsPlainValue(config.value))
    }
  }

  datatype Merged = Merged(args: View, outcome: Registration)

  function BindDb(args: View, want: Desired): Merged {
    match DecideDb(FlagValue(args, DB), want.db, want.force, want.resolve)
    case Keep => Merged(args, Unchanged)
    case Elsewhere(existing) => Merged(args, PointsElsewhere(existing))
    case Replace(previous) => Merged(SetFlag(args, DB, want.db), Rebound(previous))
  }

  function Noted(outcome: Registration): Registration {
    if outcome.Unchanged? then Reconciled else outcome
  }

  // ----- The two writers ------------------------------------------------------

  /** The reconciliation in `merge_json_mcp`. */
  function JsonMerge(args: View, want: Desired): Merged {
    var bound := BindDb(Prune(args), want);
    JsonConfigure(Merged(bound.args, if Prune(args) != args then Noted(bound.outcome) else bound.outcome), want)
  }

  function JsonConfigure(bound: Merged, want: Desired): Merged {
    if bound.outcome.PointsElsewhere? || want.config.None? then
      bound
    else
      match FlagValue(bound.args, CONFIG)
      case None => Merged(bound.args + [Some(CONFIG), want.config], Noted(bound.outcome))
      case Some(current) =>
        if want.force && current != want.config.value then
          Merged(SetFlag(bound.args, CONFIG, want.config.value), Noted(bound.outcome))
        else
          bound
  }

  /** The merge, put together from its steps. */
  lemma MergeFromSteps(
      args: View, want: Desired, pruned: bool, bound: View, outcome: Registration,
      added: bool, forced: bool, merged: View)
    requires pruned <==> Prune(args) != args
    requires BindDb(Prune(args), want) == Merged(bound, outcome)
    requires added <==> !outcome.PointsElsewhere? && want.config.Some? && FlagValue(bound, CONFIG).None?
    requires forced <==>
      !outcome.PointsElsewhere? && want.config.Some? && !added && want.force && FlagValue(bound, CONFIG) != want.config
    requires merged ==
      if added then bound + [Some(CONFIG), want.config]
      else if forced then SetFlag(bound, CONFIG, want.config.value)
      else bound
    ensures JsonMerge(args, want) == Merged(merged, if pruned || added || forced then Noted(outcome) else outcome)
  {}

  datatype TomlRefusal = ConfigWithoutPath

  /** The reconciliation in `merge_codex_mcp`. */
  function TomlMerge(args: View, want: Desired): Result<Merged, TomlRefusal> {
    var bound := BindDb(args, want);
    if bound.outcome.PointsElsewhere? || want.config.None? then
      Ok(bound)
    else
      var i := FlagAt(bound.args, CONFIG);
      if i == |bound.args| then
        Ok(Merged(bound.args + [Some(CONFIG), want.config], Noted(bound.outcome)))
      else if i + 1 < |bound.args| && bound.args[i + 1].Some? then
        if want.force && bound.args[i + 1] != want.config then
          Ok(Merged(SetFlag(bound.args, CONFIG, want.config.value), Noted(bound.outcome)))
        else
          Ok(bound)
      else
        Err(ConfigWithoutPath)
  }

  // ----- Facts about lookups --------------------------------------------------

  lemma FlagAtUnique(args: View, flag: string, i: nat)
    requires i < |args| && args[i] == Some(flag)
    requires forall k :: 0 <= k < i ==> args[k] != Some(flag)
    ensures FlagAt(args, flag) == i
  {}

  lemma SetFlagIsFound(args: View, flag: string, value: string)
    ensures FlagValue(SetFlag(args, flag, value), flag) == Some(value)
  {
    var i := FlagAt(args, flag);
    FlagAtUnique(SetFlag(args, flag, value), flag, i);
  }

  /** Appending does not disturb a flag that already has its value. */
  lemma AppendKeepsFlag(args: View, more: View, flag: string)
    requires FlagAt(args, flag) + 1 < |args|
    ensures FlagAt(args + more, flag) == FlagAt(args, flag)
    ensures FlagValue(args + more, flag) == FlagValue(args, flag)
  {
    FlagAtUnique(args + more, flag, FlagAt(args, flag));
  }

  lemma AppendPairIsFound(args: View, flag: string, value: Option<string>)
    requires FlagAt(args, flag) == |args|
    ensures FlagValue(args + [Some(flag), value], flag) == value
  {
    FlagAtUnique(args + [Some(flag), value], flag, |args|);
  }

  lemma {:induction false} PruneWithout(args: View)
    requires Some(DEPRECATED) !in args
    ensures Prune(args) == args
  {
    if args != [] {
      PruneWithout(args[1..]);
    }
  }

  lemma {:induction false} PruneRemovesAll(args: View)
    ensures Some(DEPRECATED) !in Prune(args)
    ensures forall arg :: arg in Prune(args) ==> arg in args
    ensures Prune(args) == args <==> Some(DEPRECATED) !in args
  {
    if args != [] {
      PruneRemovesAll(args[1..]);
    }
    if Some(DEPRECATED) !in args {
      PruneWithout(args);
    }
  }

  lemma BindDbStaysPruned(args: View, want: Desired)
    requires want.IsPlain()
    requires Some(DEPRECATED) !in args
    ensures Some(DEPRECATED) !in BindDb(args, want).args
  {
    FlagsDiffer();
  }

  lemma JsonMergeStaysPruned(args: View, want: Desired)
    requires want.IsPlain()
    ensures Some(DEPRECATED) !in JsonMerge(args, want).args
    ensures Prune(JsonMerge(args, want).args) == JsonMerge(args, want).args
  {
    FlagsDiffer();
    PruneRemovesAll(args);
    BindDbStaysPruned(Prune(args), want);
    PruneWithout(JsonMerge(args, want).args);
  }

  /** Once the database is settled, binding again keeps it. */
  lemma BindDbAgain(args: View, want: Desired)
    requires !BindDb(args, want).outcome.PointsElsewhere?
    ensures var bound := BindDb(args, want).args;
      && FlagAt(bound, DB) + 1 < |bound|
      && FlagValue(bound, DB).Some?
      && (want.force ==> FlagValue(bound, DB) == Some(want.db))
      && BindDb(bound, want) == Merged(bound, Unchanged)
  {
    SetFlagIsFound(args, DB, want.db);
  }

  // ----- When a second run changes nothing ------------------------------------

  /** The argv after the database has been bound and before `--config` is. */
  function Bound(args: View, want: Desired): View {
    BindDb(args, want).args
  }

  /** The first `--config` has no string after it. */
  predicate ConfigLacksText(bound: View) {
    var i := FlagAt(bound, CONFIG);
    i < |bound| && !(i + 1 < |bound| && bound[i + 1].Some?)
  }

  /** The value slot of the first `--config` holds the first `--db`, so forcing
      `--config` erases that flag, and no later pair names the wanted database. */
  predicate ConfigSlotHoldsDb(bound: View, want: Desired) {
    var i := FlagAt(bound, CONFIG);
    && i + 1 < |bound|
    && FlagAt(bound, DB) == i + 1
    && FlagValue(bound[i + 2..], DB) != Some(want.db)
  }

  /** Whether a run touches `--config` at all. */
  predicate ReachesConfig(args: View, want: Desired) {
    !BindDb(args, want).outcome.PointsElsewhere? && want.config.Some?
  }

  predicate BoundSettles(bound: View, want: Desired) {
    want.config.Some? ==>
      && (ConfigLacksText(bound) ==> !want.force && FlagAt(bound, CONFIG) + 1 == |bound|)
      && !(want.force && ConfigSlotHoldsDb(bound, want))
  }

  predicate JsonSettles(args: View, want: Desired) {
    !BindDb(Prune(args), want).outcome.PointsElsewhere? ==> BoundSettles(Bound(Prune(args), want), want)
  }

  predicate TomlSettles(args: View, want: Desired) {
    ReachesConfig(args, want) && want.force ==> !ConfigSlotHoldsDb(Bound(args, want), want)
  }

  predicate TomlRefuses(args: View, want: Desired) {
    ReachesConfig(args, want) && ConfigLacksText(Bound(args, want))
  }

  predicate NothingToDo(args: View, merged: Merged) {
    merged.args == args && (merged.outcome.Unchanged? || merged.outcome.PointsElsewhere?)
  }

  lemma FlagValuePastPrefix(args: View, flag: string, n: nat)
    requires n <= |args|
    requires forall k :: 0 <= k < n ==> args[k] != Some(flag)
    ensures FlagAt(args, flag) == n + FlagAt(args[n..], flag)
    ensures FlagValue(args, flag) == FlagValue(args[n..], flag)
  {
    var i := FlagAt(args[n..], flag);
    if n + i < |args| {
      FlagAtUnique(args, flag, n + i);
    }
  }

  /** Forcing `--config` always makes its lookup succeed; the `--db` lookup
      survives it except when the slot it overwrites held the `--db` flag. */
  lemma ForcedConfig(bound: View, want: Desired)
    requires want.IsPlain() && want.config.Some?
    requires FlagValue(bound, DB) == Some(want.db)
    requires FlagValue(bound, CONFIG).Some?
    ensures var merged := SetFlag(bound, CONFIG, want.config.value);
      && FlagValue(merged, CONFIG) == want.config
      && (FlagValue(merged, DB) == Some(want.db) <==> !ConfigSlotHoldsDb(bound, want))
  {
    FlagsDiffer();
    SetFlagIsFound(bound, CONFIG, want.config.value);
    if FlagAt(bound, DB) == FlagAt(bound, CONFIG) + 1 {
      OverwrittenFlag(bound, CONFIG, DB, want.config.value);
    } else {
      OtherFlagSurvives(bound, CONFIG, DB, want.config.value);
    }
  }

  /** Setting a flag whose value slot holds another flag erases that flag. */
  lemma OverwrittenFlag(args: View, flag: string, other: string, value: string)
    requires flag != other && value != other
    requires FlagAt(args, flag) + 1 < |args| && FlagAt(args, other) == FlagAt(args, flag) + 1
    ensures FlagValue(SetFlag(args, flag, value), other) == FlagValue(args[FlagAt(args, flag) + 2..], other)
  {
    var merged, n := SetFlag(args, flag, value), FlagAt(args, flag) + 2;
    FlagValuePastPrefix(merged, other, n);
    assert merged[n..] == args[n..];
  }

  /** Otherwise the other flag keeps its value. */
  lemma OtherFlagSurvives(args: View, flag: string, other: string, value: string)
    requires flag != other && value != other
    requires FlagAt(args, flag) + 1 < |args| && FlagAt(args, other) + 1 < |args|
    requires FlagAt(args, other) != FlagAt(args, flag) + 1
    ensures FlagValue(SetFlag(args, flag, value), other) == FlagValue(args, other)
  {
    FlagAtUnique(SetFlag(args, flag, value), other, FlagAt(args, other));
  }

  lemma SettledDbIsKept(args: View, want: Desired)
    requires want.force
    ensures BindDb(args, want) == Merged(args, Unchanged) <==> FlagValue(args, DB) == Some(want.db)
    ensures FlagValue(args, DB) != Some(want.db) ==> BindDb(args, want).outcome.Rebound?
  {}

  lemma AppendedPairLookup(args: View, flag: string, value: Option<string>)
    ensures FlagValue(args + [Some(flag), value], flag) ==
      if FlagAt(args, flag) == |args| then value
      else if FlagAt(args, flag) + 1 == |args| then Some(flag)
      else FlagValue(args, flag)
  {
    FlagAtUnique(args + [Some(flag), value], flag, FlagAt(args, flag));
  }

  /** When `JsonConfigure` leaves a settled argv alone. */
  lemma ConfigureIsQuiet(args: View, want: Desired)
    requires want.config.Some?
    ensures JsonConfigure(Merged(args, Unchanged), want) == Merged(args, Unchanged) <==>
      FlagValue(args, CONFIG).Some? && (want.force ==> FlagValue(args, CONFIG) == want.config)
  {}

  lemma AppendKeepsDb(bound: View, more: View, want: Desired)
    requires BindDb(bound, want) == Merged(bound, Unchanged) && FlagAt(bound, DB) + 1 < |bound|
    ensures BindDb(bound + more, want) == Merged(bound + more, Unchanged)
  {
    AppendKeepsFlag(bound, more, DB);
  }

  /** Appending the pair where `--config` already stood without a string: the
      second run is quiet only if it does not force the trailing flag. */
  lemma AppendedConfigAgain(bound: View, want: Desired)
    requires want.IsPlain() && want.config.Some?
    requires FlagValue(bound, CONFIG).None?
    ensures var once := bound + [Some(CONFIG), want.config];
      JsonConfigure(Merged(once, Unchanged), want) == Merged(once, Unchanged) <==>
        FlagAt(bound, CONFIG) == |bound| || (!want.force && FlagAt(bound, CONFIG) + 1 == |bound|)
  {
    AppendedPairLookup(bound, CONFIG, want.config);
    ConfigureIsQuiet(bound + [Some(CONFIG), want.config], want);
  }

  lemma JsonMergeOfPruned(args: View, want: Desired)
    requires Some(DEPRECATED) !in args
    ensures JsonMerge(args, want) == JsonConfigure(BindDb(args, want), want)
  {
    PruneWithout(args);
  }

  lemma NothingToDoIff(args: View, want: Desired)
    requires Some(DEPRECATED) !in args
    ensures NothingToDo(args, JsonMerge(args, want)) <==>
      || BindDb(args, want).outcome.PointsElsewhere?
      || (BindDb(args, want) == Merged(args, Unchanged) &&
          JsonConfigure(Merged(args, Unchanged), want) == Merged(args, Unchanged))
  {
    JsonMergeOfPruned(args, want);
  }

  lemma AppendedSettles(bound: View, want: Desired)
    requires want.IsPlain() && want.config.Some? && FlagValue(bound, CONFIG).None?
    ensures BoundSettles(bound, want) <==>
      FlagAt(bound, CONFIG) == |bound| || (!want.force && FlagAt(bound, CONFIG) + 1 == |bound|)
  {
    ConfigSlotWithDbIsNotTheConfig(bound, want);
  }

  lemma TwiceAppended(bound: View, want: Desired)
    requires want.IsPlain() && want.config.Some? && Some(DEPRECATED) !in bound
    requires BindDb(bound, want) == Merged(bound, Unchanged) && FlagAt(bound, DB) + 1 < |bound|
    requires FlagValue(bound, CONFIG).None?
    ensures var once := bound + [Some(CONFIG), want.config];
      NothingToDo(once, JsonMerge(once, want)) <==> BoundSettles(bound, want)
  {
    var once := bound + [Some(CONFIG), want.config];
    assert Some(DEPRECATED) !in once by { FlagsDiffer(); }
    NothingToDoIff(once, want);
    assert BindDb(once, want) == Merged(once, Unchanged) by { AppendKeepsDb(bound, [Some(CONFIG), want.config], want); }
    AppendedConfigAgain(bound, want);
    AppendedSettles(bound, want);
  }

  lemma TwiceForced(bound: View, want: Desired)
    requires want.IsPlain() && want.config.Some? && Some(DEPRECATED) !in bound && want.force
    requires FlagValue(bound, DB) == Some(want.db) && FlagValue(bound, CONFIG).Some?
    ensures var once := SetFlag(bound, CONFIG, want.config.value);
      NothingToDo(once, JsonMerge(once, want)) <==> BoundSettles(bound, want)
  {
    var once := SetFlag(bound, CONFIG, want.config.value);
    ForcedConfig(bound, want);
    SettledDbIsKept(once, want);
    ConfigureIsQuiet(once, want);
    NothingToDoIff(once, want);
  }

  lemma TwiceUntouched(bound: View, want: Desired)
    requires want.IsPlain() && Some(DEPRECATED) !in bound && BindDb(bound, want) == Merged(bound, Unchanged)
    requires want.config.Some? ==>
      FlagValue(bound, CONFIG).Some? && (want.force ==> FlagValue(bound, CONFIG) == want.config)
    ensures NothingToDo(bound, JsonMerge(bound, want)) && BoundSettles(bound, want)
  {
    NothingToDoIff(bound, want);
    if want.config.Some? {
      ConfigSlotWithDbIsNotTheConfig(bound, want);
    }
  }

  lemma ConfiguredArgs(bound: View, outcome: Registration, want: Desired)
    requires !outcome.PointsElsewhere?
    ensures JsonConfigure(Merged(bound, outcome), want).args ==
      if want.config.None? then bound
      else if FlagValue(bound, CONFIG).None? then bound + [Some(CONFIG), want.config]
      else if want.force && FlagValue(bound, CONFIG) != want.config then SetFlag(bound, CONFIG, want.config.value)
      else bound
  {}

  lemma TwiceFromBound(bound: View, outcome: Registration, want: Desired, once: View)
    requires want.IsPlain() && Some(DEPRECATED) !in bound && !outcome.PointsElsewhere?
    requires BindDb(bound, want) == Merged(bound, Unchanged) && FlagAt(bound, DB) + 1 < |bound|
    requires want.force ==> FlagValue(bound, DB) == Some(want.db)
    requires once == JsonConfigure(Merged(bound, outcome), want).args
    ensures NothingToDo(once, JsonMerge(once, want)) <==> BoundSettles(bound, want)
  {
    ConfiguredArgs(bound, outcome, want);
    if want.config.Some? && FlagValue(bound, CONFIG).None? {
      TwiceAppended(bound, want);
    } else if want.config.Some? && want.force && FlagValue(bound, CONFIG) != want.config {
      TwiceForced(bound, want);
    } else {
      TwiceUntouched(bound, want);
    }
  }

  /** A second run of the JSON writer changes nothing, and says so, exactly when
      the argv settles. */
  lemma JsonMergeTwiceIff(args: View, want: Desired)
    requires want.IsPlain()
    ensures var once := JsonMerge(args, want).args;
      NothingToDo(once, JsonMerge(once, want)) <==> JsonSettles(args, want)
  {
    var bound := BindDb(Prune(args), want);
    PruneRemovesAll(args);
    BindDbStaysPruned(Prune(args), want);
    if bound.outcome.PointsElsewhere? {
      NothingToDoIff(Prune(args), want);
    } else {
      BindDbAgain(Prune(args), want);
      TwiceFromBound(bound.args, if Prune(args) != args then Noted(bound.outcome) else bound.outcome, want,
                     JsonMerge(args, want).args);
    }
  }

  lemma ConfigSlotWithDbIsNotTheConfig(bound: View, want: Desired)
    requires want.IsPlain() && want.config.Some?
    ensures ConfigSlotHoldsDb(bound, want) ==>
      FlagValue(bound, CONFIG) == Some(DB) && FlagValue(bound, CONFIG) != want.config && !ConfigLacksText(bound)
  {}

  /** Where it does not refuse, the Codex writer treats `--config` as the JSON
      writer does. */
  lemma TomlMergeIsJsonConfigure(args: View, want: Desired)
    ensures TomlMerge(args, want) ==
      if TomlRefuses(args, want) then Err(ConfigWithoutPath)
      else Ok(JsonConfigure(BindDb(args, want), want))
  {}

  predicate TomlNothingToDo(args: View, want: Desired) {
    TomlMerge(args, want).Ok? && NothingToDo(args, TomlMerge(args, want).value)
  }

  lemma TomlNothingToDoIff(args: View, want: Desired)
    ensures TomlNothingToDo(args, want) <==>
      || BindDb(args, want).outcome.PointsElsewhere?
      || (BindDb(args, want) == Merged(args, Unchanged) && !TomlRefuses(args, want) &&
          JsonConfigure(Merged(args, Unchanged), want) == Merged(args, Unchanged))
  {
    TomlMergeIsJsonConfigure(args, want);
  }

  lemma TextIsNotRefused(args: View, want: Desired)
    requires BindDb(args, want) == Merged(args, Unchanged)
    requires FlagValue(args, CONFIG).Some?
    ensures !TomlRefuses(args, want)
  {}

  /** The same for the Codex writer, among the argvs it does not refuse. */
  lemma TomlMergeTwiceIff(args: View, want: Desired)
    requires want.IsPlain()
    ensures TomlMerge(args, want).Err? <==> TomlRefuses(args, want)
    ensures TomlMerge(args, want).Ok? ==>
      (TomlNothingToDo(TomlMerge(args, want).value.args, want) <==> TomlSettles(args, want))
  {
    var bound := Bound(args, want);
    TomlMergeIsJsonConfigure(args, want);
    if TomlMerge(args, want).Ok? && !BindDb(args, want).outcome.PointsElsewhere? {
      var once := TomlMerge(args, want).value.args;
      TomlNothingToDoIff(once, want);
      BindDbAgain(args, want);
      if want.config.Some? {
        ConfigSlotWithDbIsNotTheConfig(bound, want);
        if FlagValue(bound, CONFIG).None? {
          AppendKeepsDb(bound, [Some(CONFIG), want.config], want);
          AppendedConfigAgain(bound, want);
          AppendedPairLookup(bound, CONFIG, want.config);
          TextIsNotRefused(once, want);
        } else if want.force && FlagValue(bound, CONFIG) != want.config {
          TomlForcedConfigAgain(bound, want);
        } else {
          TextIsNotRefused(once, want);
        }
      }
    }
  }

  lemma TomlForcedConfigAgain(bound: View, want: Desired)
    requires want.IsPlain() && want.config.Some? && want.force
    requires FlagValue(bound, DB) == Some(want.db)
    requires FlagValue(bound, CONFIG).Some?
    ensures TomlNothingToDo(SetFlag(bound, CONFIG, want.config.value), want) <==> !ConfigSlotHoldsDb(bound, want)
  {
    var once := SetFlag(bound, CONFIG, want.config.value);
    ForcedConfig(bound, want);
    SettledDbIsKept(once, want);
    TomlNothingToDoIff(once, want);
    if BindDb(once, want) == Merged(once, Unchanged) {
      TextIsNotRefused(once, want);
      ConfigureIsQuiet(once, want);
    }
  }

  // ----- Well-formed argument vectors -----------------------------------------

  predicate IsFlag(arg: Option<string>) {
    arg == Some(DB) || arg == Some(CONFIG)
  }

  /** Every `--db` and `--config` is followed by a string that is neither. */
  predicate IsWellFormed(args: View) {
    forall i :: 0 <= i < |args| && IsFlag(args[i]) ==>
      i + 1 < |args| && args[i + 1].Some? && !IsFlag(args[i + 1])
  }

  lemma BindDbStaysWellFormed(args: View, want: Desired)
    requires want.IsPlain() && IsWellFormed(args)
    ensures IsWellFormed(Bound(args, want))
  {
    FlagsDiffer();
  }

  lemma WellFormedSettles(args: View, want: Desired)
    requires want.IsPlain() && IsWellFormed(Prune(args))
    ensures JsonSettles(args, want)
  {
    BindDbStaysWellFormed(Prune(args), want);
  }

  /** After a forced merge of a well-formed argv, both lookups give what was
      wanted, and a second merge changes nothing. */
  lemma ForcedMergeBinds(args: View, want: Desired)
    requires want.IsPlain() && IsWellFormed(Prune(args)) && want.force
    ensures FlagValue(JsonMerge(args, want).args, DB) == Some(want.db)
    ensures want.config.Some? ==> FlagValue(JsonMerge(args, want).args, CONFIG) == want.config
    ensures NothingToDo(JsonMerge(args, want).args, JsonMerge(JsonMerge(args, want).args, want))
  {
    WellFormedSettles(args, want);
    JsonMergeTwiceIff(args, want);
    BindDbStaysWellFormed(Prune(args), want);
    BindDbAgain(Prune(args), want);
    var bound := Bound(Prune(args), want);
    if want.config.Some? {
      if FlagValue(bound, CONFIG).None? {
        AppendKeepsFlag(bound, [Some(CONFIG), want.config], DB);
        AppendPairIsFound(bound, CONFIG, want.config);
      } else if FlagValue(bound, CONFIG) != want.config {
        ForcedConfig(bound, want);
      }
    }
  }

  // ----- The writers agree ----------------------------------------------------

  /** On an argv without deprecated flags the two writers give the same argv and
      the same outcome exactly when the Codex writer does not refuse. */
  lemma WritersAgreeIff(args: View, want: Desired)
    requires Some(DEPRECATED) !in args
    ensures TomlMerge(args, want) == Ok(JsonMerge(args, want)) <==> !TomlRefuses(args, want)
  {
    PruneWithout(args);
  }

  /** In particular on every well-formed argv. */
  lemma WellFormedWritersAgree(args: View, want: Desired)
    requires want.IsPlain() && IsWellFormed(args) && Some(DEPRECATED) !in args
    ensures TomlMerge(args, want) == Ok(JsonMerge(args, want))
  {
    BindDbStaysWellFormed(args, want);
    WritersAgreeIff(args, want);
  }

  // ----- Nothing of the user's is lost ----------------------------------------

  /** `after` keeps every argument of `before` in place, except value slots behind
      a `--db` or `--config` when forced, and only adds wanted text at the end. */
  predicate Keeps(before: View, after: View, want: Desired) {
    && |before| <= |after| <= |before| + 4
    && (forall k :: 0 <= k < |before| && after[k] != before[k] ==>
          want.force && 0 < k && IsFlag(before[k - 1]) && IsWanted(after[k], want))
    && (forall k :: |before| <= k < |after| ==> IsFlag(after[k]) || IsWanted(after[k], want))
  }

  predicate IsWanted(arg: Option<string>, want: Desired) {
    arg == Some(want.db) || (arg.Some? && arg == want.config)
  }

  lemma BindDbKeeps(args: View, want: Desired)
    ensures Keeps(args, Bound(args, want), want)
    ensures |Bound(args, want)| <= |args| + 2
  {}

  lemma ForcedConfigKeeps(before: View, want: Desired)
    requires want.IsPlain() && want.force && want.config.Some?
    requires FlagValue(Bound(before, want), CONFIG).Some?
    ensures Keeps(before, SetFlag(Bound(before, want), CONFIG, want.config.value), want)
  {
    FlagsDiffer();
    BindDbKeeps(before, want);
    var bound := Bound(before, want);
    var i := FlagAt(bound, CONFIG);
    assert i < |before| ==> before[i] == Some(CONFIG);
  }

  lemma ConfigureKeeps(before: View, outcome: Registration, want: Desired)
    requires want.IsPlain()
    ensures Keeps(before, JsonConfigure(Merged(Bound(before, want), outcome), want).args, want)
  {
    BindDbKeeps(before, want);
    if want.config.Some? && want.force && FlagValue(Bound(before, want), CONFIG).Some? {
      ForcedConfigKeeps(before, want);
    }
  }

  lemma BindDbOutcome(args: View, want: Desired)
    ensures BindDb(args, want).outcome.PointsElsewhere? <==> !want.force && !Names(args, want.db, want.resolve)
    ensures BindDb(args, want).outcome.Rebound? <==> want.force && FlagValue(args, DB) != Some(want.db)
    ensures BindDb(args, want).outcome.Unchanged? || BindDb(args, want).outcome.PointsElsewhere? ==>
      BindDb(args, want).args == args
    ensures !BindDb(args, want).outcome.Reconciled? && !BindDb(args, want).outcome.Added?
    ensures Reports(BindDb(args, want).outcome, args)
  {}

  /** The database reported as replaced or kept is the text that stood after `--db`. */
  predicate Reports(outcome: Registration, args: View) {
    var named := FlagValue(args, DB);
    var shown := if named.Some? then named.value else "(none — the server's default)";
    match outcome
    case Rebound(previous) => previous == shown
    case PointsElsewhere(existing) => existing == shown
    case _ => true
  }

  lemma ConfigureOutcome(bound: Merged, want: Desired)
    requires !bound.outcome.Added?
    ensures var merged := JsonConfigure(bound, want);
      && (merged.outcome == bound.outcome || (bound.outcome.Unchanged? && merged.outcome.Reconciled?))
      && (merged.outcome.Unchanged? || merged.outcome.PointsElsewhere? ==> merged == bound)
      && (merged.outcome != bound.outcome ==> merged.args != bound.args)
  {
    if want.config.Some? {
      SetFlagIsFound(bound.args, CONFIG, want.config.value);
    }
  }

  /** What `JsonConfigure` starts from. */
  function BoundAndNoted(args: View, want: Desired): Merged {
    var bound := BindDb(Prune(args), want);
    Merged(bound.args, if Prune(args) != args then Noted(bound.outcome) else bound.outcome)
  }

  lemma JsonMergeIsConfigure(args: View, want: Desired)
    ensures JsonMerge(args, want) == JsonConfigure(BoundAndNoted(args, want), want)
  {}

  /** The JSON writer drops deprecated flags and otherwise keeps what was there; an
      entry that points elsewhere is only pruned. */
  lemma JsonMergeKeeps(args: View, want: Desired)
    requires want.IsPlain()
    ensures Keeps(Prune(args), JsonMerge(args, want).args, want)
    ensures JsonMerge(args, want).outcome.PointsElsewhere? ==> JsonMerge(args, want).args == Prune(args)
    ensures JsonMerge(args, want).outcome.Unchanged? ==> JsonMerge(args, want).args == args
  {
    JsonMergeIsConfigure(args, want);
    ConfigureKeeps(Prune(args), BoundAndNoted(args, want).outcome, want);
    BindDbOutcome(Prune(args), want);
    ConfigureOutcome(BoundAndNoted(args, want), want);
  }

  /** The outcome tells what happened: an entry points elsewhere exactly when it names
      another database and is not forced, is rebound exactly when forced from another
      text, and otherwise is unchanged exactly when the argv is. */
  lemma OutcomeIsTruthful(args: View, want: Desired)
    requires want.IsPlain()
    ensures JsonMerge(args, want).outcome.PointsElsewhere? <==>
      && !want.force
      && match FlagValue(Prune(args), DB)
         case None => true
         case Some(text) => text != want.db && want.resolve(text) != want.resolve(want.db)
    ensures JsonMerge(args, want).outcome.Rebound? <==> want.force && FlagValue(Prune(args), DB) != Some(want.db)
    ensures JsonMerge(args, want).outcome.Unchanged? || JsonMerge(args, want).outcome.Reconciled? ==>
      (JsonMerge(args, want).outcome.Unchanged? <==> JsonMerge(args, want).args == args)
    ensures Reports(JsonMerge(args, want).outcome, Prune(args))
  {
    JsonMergeIsConfigure(args, want);
    BindDbOutcome(Prune(args), want);
    ConfigureOutcome(BoundAndNoted(args, want), want);
    if Prune(args) != args {
      PruneRemovesAll(args);
      JsonMergeStaysPruned(args, want);
    }
  }

  lemma TomlMergeKeeps(args: View, want: Desired)
    requires want.IsPlain()
    requires TomlMerge(args, want).Ok?
    ensures Keeps(args, TomlMerge(args, want).value.args, want)
    ensures var outcome := TomlMerge(args, want).value.outcome;
      outcome.PointsElsewhere? || outcome.Unchanged? ==> TomlMerge(args, want).value.args == args
  {
    TomlMergeIsJsonConfigure(args, want);
    ConfigureKeeps(args, BindDb(args, want).outcome, want);
  }

  /** Only strings are ever written. */
  lemma KeepsNonText(before: View, after: View, want: Desired)
    requires Keeps(before, after, want)
    ensures forall k :: 0 <= k < |after| && after[k].None? ==> k < |before| && before[k].None?
  {}

  // ----- The database that hooks are bound to ---------------------------------

  /** `effective_db`: the database the registration is taken to use after the merge. */
  function EffectiveDb(outcome: Registration, requested: string): string {
    if outcome.PointsElsewhere? && outcome.existingDb != NO_DB_ARG then outcome.existingDb else requested
  }

  /** Forcing `--config` overwrites the `--db` flag, and no later pair names the wanted
      database. */
  predicate ErasesDb(bound: View, want: Desired) {
    var i := FlagAt(bound, CONFIG);
    && want.config.Some? && i + 1 < |bound| && FlagAt(bound, DB) == i + 1
    && !Names(bound[i + 2..], want.db, want.resolve)
  }

  lemma ForcedNames(bound: View, want: Desired)
    requires want.IsPlain() && want.config.Some?
    requires FlagValue(bound, DB) == Some(want.db) && FlagValue(bound, CONFIG).Some?
    ensures Names(SetFlag(bound, CONFIG, want.config.value), want.db, want.resolve) <==> !ErasesDb(bound, want)
  {
    FlagsDiffer();
    if FlagAt(bound, DB) == FlagAt(bound, CONFIG) + 1 {
      OverwrittenFlag(bound, CONFIG, DB, want.config.value);
    } else {
      OtherFlagSurvives(bound, CONFIG, DB, want.config.value);
    }
  }

  lemma ConfigureNames(bound: View, outcome: Registration, want: Desired)
    requires want.IsPlain() && !outcome.PointsElsewhere? && Names(bound, want.db, want.resolve)
    requires want.force ==> FlagValue(bound, DB) == Some(want.db)
    ensures Names(JsonConfigure(Merged(bound, outcome), want).args, want.db, want.resolve) <==>
      !(want.force && ErasesDb(bound, want))
  {
    ConfiguredArgs(bound, outcome, want);
    if want.config.Some? {
      if FlagValue(bound, CONFIG).None? {
        AppendKeepsFlag(bound, [Some(CONFIG), want.config], DB);
      } else if want.force && FlagValue(bound, CONFIG) != want.config {
        ForcedNames(bound, want);
      }
    }
  }

  /** An entry left pointing elsewhere names that place, if it names any. */
  lemma ElsewhereNamesIff(args: View, want: Desired)
    requires want.IsPlain() && BindDb(Prune(args), want).outcome.PointsElsewhere?
    ensures var merged, existing := JsonMerge(args, want), FlagValue(Prune(args), DB);
      && merged.args == Prune(args)
      && (Names(merged.args, EffectiveDb(merged.outcome, want.db), want.resolve) <==>
            existing !in {None, Some(NO_DB_ARG)})
  {
    ElsewhereIsExisting(Prune(args), want);
    JsonMergeIsConfigure(args, want);
    ConfigureOutcome(BoundAndNoted(args, want), want);
  }

  lemma ElsewhereIsExisting(args: View, want: Desired)
    requires BindDb(args, want).outcome.PointsElsewhere?
    ensures BindDb(args, want).args == args && !Names(args, want.db, want.resolve)
    ensures BindDb(args, want).outcome.existingDb ==
      if FlagValue(args, DB).Some? then FlagValue(args, DB).value else NO_DB_ARG
  {}

  /** The merge is forced and does not overwrite its own `--db`, or the argv has a `--db`
      string. */
  predicate EndsUpNaming(args: View, want: Desired) {
    var pruned := Prune(args);
    if want.force then !ErasesDb(Bound(pruned, want), want)
    else Names(pruned, want.db, want.resolve) || FlagValue(pruned, DB) !in {None, Some(NO_DB_ARG)}
  }

  /** Then, and only then, the merged argv names the database hooks are bound to. */
  lemma EffectiveDbIsNamedIff(args: View, want: Desired)
    requires want.IsPlain()
    ensures var merged := JsonMerge(args, want);
      Names(merged.args, EffectiveDb(merged.outcome, want.db), want.resolve) <==> EndsUpNaming(args, want)
  {
    var pruned := Prune(args);
    BindDbOutcome(pruned, want);
    if BindDb(pruned, want).outcome.PointsElsewhere? {
      JsonMergeKeeps(args, want);
      OutcomeIsTruthful(args, want);
      ElsewhereNamesIff(args, want);
    } else {
      JsonMergeIsConfigure(args, want);
      ConfigureOutcome(BoundAndNoted(args, want), want);
      BindDbAgain(pruned, want);
      ConfigureNames(Bound(pruned, want), BoundAndNoted(args, want).outcome, want);
    }
  }

  /** Without `--db` and without force the hooks are bound to the requested database,
      which the registration does not name. */
  lemma HooksAndServerDisagree(want: Desired)
    requires !want.force
    ensures var merged := JsonMerge([], want);
      EffectiveDb(merged.outcome, want.db) == want.db && !Names(merged.args, want.db, want.resolve)
  {}

  // ----- Where the second run is not quiet ------------------------------------

  lemma SlotHoldsDb(want: Desired)
    requires want.IsPlain() && want.config.Some?
    ensures var args := [Some(CONFIG), Some(DB), Some(want.db)];
      && Some(DEPRECATED) !in args && FlagAt(args, CONFIG) == 0 && FlagAt(args, DB) == 1
      && FlagValue(args, CONFIG) == Some(DB) && FlagValue(args, DB) == Some(want.db)
  {
    FlagsDiffer();
    var args := [Some(CONFIG), Some(DB), Some(want.db)];
    FlagAtUnique(args, CONFIG, 0);
    FlagAtUnique(args, DB, 1);
  }

  lemma ErasedDb(want: Desired)
    requires want.IsPlain() && want.config.Some? && want.force
    ensures var once := [Some(CONFIG), want.config, Some(want.db)];
      BindDb(once, want).outcome == Rebound(NO_DB_ARG) && Some(DEPRECATED) !in once
  {
    FlagsDiffer();
    assert Some(DB) !in [Some(CONFIG), want.config, Some(want.db)];
  }

  lemma ErasureDoesNotSettle(want: Desired)
    requires want.IsPlain() && want.config.Some? && want.force
    ensures !JsonSettles([Some(CONFIG), Some(DB), Some(want.db)], want)
  {
    var args := [Some(CONFIG), Some(DB), Some(want.db)];
    SlotHoldsDb(want);
    PruneWithout(args);
    assert args[2..] == [Some(want.db)] && FlagValue(args[2..], DB) == None;
  }

  /** Forced where the value slot of `--config` holds `--db`: the flag is lost, and the
      next run reports an entry without a database. */
  lemma ForcedConfigErasesDb(want: Desired)
    requires want.IsPlain() && want.config.Some? && want.force
    ensures var args := [Some(CONFIG), Some(DB), Some(want.db)];
      var once := JsonMerge(args, want);
      && !JsonSettles(args, want)
      && once == Merged([Some(CONFIG), want.config, Some(want.db)], Reconciled)
      && JsonMerge(once.args, want).outcome == Rebound(NO_DB_ARG)
  {
    var args, once := [Some(CONFIG), Some(DB), Some(want.db)], [Some(CONFIG), want.config, Some(want.db)];
    ErasureDoesNotSettle(want);
    SlotHoldsDb(want);
    JsonMergeOfPruned(args, want);
    assert SetFlag(args, CONFIG, want.config.value) == once;
    ErasedDb(want);
    JsonMergeOfPruned(once, want);
    ConfigureOutcome(BindDb(once, want), want);
  }

  lemma ConfigSlotIsNoText(args: View, want: Desired)
    requires |args| >= 4 && args[..4] == [Some(DB), Some(want.db), Some(CONFIG), None] && want.IsPlain()
    ensures FlagValue(args, DB) == Some(want.db) && FlagValue(args, CONFIG) == None && FlagAt(args, CONFIG) == 2
  {
    FlagsDiffer();
    assert args[0] == args[..4][0] && args[1] == args[..4][1] && args[2] == args[..4][2] && args[3] == args[..4][3];
    FlagAtUnique(args, DB, 0);
    FlagAtUnique(args, CONFIG, 2);
  }

  lemma ConfigIsAppended(args: View, want: Desired)
    requires want.IsPlain() && want.config.Some? && Some(DEPRECATED) !in args
    requires FlagValue(args, DB) == Some(want.db) && FlagValue(args, CONFIG) == None
    ensures BindDb(Prune(args), want) == Merged(args, Unchanged)
    ensures JsonMerge(args, want).args == args + [Some(CONFIG), want.config]
  {
    PruneWithout(args);
  }

  /** A `--config` followed by a non-string: each run appends another pair. */
  lemma NonTextConfigGrows(want: Desired)
    requires want.IsPlain() && want.config.Some?
    ensures var args := [Some(DB), Some(want.db), Some(CONFIG), None];
      var once := JsonMerge(args, want).args;
      && !JsonSettles(args, want)
      && once == args + [Some(CONFIG), want.config]
      && JsonMerge(once, want).args == once + [Some(CONFIG), want.config]
  {
    FlagsDiffer();
    var args := [Some(DB), Some(want.db), Some(CONFIG), None];
    ConfigSlotIsNoText(args, want);
    ConfigIsAppended(args, want);
    var once := args + [Some(CONFIG), want.config];
    ConfigSlotIsNoText(once, want);
    ConfigIsAppended(once, want);
  }
}
