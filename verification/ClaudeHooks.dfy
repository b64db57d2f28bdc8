/** Which hooks are NestWeaver's own, and what the generated commands mean to the
    shell (`src/setup.rs`, `is_nestweaver_hook` and the command builders). */
module ClaudeHooks {
  import opened Base
  import opened Sequences
  import opened Json
  import opened ShellWord
  import opened HookGroups

  const SESSION_WORDS := ["nestweaver", "brain", "status", "--db"]

  /** Each word followed by one space. */
  function Spaced(words: seq<string>): string {
    if words == [] then "" else words[0] + " " + Spaced(words[1..])
  }

  /** "nestweaver brain status --db " */
  const SESSION_PREFIX := Spaced(SESSION_WORDS)
  const SESSION_SUFFIX :=
    " " + "2>/dev/null || echo 'NestWeaver: not indexed yet (run: nestweaver index --repo .)'"

  function SessionStartCommand(db: string): string {
    SESSION_PREFIX + ShellQuote(db) + SESSION_SUFFIX
  }

  /** The PreToolUse command of this release and of the two before it. Their text
      is fixed by setup; all that matters about it here is the first character. */
  datatype PreToolTexts = PreToolTexts(current: string, previous: string, legacy: string)
  {
    predicate Valid() {
      && StartsWith(current, "command -v jq ")
      && StartsWith(previous, "INPUT=$(cat); ")
      && StartsWith(legacy, "INPUT=$(cat); ")
    }
  }

  predicate IsSessionShape(command: string) {
    StartsWith(command, SESSION_PREFIX) && EndsWith(command[|SESSION_PREFIX|..], SESSION_SUFFIX)
  }

  predicate IsOurCommand(command: string, texts: PreToolTexts) {
    if IsSessionShape(command) then
      IsOneShellWord(command[|SESSION_PREFIX|..|command| - |SESSION_SUFFIX|])
    else
      command == texts.current || command == texts.previous || command == texts.legacy
  }

  predicate IsNestWeaverHook(hook: Value, texts: PreToolTexts) {
    match hook.GetText("command")
    case Some(command) => IsOurCommand(command, texts)
    case None => false
  }

  function Recogniser(texts: PreToolTexts): Value -> bool {
    (hook: Value) => IsNestWeaverHook(hook, texts)
  }

  function CommandHook(command: string): Value {
    Object(map["type" := String("command"), "command" := String(command)])
  }

  function HooksFor(db: string, texts: PreToolTexts): Generated {
    Generated(CommandHook(SessionStartCommand(db)), CommandHook(texts.current))
  }

  // ----- Exactly which hooks are ours -----------------------------------------

  /** The command that releases before the quoting fix wrote, for any path. */
  function UnquotedSessionStart(path: string): string {
    SESSION_PREFIX + path + SESSION_SUFFIX
  }

  /** A path whose unquoted form was one shell word. */
  predicate IsBarePath(path: string) {
    path != "" && forall i :: 0 <= i < |path| ==> IsBare(path[i])
  }

  lemma StripPrefixAndSuffix(prefix: string, word: string, suffix: string)
    ensures var text := prefix + word + suffix;
      && StartsWith(text, prefix)
      && EndsWith(text[|prefix|..], suffix)
      && text[|prefix|..|text| - |suffix|] == word
  {
    assert (prefix + word + suffix)[|prefix|..] == word + suffix;
  }

  lemma PutBackPrefixAndSuffix(text: string, prefix: string, suffix: string)
    requires StartsWith(text, prefix) && EndsWith(text[|prefix|..], suffix)
    ensures text == prefix + text[|prefix|..|text| - |suffix|] + suffix
  {
    var rest := text[|prefix|..];
    assert rest == rest[..|rest| - |suffix|] + suffix;
    assert rest[..|rest| - |suffix|] == text[|prefix|..|text| - |suffix|];
  }

  lemma PreToolIsNotSessionShape(texts: PreToolTexts)
    requires texts.Valid()
    ensures !IsSessionShape(texts.current) && !IsSessionShape(texts.previous) && !IsSessionShape(texts.legacy)
  {
    assert SESSION_PREFIX[0] == 'n';
    assert texts.current[0] == "command -v jq "[0];
    assert texts.previous[0] == texts.legacy[0] == "INPUT=$(cat); "[0];
  }

  /** Some release of setup writes or wrote the command, whatever the path. */
  ghost predicate WasWrittenBySetup(command: string, texts: PreToolTexts) {
    || (exists db :: command == SessionStartCommand(db))
    || (exists path :: command == UnquotedSessionStart(path))
    || command == texts.current || command == texts.previous || command == texts.legacy
  }

  /** The form of the word decides: an unquoted command is recognised if and only if its
      path is a bare word, or happens to be some database's quoted form. */
  lemma UnquotedIsOursIff(path: string, texts: PreToolTexts)
    ensures IsOurCommand(UnquotedSessionStart(path), texts) <==>
      IsBarePath(path) || exists db :: path == ShellQuote(db)
  {
    StripPrefixAndSuffix(SESSION_PREFIX, path, SESSION_SUFFIX);
    if StartsWith(path, "'") {
      QuotedBranchIsExact(path);
      assert !IsBare('\'') && path[0] == '\'';
    }
  }

  /** An old command that is not recognised, so that a re-run leaves it beside the new
      one: its path split into several words. */
  predicate IsBrokenPath(path: string) {
    !IsBarePath(path) && !(StartsWith(path, "'") && IsOneShellWord(path))
  }

  lemma BrokenPathIff(path: string)
    ensures IsBrokenPath(path) <==> !IsBarePath(path) && !exists db :: path == ShellQuote(db)
  {
    if StartsWith(path, "'") {
      QuotedBranchIsExact(path);
    }
  }

  lemma SessionShapeIsUnquoted(command: string)
    requires IsSessionShape(command)
    ensures command == UnquotedSessionStart(command[|SESSION_PREFIX|..|command| - |SESSION_SUFFIX|])
  {
    PutBackPrefixAndSuffix(command, SESSION_PREFIX, SESSION_SUFFIX);
  }

  lemma OurCommandsWereWritten(command: string, texts: PreToolTexts)
    requires IsOurCommand(command, texts)
    ensures WasWrittenBySetup(command, texts)
  {
    if IsSessionShape(command) {
      SessionShapeIsUnquoted(command);
    }
  }

  ghost predicate IsBrokenCommand(command: string) {
    exists path :: command == UnquotedSessionStart(path) && IsBrokenPath(path)
  }

  lemma BrokenIsNotOurs(command: string, texts: PreToolTexts)
    requires IsBrokenCommand(command)
    ensures !IsOurCommand(command, texts)
  {
    var path :| command == UnquotedSessionStart(path) && IsBrokenPath(path);
    BrokenPathIff(path);
    UnquotedIsOursIff(path, texts);
  }

  /** A hook is taken for ours if and only if its command is such a command. */
  lemma OurHooksExactly(hook: Value, texts: PreToolTexts)
    requires texts.Valid()
    ensures IsNestWeaverHook(hook, texts) <==>
      && hook.Object? && "command" in hook.fields && hook.fields["command"].String?
      && WasWrittenBySetup(hook.fields["command"].text, texts) && !IsBrokenCommand(hook.fields["command"].text)
  {
    if hook.GetText("command").Some? {
      OurCommandsExactly(hook.fields["command"].text, texts);
    }
  }

  /** A command is taken for ours if and only if some release of setup wrote it and its
      path, if unquoted, was one shell word. */
  lemma OurCommandsExactly(command: string, texts: PreToolTexts)
    requires texts.Valid()
    ensures IsOurCommand(command, texts) <==> WasWrittenBySetup(command, texts) && !IsBrokenCommand(command)
  {
    if IsOurCommand(command, texts) {
      OurCommandsWereWritten(command, texts);
    }
    if IsBrokenCommand(command) {
      BrokenIsNotOurs(command, texts);
    } else if db :| command == SessionStartCommand(db) {
      SessionStartIsOurs(db, texts);
    } else if path :| command == UnquotedSessionStart(path) {
      BrokenPathIff(path);
      UnquotedIsOursIff(path, texts);
    } else {
      PreToolIsNotSessionShape(texts);
    }
  }

  /** A path with a space is such a path: the old command for it is not recognised. */
  lemma SpacedPathIsNotOurs(before: string, after: string, texts: PreToolTexts)
    requires !StartsWith(before + " " + after, "'")
    ensures !IsOurCommand(UnquotedSessionStart(before + " " + after), texts)
  {
    var path := before + " " + after;
    assert path[|before|] == ' ' && !IsBare(path[|before|]);
    UnquotedIsOursIff(path, texts);
  }

  lemma SessionStartIsOurs(db: string, texts: PreToolTexts)
    ensures IsOurCommand(SessionStartCommand(db), texts)
    ensures IsNestWeaverHook(CommandHook(SessionStartCommand(db)), texts)
  {
    StripPrefixAndSuffix(SESSION_PREFIX, ShellQuote(db), SESSION_SUFFIX);
    QuotedBranchIsExact(ShellQuote(db));
  }

  lemma PreToolIsOurs(texts: PreToolTexts)
    requires texts.Valid()
    ensures IsNestWeaverHook(CommandHook(texts.current), texts)
  {
    PreToolIsNotSessionShape(texts);
  }

  // ----- What the shell runs --------------------------------------------------

  function AsWords(words: seq<string>): seq<Token> {
    seq(|words|, i requires 0 <= i < |words| => Word(words[i]))
  }

  predicate IsBareWord(word: string) {
    word != "" && word[0] != '#' && forall i :: 0 <= i < |word| ==> IsBare(word[i])
  }

  lemma BareWordThenSpace(word: string, rest: string)
    requires IsBareWord(word)
    ensures Tokenise(word + " " + rest) == Emit([Word(word)], Tokenise(rest))
  {
    BareWordInContext(word, " " + rest);
    assert word + " " + rest == word + (" " + rest);
    assert (" " + rest)[1..] == rest;
  }

  lemma {:induction false} SpacedWords(words: seq<string>, rest: string)
    requires forall i :: 0 <= i < |words| ==> IsBareWord(words[i])
    ensures Tokenise(Spaced(words) + rest) == Emit(AsWords(words), Tokenise(rest))
    decreases |words|
  {
    if words == [] {
      assert Spaced(words) + rest == rest;
      assert AsWords(words) == [];
    } else {
      var tail := Spaced(words[1..]) + rest;
      assert Spaced(words) + rest == words[0] + " " + tail;
      BareWordThenSpace(words[0], tail);
      SpacedWords(words[1..], rest);
      assert [Word(words[0])] + AsWords(words[1..]) == AsWords(words);
    }
  }

  lemma SessionWordsAreBare()
    ensures forall i :: 0 <= i < |SESSION_WORDS| ==> IsBareWord(SESSION_WORDS[i])
  {}

  lemma QuotedThenSpace(value: string, rest: string)
    requires rest != "" && rest[0] == ' '
    ensures Tokenise(ShellQuote(value) + rest) == Emit([Word(value)], Tokenise(rest))
  {
    QuotedTextInContext(value, rest, Between);
    assert "" + value == value;
    assert Emit([], Read(rest[1..], Between)) == Read(rest[1..], Between);
  }

  lemma EmitTwice(a: seq<Token>, b: seq<Token>, rest: Reading)
    ensures Emit(a, Emit(b, rest)) == Emit(a + b, rest)
  {
    if rest.Tokens? {
      assert a + (b + rest.tokens) == a + b + rest.tokens;
    }
  }

  lemma QuotedArgument(words: seq<string>, value: string, rest: string)
    requires forall i :: 0 <= i < |words| ==> IsBareWord(words[i])
    requires rest != "" && rest[0] == ' '
    ensures Tokenise(Spaced(words) + ShellQuote(value) + rest) == Emit(AsWords(words + [value]), Tokenise(rest))
  {
    var tail := ShellQuote(value) + rest;
    Assoc(Spaced(words), ShellQuote(value), rest);
    SpacedWords(words, tail);
    QuotedThenSpace(value, rest);
    EmitTwice(AsWords(words), [Word(value)], Tokenise(rest));
    OneMoreWord(words, value);
  }

  lemma OneMoreWord(words: seq<string>, word: string)
    ensures AsWords(words) + [Word(word)] == AsWords(words + [word])
  {}

  /** Whatever the path holds, the shell sees the same five words, the path being
      the fifth, and then the fixed tail of the command. */
  lemma SessionStartRunsOneArgument(db: string)
    ensures Tokenise(SessionStartCommand(db)) ==
      Emit(AsWords(["nestweaver", "brain", "status", "--db", db]), Tokenise(SESSION_SUFFIX))
  {
    SessionWordsAreBare();
    QuotedArgument(SESSION_WORDS, db, SESSION_SUFFIX);
    assert SESSION_WORDS + [db] == ["nestweaver", "brain", "status", "--db", db];
  }

  // ----- The installer on its own output --------------------------------------

  lemma GeneratedHooksAreOurs(db: string, texts: PreToolTexts)
    requires texts.Valid()
    ensures HooksFor(db, texts).AllOurs(Recogniser(texts))
  {
    SessionStartIsOurs(db, texts);
    PreToolIsOurs(texts);
  }

  /** Installing for `db1` and then for `db2` is installing for `db2`; in
      particular a repeat with the same database changes nothing. */
  lemma InstallLastWriterWins(root: map<string, Value>, db1: string, db2: string, texts: PreToolTexts)
    requires texts.Valid()
    requires Install(root, HooksFor(db1, texts), Recogniser(texts)).Ok?
    ensures var once, ours := Install(root, HooksFor(db1, texts), Recogniser(texts)).value, Recogniser(texts);
      && Install(once, HooksFor(db2, texts), ours) == Install(root, HooksFor(db2, texts), ours)
      && Install(once, HooksFor(db1, texts), ours) == Ok(once)
  {
    GeneratedHooksAreOurs(db1, texts);
    InstallOverwrites(root, HooksFor(db1, texts), HooksFor(db2, texts), Recogniser(texts));
    InstallOverwrites(root, HooksFor(db1, texts), HooksFor(db1, texts), Recogniser(texts));
  }

  /** After an installation each of the two events holds exactly one hook of ours,
      the last one, and the hooks before it are the user's. */
  lemma InstallLeavesOneOfOurs(root: map<string, Value>, db: string, texts: PreToolTexts, event: string)
    requires texts.Valid()
    requires event in {SESSION_START, PRE_TOOL_USE}
    requires Install(root, HooksFor(db, texts), Recogniser(texts)).Ok?
    ensures
      var before := Flatten(Groups(HooksOf(root).fields, event));
      var root' := Install(root, HooksFor(db, texts), Recogniser(texts)).value;
      HooksOf(root').Object? &&
      var after := Flatten(Groups(HooksOf(root').fields, event));
      && after != []
      && IsNestWeaverHook(after[|after| - 1], texts)
      && (forall i :: 0 <= i < |after| - 1 ==> !IsNestWeaverHook(after[i], texts))
      && (forall hook :: hook in before && !IsNestWeaverHook(hook, texts) ==> hook in after[..|after| - 1])
  {
    GeneratedHooksAreOurs(db, texts);
    InstallKeepsTheRest(root, HooksFor(db, texts), Recogniser(texts));
    OthersAreNotOurs(Flatten(Groups(HooksOf(root).fields, event)), Recogniser(texts));
    var root' := Install(root, HooksFor(db, texts), Recogniser(texts)).value;
    var after := Flatten(Groups(HooksOf(root').fields, event));
    var kept := Others(Flatten(Groups(HooksOf(root).fields, event)), Recogniser(texts));
    assert after[..|after| - 1] == kept;
    forall i | 0 <= i < |after| - 1
      ensures !IsNestWeaverHook(after[i], texts)
    {
      assert after[i] == kept[i] && kept[i] in kept;
      assert !Recogniser(texts)(kept[i]);
    }
  }

  /** What an installation for `db` leaves under each event: the groups that were kept,
      and last the group setup writes, with the literal keys and texts of the file. */
  lemma InstallWritesCommands(root: map<string, Value>, db: string, texts: PreToolTexts)
    requires Install(root, HooksFor(db, texts), Recogniser(texts)).Ok?
    ensures var root' := Install(root, HooksFor(db, texts), Recogniser(texts)).value;
      && "hooks" in root' && root'["hooks"].Object?
      && var hooks := root'["hooks"].fields;
      && EndsInGroup(hooks, "SessionStart", "",
           Spaced(["nestweaver", "brain", "status", "--db"]) + ShellQuote(db) +
           (" " + "2>/dev/null || echo 'NestWeaver: not indexed yet (run: nestweaver index --repo .)'"))
      && EndsInGroup(hooks, "PreToolUse", "Bash", texts.current)
  {
    EventNamesDiffer();
    var hooks := HooksOf(root).fields;
    var once := InstallEvent(hooks, SESSION_START, Group("", HooksFor(db, texts).start), Recogniser(texts)).value;
    var root' := Install(root, HooksFor(db, texts), Recogniser(texts)).value;
    assert root'["hooks"].fields[SESSION_START] == once[SESSION_START];
  }

  /** The last group of the event has this matcher and one hook, which runs the command. */
  predicate EndsInGroup(hooks: map<string, Value>, event: string, matcher: string, command: string) {
    && event in hooks && hooks[event].Array? && hooks[event].items != []
    && hooks[event].items[|hooks[event].items| - 1] == Object(map[
         "matcher" := String(matcher),
         "hooks" := Array([Object(map["type" := String("command"), "command" := String(command)])])])
  }
}
