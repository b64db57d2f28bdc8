/** The bounded handshake with a configured server (`src/setup_probe.rs`): the
    argument grammar that may be probed, and the paged tool catalogue. */
module SetupProbe {
  import opened Base
  import opened Sequences
  import Argv
  import Registration

  // ----- The argument grammar -------------------------------------------------

  const LITE := "--lite"
  const NO_TRACK := "--no-track-interactions"
  const DB := Argv.DB
  const CONFIG := Argv.CONFIG
  const TOOLS := "--tools"

  /** What a left-to-right reading assigns. */
  datatype Parsed = Parsed(lite: bool, noTrack: bool, values: map<string, string>)

  predicate IsValue(value: string) {
    value != "" && value[0] != '-'
  }

  predicate TakesValue(flag: string) {
    flag == DB || flag == CONFIG || flag == TOOLS
  }

  /** Flags from position `at` on, none of them in `seen`. */
  function ParseFrom(args: seq<string>, at: nat, seen: set<string>, parsed: Parsed, isFile: string -> bool)
    : Option<Parsed>
    requires at <= |args|
    decreases |args| - at
  {
    if at == |args| then Some(parsed)
    else
      var flag := args[at];
      if flag in seen then None
      else if flag == LITE then ParseFrom(args, at + 1, seen + {flag}, parsed.(lite := true), isFile)
      else if flag == NO_TRACK then ParseFrom(args, at + 1, seen + {flag}, parsed.(noTrack := true), isFile)
      else if TakesValue(flag) && at + 1 < |args| && IsValue(args[at + 1])
              && (flag == CONFIG ==> isFile(args[at + 1])) then
        ParseFrom(args, at + 2, seen + {flag}, parsed.(values := parsed.values[flag := args[at + 1]]), isFile)
      else None
  }

  function Parse(args: seq<string>, isFile: string -> bool): Option<Parsed> {
    if args == [] || args[0] != "mcp" then None
    else
      match ParseFrom(args, 1, {}, Parsed(false, false, map[]), isFile)
      case Some(parsed) => if DB in parsed.values then Some(parsed) else None
      case None => None
  }

  /** What the probe asks the operating system: its own executable, the first
      `nestweaver` on the search path, and where a path really leads. */
  datatype Host = Host(
    current: Option<string>, onPath: Option<string>, canonical: string -> Option<string>, isFile: string -> bool)

  /** The command is the program that is running. */
  predicate RunsThisBinary(command: string, host: Host) {
    && host.current.Some?
    && if command == "nestweaver" then host.onPath.Some? && host.canonical(host.onPath.value) == host.current
       else StartsWith(command, "/") && host.canonical(command) == host.current
  }

  /** An invocation may be probed exactly when it adds nothing to the environment, runs
      this program, and its arguments are in the grammar. */
  method ValidateInvocation(command: string, args: seq<string>, env: seq<(string, string)>, host: Host)
    returns (accepted: bool)
    ensures accepted <==> env == [] && RunsThisBinary(command, host) && Parse(args, host.isFile).Some?
  {
    if env != [] || host.current.None? {
      return false;
    }
    var selected := if command == "nestweaver" then host.onPath else Some(command);
    if selected.None? || (command != "nestweaver" && !StartsWith(command, "/")) {
      return false;
    }
    if host.canonical(selected.value) != host.current {
      return false;
    }
    accepted := CheckArguments(args, host.isFile);
  }

  /** The scanning loop of `validate_invocation`. */
  method CheckArguments(args: seq<string>, isFile: string -> bool) returns (accepted: bool)
    ensures accepted <==> Parse(args, isFile).Some?
  {
    if args == [] || args[0] != "mcp" {
      return false;
    }
    var seen: set<string> := {};
    var at := 1;
    ghost var parsed := Parsed(false, false, map[]);
    while at < |args|
      invariant at <= |args|
      invariant ParseFrom(args, at, seen, parsed, isFile) == ParseFrom(args, 1, {}, Parsed(false, false, map[]), isFile)
      invariant DB in seen <==> DB in parsed.values
    {
      FlagNamesDiffer();
      var flag := args[at];
      if flag in seen {
        return false;
      }
      seen := seen + {flag};
      if flag == LITE {
        parsed := parsed.(lite := true);
        at := at + 1;
      } else if flag == NO_TRACK {
        parsed := parsed.(noTrack := true);
        at := at + 1;
      } else if TakesValue(flag) {
        if at + 1 == |args| || !IsValue(args[at + 1]) {
          return false;
        }
        if flag == CONFIG && !isFile(args[at + 1]) {
          return false;
        }
        parsed := parsed.(values := parsed.values[flag := args[at + 1]]);
        at := at + 2;
      } else {
        return false;
      }
    }
    return DB in seen;
  }

  lemma FlagNamesDiffer()
    ensures LITE != NO_TRACK && !TakesValue(LITE) && !TakesValue(NO_TRACK)
    ensures DB != CONFIG && DB != TOOLS && CONFIG != TOOLS
    ensures forall flag :: TakesValue(flag) || flag == LITE || flag == NO_TRACK ==>
      flag != "" && flag[0] == '-' && flag != "mcp"
  {
    assert |LITE| == 6 && |NO_TRACK| == 23 && |DB| == 4 && |CONFIG| == 8 && |TOOLS| == 7;
    assert LITE[0] == '-' && NO_TRACK[0] == '-' && DB[0] == '-' && CONFIG[0] == '-' && TOOLS[0] == '-';
    assert "mcp"[0] == 'm';
  }

  /** `args.windows(2).find(|pair| pair[0] == flag)`, the second of the pair. */
  function AfterFlag(args: seq<string>, flag: string): Option<string> {
    if |args| < 2 then None
    else if args[0] == flag then Some(args[1])
    else AfterFlag(args[1..], flag)
  }

  predicate IsKnown(flag: string) {
    TakesValue(flag) || flag == LITE || flag == NO_TRACK
  }

  /** From `at` on, a flag that was seen does not come again, and one that was not is
      found by the scans exactly when the reading assigns it. */
  lemma {:induction false} ScansAgreeFrom(
      args: seq<string>, at: nat, seen: set<string>, parsed: Parsed, isFile: string -> bool, flag: string)
    requires at <= |args| && IsKnown(flag)
    requires ParseFrom(args, at, seen, parsed, isFile).Some?
    requires TakesValue(flag) ==> (flag in seen <==> flag in parsed.values)
    requires flag == LITE ==> (flag in seen <==> parsed.lite)
    ensures var result := ParseFrom(args, at, seen, parsed, isFile).value;
      && (flag in seen ==> flag !in args[at..])
      && (flag == LITE ==> (result.lite <==> parsed.lite || LITE in args[at..]))
      && (TakesValue(flag) && flag in seen ==> flag in result.values && result.values[flag] == parsed.values[flag])
      && (TakesValue(flag) && flag !in seen ==>
            AfterFlag(args[at..], flag) == if flag in result.values then Some(result.values[flag]) else None)
    decreases |args| - at
  {
    FlagNamesDiffer();
    if at < |args| {
      var here := args[at];
      assert args[at..] == [here] + args[at + 1..];
      if here == LITE {
        ScansAgreeFrom(args, at + 1, seen + {here}, parsed.(lite := true), isFile, flag);
      } else if here == NO_TRACK {
        ScansAgreeFrom(args, at + 1, seen + {here}, parsed.(noTrack := true), isFile, flag);
      } else {
        var value := args[at + 1];
        assert args[at + 1..] == [value] + args[at + 2..];
        ScansAgreeFrom(args, at + 2, seen + {here}, parsed.(values := parsed.values[here := value]), isFile, flag);
      }
    }
  }

  /** On every accepted argv the shortcuts of the probe read what the grammar reads:
      the adjacent pairs for `--db` and `--tools`, and membership for `--lite`. */
  lemma ShortcutsAgree(args: seq<string>, isFile: string -> bool)
    requires Parse(args, isFile).Some?
    ensures var parsed := Parse(args, isFile).value;
      && DB in parsed.values && AfterFlag(args, DB) == Some(parsed.values[DB])
      && AfterFlag(args, TOOLS) == (if TOOLS in parsed.values then Some(parsed.values[TOOLS]) else None)
      && (LITE in args <==> parsed.lite)
  {
    FlagNamesDiffer();
    var none := Parsed(false, false, map[]);
    assert args == ["mcp"] + args[1..];
    ScansAgreeFrom(args, 1, {}, none, isFile, DB);
    ScansAgreeFrom(args, 1, {}, none, isFile, TOOLS);
    ScansAgreeFrom(args, 1, {}, none, isFile, LITE);
  }

  /** The argv setup generates is read as the database, config and profile it was made
      from, exactly when database and config are values and the config is a file; an
      absolute path is a value. Otherwise it may not be probed. */
  lemma GeneratedArgvIsAcceptedIff(db: string, config: Option<string>, lite: bool, isFile: string -> bool)
    ensures Parse(Registration.McpArgVec(db, config, lite), isFile) ==
      if db != "" && db[0] != '-'
         && (config.Some? ==> config.value != "" && config.value[0] != '-' && isFile(config.value)) then
        Some(Parsed(lite, false, if config.Some? then map[DB := db, CONFIG := config.value] else map[DB := db]))
      else None
  {
    FlagNamesDiffer();
    var args := Registration.McpArgVec(db, config, lite);
    var none := Parsed(false, false, map[]);
    var at, seen, start := if lite then 2 else 1, if lite then {LITE} else {}, none.(lite := lite);
    if lite {
      assert args[1] == LITE;
      assert ParseFrom(args, 1, {}, none, isFile) == ParseFrom(args, 2, {} + {LITE}, start, isFile);
      assert {} + {LITE} == {LITE};
    }
    assert args[at] == DB && args[at + 1] == db;
    if IsValue(db) {
      var bound := start.(values := map[DB := db]);
      assert ParseFrom(args, at, seen, start, isFile) == ParseFrom(args, at + 2, seen + {DB}, bound, isFile);
      if config.Some? {
        assert args[at + 2] == CONFIG && args[at + 3] == config.value && |args| == at + 4;
        if IsValue(config.value) && isFile(config.value) {
          var both := bound.(values := bound.values[CONFIG := config.value]);
          assert both.values == map[DB := db, CONFIG := config.value];
          assert ParseFrom(args, at + 2, seen + {DB}, bound, isFile)
              == ParseFrom(args, at + 4, seen + {DB} + {CONFIG}, both, isFile);
        }
      }
    }
  }

  // ----- The tool catalogue ---------------------------------------------------

  datatype Tool = Tool(name: Option<string>, hasSchema: bool)

  datatype Cursor = NoCursor | Next(text: string) | MalformedCursor

  datatype Reply = Reply(tools: Option<seq<Tool>>, cursor: Cursor)

  /** Any server: its reply to the `k`-th listing request, which carries the cursor
      the server gave last, or a protocol error. */
  type Server = (nat, Option<string>) -> Option<Reply>

  function PageNames(page: seq<Tool>): seq<string> {
    seq(|page|, i requires 0 <= i < |page| => if page[i].name.Some? then page[i].name.value else "")
  }

  predicate AreTools(page: seq<Tool>) {
    forall i :: 0 <= i < |page| ==> page[i].hasSchema && page[i].name.Some?
  }

  /** Add one page to the names listed so far, unless a tool has no name or schema or
      its name is listed already. */
  method AddPage(names: seq<string>, page: seq<Tool>) returns (added: Option<seq<string>>)
    requires IsDistinct(names)
    ensures added ==
      if AreTools(page) && IsDistinct(names + PageNames(page)) then Some(names + PageNames(page)) else None
  {
    var listed := names;
    ghost var all := names + PageNames(page);
    for i := 0 to |page|
      invariant listed == all[..|names| + i] && IsDistinct(listed)
      invariant AreTools(page[..i])
    {
      if page[i].name.None? || !page[i].hasSchema {
        return None;
      }
      assert all[|names| + i] == page[i].name.value;
      if page[i].name.value in listed {
        return None;
      }
      listed := listed + [page[i].name.value];
    }
    assert page[..|page|] == page && all[..|all|] == all;
    return Some(listed);
  }

  // ----- What a server lists --------------------------------------------------

  function CursorOf(reply: Option<Reply>): Option<string> {
    match reply
    case Some(Reply(_, Next(text))) => Some(text)
    case _ => None
  }

  /** The reply to request `k` when every cursor is followed. */
  function ReplyAt(server: Server, k: nat): Option<Reply> {
    server(k, if k == 0 then None else CursorOf(ReplyAt(server, k - 1)))
  }

  /** The cursor that page `k` gives. */
  function CursorAt(server: Server, k: nat): Option<string> {
    CursorOf(ReplyAt(server, k))
  }

  function PageAt(server: Server, k: nat): seq<Tool> {
    match ReplyAt(server, k)
    case Some(Reply(Some(page), _)) => page
    case _ => []
  }

  function NamesUpTo(server: Server, n: nat): seq<string> {
    if n == 0 then [] else NamesUpTo(server, n - 1) + PageNames(PageAt(server, n - 1))
  }

  predicate IsGoodPage(server: Server, k: nat) {
    ReplyAt(server, k).Some? && ReplyAt(server, k).value.tools.Some? && AreTools(PageAt(server, k))
  }

  /** Page `k` is followed by another: it is not empty and neither is its cursor. */
  predicate Continues(server: Server, k: nat) {
    IsGoodPage(server, k) && PageAt(server, k) != [] && CursorAt(server, k).Some? && CursorAt(server, k) != Some("")
  }

  /** The first `n` pages all continue, under cursors and names that do not repeat. */
  predicate IsPrefix(server: Server, n: nat) {
    && n <= 100
    && (forall k :: 0 <= k < n ==> Continues(server, k))
    && (forall j, k :: 0 <= j < k < n ==> CursorAt(server, j) != CursorAt(server, k))
    && IsDistinct(NamesUpTo(server, n))
  }

  /** A listing of `n` pages, the last of which has no cursor. */
  predicate IsListing(server: Server, n: nat) {
    && 1 <= n && IsPrefix(server, n - 1)
    && IsGoodPage(server, n - 1) && ReplyAt(server, n - 1).value.cursor.NoCursor?
    && IsDistinct(NamesUpTo(server, n))
  }

  lemma {:induction false} ShorterPrefix(server: Server, n: nat, k: nat)
    requires IsPrefix(server, n) && k <= n
    ensures IsPrefix(server, k)
    decreases n
  {
    if k < n {
      var all, page := NamesUpTo(server, n - 1), PageNames(PageAt(server, n - 1));
      assert forall i :: 0 <= i < |all| ==> (all + page)[i] == all[i];
      ShorterPrefix(server, n - 1, k);
    }
  }

  /** After `k` pages, one that neither continues nor ends the listing is fatal. */
  lemma NoListing(server: Server, k: nat)
    requires IsPrefix(server, k) && !IsPrefix(server, k + 1) && !IsListing(server, k + 1)
    ensures forall n: nat :: !IsListing(server, n)
  {
    forall n: nat
      ensures !IsListing(server, n)
    {
      if IsListing(server, n) {
        assert n - 1 < k ==> Continues(server, n - 1);
        if n - 1 > k {
          ShorterPrefix(server, n - 1, k + 1);
        }
      }
    }
  }

  lemma FatalPage(server: Server, k: nat)
    requires IsPrefix(server, k) && !(IsGoodPage(server, k) && IsDistinct(NamesUpTo(server, k + 1)))
    ensures forall n: nat :: !IsListing(server, n)
  {
    assert !IsPrefix(server, k + 1) by { assert !Continues(server, k) || !IsDistinct(NamesUpTo(server, k + 1)); }
    NoListing(server, k);
  }

  predicate IsFreshCursor(server: Server, k: nat) {
    Continues(server, k) && k < 100 && forall j :: 0 <= j < k ==> CursorAt(server, j) != CursorAt(server, k)
  }

  lemma FatalCursor(server: Server, k: nat)
    requires IsPrefix(server, k) && ReplyAt(server, k).Some? && !ReplyAt(server, k).value.cursor.NoCursor?
    requires !IsFreshCursor(server, k)
    ensures forall n: nat :: !IsListing(server, n)
  {
    NoListing(server, k);
  }

  lemma NextPrefix(server: Server, k: nat)
    requires IsPrefix(server, k) && IsFreshCursor(server, k) && IsDistinct(NamesUpTo(server, k + 1))
    ensures IsPrefix(server, k + 1)
  {}

  /** The cursors that the first `k` pages gave. */
  function CursorsUpTo(server: Server, k: nat): set<string> {
    if k == 0 then {}
    else CursorsUpTo(server, k - 1) + match CursorAt(server, k - 1) case Some(text) => {text} case None => {}
  }

  lemma {:induction false} CursorsAreGiven(server: Server, k: nat, text: string)
    ensures text in CursorsUpTo(server, k) <==> exists j :: 0 <= j < k && CursorAt(server, j) == Some(text)
  {
    if k > 0 {
      CursorsAreGiven(server, k - 1, text);
      if text in CursorsUpTo(server, k - 1) {
        var j :| 0 <= j < k - 1 && CursorAt(server, j) == Some(text);
      }
    }
  }

  /** Read page `k` into the names listed so far. */
  method ReadPage(server: Server, k: nat, cursor: Option<string>, listed: seq<string>)
    returns (added: Option<seq<string>>)
    requires cursor == (if k == 0 then None else CursorAt(server, k - 1)) && listed == NamesUpTo(server, k)
    requires IsDistinct(listed)
    ensures added ==
      if IsGoodPage(server, k) && IsDistinct(NamesUpTo(server, k + 1)) then Some(NamesUpTo(server, k + 1)) else None
  {
    var reply := server(k, cursor);
    if reply.None? || reply.value.tools.None? {
      return None;
    }
    added := AddPage(listed, reply.value.tools.value);
  }

  /** The cursor to go on with; none if the listing cannot go on. */
  method ReadCursor(server: Server, k: nat, cursors: set<string>) returns (next: Option<string>)
    requires IsGoodPage(server, k) && cursors == CursorsUpTo(server, k) && |cursors| == k
    ensures next == if IsFreshCursor(server, k) then CursorAt(server, k) else None
    ensures next.Some? ==> next.value !in cursors
  {
    match ReplyAt(server, k).value.cursor
    case Next(text) =>
      CursorsAreGiven(server, k, text);
      if text == "" || PageAt(server, k) == [] || text in cursors || |cursors + {text}| > 100 {
        return None;
      }
      return Some(text);
    case _ =>
      return None;
  }

  /** Follow the cursors. Whatever the server does, at most 101 pages are read, and the
      names are accepted exactly when those pages are a listing. */
  method ListTools(server: Server) returns (names: Option<seq<string>>, pages: nat)
    ensures 1 <= pages <= 101
    ensures names == if IsListing(server, pages) then Some(NamesUpTo(server, pages)) else None
    ensures names.None? ==> forall n: nat :: !IsListing(server, n)
  {
    var listed: seq<string> := [];
    var cursors: set<string> := {};
    var cursor: Option<string> := None;
    pages := 0;
    while true
      invariant IsPrefix(server, pages) && listed == NamesUpTo(server, pages)
      invariant cursor == if pages == 0 then None else CursorAt(server, pages - 1)
      invariant cursors == CursorsUpTo(server, pages) && |cursors| == pages
      decreases 100 - pages
    {
      var k := pages;
      var added := ReadPage(server, k, cursor, listed);
      pages := k + 1;
      if added.None? {
        FatalPage(server, k);
        return None, pages;
      }
      if ReplyAt(server, k).value.cursor.NoCursor? {
        return added, pages;
      }
      cursor := ReadCursor(server, k, cursors);
      if cursor.None? {
        FatalCursor(server, k);
        return None, pages;
      }
      NextPrefix(server, k);
      listed, cursors := added.value, cursors + {cursor.value};
    }
  }

  // ----- The selected profile -------------------------------------------------

  /** `str::split(',')`: the parts that, joined by commas, are the text. */
  function SplitCommas(text: string): (parts: seq<string>)
    ensures parts != [] && JoinCommas(parts) == text
    ensures forall i :: 0 <= i < |parts| ==> ',' !in parts[i]
  {
    if text == "" then [""]
    else
      var rest := SplitCommas(text[1..]);
      if text[0] == ',' then [""] + rest else [[text[0]] + rest[0]] + rest[1..]
  }

  function JoinCommas(parts: seq<string>): string {
    if parts == [] then "" else if |parts| == 1 then parts[0] else parts[0] + "," + JoinCommas(parts[1..])
  }

  function Retain(names: seq<string>, selected: seq<string>): (kept: seq<string>)
    ensures forall name :: name in kept <==> name in names && name in selected
  {
    if names == [] then []
    else if names[0] in selected then [names[0]] + Retain(names[1..], selected)
    else Retain(names[1..], selected)
  }

  /** The tools the profile should offer, or nothing if the selection names a tool the
      built-in catalogue does not have. */
  function Expected(catalogue: seq<string>, selection: Option<string>): Option<seq<string>> {
    match selection
    case None => Some(catalogue)
    case Some(text) =>
      var selected := SplitCommas(text);
      if forall i :: 0 <= i < |selected| ==> selected[i] in catalogue then Some(Retain(catalogue, selected)) else None
  }

  lemma {:induction false} RetainCounts(names: seq<string>, selected: seq<string>, name: string)
    ensures multiset(Retain(names, selected))[name] == if name in selected then multiset(names)[name] else 0
  {
    if names != [] {
      RetainCounts(names[1..], selected, name);
      assert names == [names[0]] + names[1..];
    }
  }

  /** A selection is refused exactly when it names a tool that the catalogue does not
      have; otherwise each selected tool is expected as often as the catalogue has it, and
      no other. Without a selection the whole catalogue is expected. */
  lemma ExpectedIff(catalogue: seq<string>, selection: Option<string>)
    ensures selection.None? ==> Expected(catalogue, selection) == Some(catalogue)
    ensures selection.Some? ==>
      (Expected(catalogue, selection).Some? <==>
         forall name :: name in SplitCommas(selection.value) ==> name in catalogue)
    ensures selection.Some? && Expected(catalogue, selection).Some? ==>
      forall name :: multiset(Expected(catalogue, selection).value)[name] ==
        if name in SplitCommas(selection.value) then multiset(catalogue)[name] else 0
  {
    if selection.Some? && Expected(catalogue, selection).Some? {
      forall name
        ensures multiset(Expected(catalogue, selection).value)[name] ==
          if name in SplitCommas(selection.value) then multiset(catalogue)[name] else 0
      {
        RetainCounts(catalogue, SplitCommas(selection.value), name);
      }
    }
  }

  /** The final comparison of `probe`. */
  predicate HonorsProfile(tools: seq<string>, expected: seq<string>) {
    (forall i :: 0 <= i < |expected| ==> expected[i] in tools) && |tools| == |expected|
  }

  /** A probe succeeds exactly when the server's listing honors the profile. */
  method Probe(server: Server, builtin: bool -> seq<string>, args: seq<string>) returns (count: Option<nat>, pages: nat)
    ensures count ==
      var expected := Expected(builtin(LITE in args), AfterFlag(args, TOOLS));
      if IsListing(server, pages) && expected.Some? && HonorsProfile(NamesUpTo(server, pages), expected.value)
      then Some(|NamesUpTo(server, pages)|) else None
    ensures !IsListing(server, pages) ==> forall n: nat :: !IsListing(server, n)
  {
    var listed;
    listed, pages := ListTools(server);
    var expected := Expected(builtin(LITE in args), AfterFlag(args, TOOLS));
    if listed.None? || expected.None? || !HonorsProfile(listed.value, expected.value) {
      return None, pages;
    }
    return Some(|listed.value|), pages;
  }

  /** The selection keeps no name twice exactly when it selects no name that the
      catalogue repeats. */
  lemma {:induction false} RetainIsDistinctIff(names: seq<string>, selected: seq<string>)
    ensures IsDistinct(Retain(names, selected)) <==>
      forall i, j :: 0 <= i < j < |names| && names[i] == names[j] ==> names[i] !in selected
  {
    if names != [] {
      var rest, kept := names[1..], Retain(names[1..], selected);
      assert forall i :: 0 <= i < |rest| ==> rest[i] == names[i + 1];
      RetainIsDistinctIff(rest, selected);
      if names[0] in selected {
        assert forall i :: 0 <= i < |kept| ==> ([names[0]] + kept)[i + 1] == kept[i];
        if names[0] in rest {
          var j :| 0 <= j < |rest| && rest[j] == names[0];
          assert names[0] == names[j + 1];
          var k :| 0 <= k < |kept| && kept[k] == names[0];
          assert Retain(names, selected)[0] == Retain(names, selected)[k + 1];
        }
      }
    }
  }

  /** With no expected name twice, a server that passes offers exactly the tools of the
      selected profile. */
  lemma ProfileIsExact(tools: seq<string>, catalogue: seq<string>, selection: Option<string>)
    requires Expected(catalogue, selection).Some? && IsDistinct(Expected(catalogue, selection).value)
    requires IsDistinct(tools) && HonorsProfile(tools, Expected(catalogue, selection).value)
    ensures forall name :: name in tools <==>
      name in catalogue && (selection.Some? ==> name in SplitCommas(selection.value))
  {
    DistinctCovers(Expected(catalogue, selection).value, tools);
  }

  // ----- Exactly when the comparison is exact ---------------------------------

  predicate SameNames(a: seq<string>, b: seq<string>) {
    (forall name :: name in a ==> name in b) && (forall name :: name in b ==> name in a)
  }

  /** Whatever a server lists without repeats, it passes only with the expected tools. */
  ghost predicate ComparisonIsExact(expected: seq<string>) {
    forall tools :: IsDistinct(tools) && HonorsProfile(tools, expected) ==> SameNames(tools, expected)
  }

  function Dedupe(names: seq<string>): (once: seq<string>)
    ensures forall name :: name in once <==> name in names
    ensures IsDistinct(once)
  {
    if names == [] then []
    else if names[0] in names[1..] then Dedupe(names[1..])
    else [names[0]] + Dedupe(names[1..])
  }

  function Longest(names: seq<string>): (n: nat)
    ensures forall name :: name in names ==> |name| <= n
  {
    if names == [] then 0
    else if |names[0]| > Longest(names[1..]) then |names[0]|
    else Longest(names[1..])
  }

  /** `count` different names, each longer than `length`. */
  function Padding(count: nat, length: nat): (names: seq<string>)
    ensures |names| == count && IsDistinct(names)
    ensures forall name :: name in names ==> |name| > length
  {
    var names := seq(count, (i: nat) => seq(length + 1 + i, k => 'x'));
    assert forall i :: 0 <= i < count ==> |names[i]| == length + 1 + i;
    names
  }

  /** A repeated expected name leaves room for a tool that is not expected. */
  lemma RepeatedNameAdmitsAStranger(expected: seq<string>)
    requires !IsDistinct(expected)
    ensures exists tools :: IsDistinct(tools) && HonorsProfile(tools, expected) && !SameNames(tools, expected)
  {
    var once := Dedupe(expected);
    DistinctSize(once);
    SetIsSmaller(expected);
    assert AsSet(once) == AsSet(expected);
    var padding := Padding(|expected| - |once|, Longest(expected));
    var tools := once + padding;
    assert padding[0] in padding && padding[0] in tools;
    forall i, j | 0 <= i < j < |tools|
      ensures tools[i] != tools[j]
    {
      if i < |once| <= j {
        assert tools[i] in expected && tools[j] in padding;
      }
    }
    assert HonorsProfile(tools, expected) && !SameNames(tools, expected);
  }

  /** The comparison of the probe is exact if and only if no expected name repeats. */
  lemma ComparisonIsExactIff(expected: seq<string>)
    ensures ComparisonIsExact(expected) <==> IsDistinct(expected)
  {
    if IsDistinct(expected) {
      forall tools | IsDistinct(tools) && HonorsProfile(tools, expected)
        ensures SameNames(tools, expected)
      {
        DistinctCovers(expected, tools);
      }
    } else {
      RepeatedNameAdmitsAStranger(expected);
    }
  }
}
