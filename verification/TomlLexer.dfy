/** The small reader that finds a top-level `db` string in an instance config
    (`app/Sources/DatabaseSelection.swift`, `topLevelDatabase` and `stringValue`).
    Swift reads Characters: a single Unicode scalar, a carriage return followed by a
    line feed, or several scalars that join, as a letter and the marks on it do. */
module TomlLexer {
  import opened Base
  import opened Sequences

  datatype Sym = Ch(c: char) | CrLf | Cluster(scalars: string)
  {
    function Scalars(): string {
      match this
      case Ch(c) => [c]
      case CrLf => "\r\n"
      case Cluster(scalars) => scalars
    }
  }

  type Symbols = seq<Sym>

  function Text(s: string): Symbols {
    seq(|s|, i requires 0 <= i < |s| => Ch(s[i]))
  }

  predicate IsNewline(s: Sym) {
    s == CrLf || s == Ch('\n')
  }

  predicate IsQuote(s: Sym) {
    s == Ch('"') || s == Ch('\'')
  }

  // ----- Splitting into statements --------------------------------------------

  datatype Mode = Plain | InString(delimiter: char, multiline: bool)

  function AfterComment(chars: Symbols): (rest: Symbols)
    ensures |rest| <= |chars|
  {
    if chars == [] || IsNewline(chars[0]) then chars else AfterComment(chars[1..])
  }

  predicate IsTriple(chars: Symbols, d: char) {
    |chars| > 2 && chars[0] == Ch(d) && chars[1] == Ch(d) && chars[2] == Ch(d)
  }

  /** How many symbols the reader copies in one turn, and the mode it is then in. */
  datatype Turn = Turn(length: nat, mode: Mode)

  function CopyTurn(chars: Symbols, mode: Mode): (t: Turn)
    requires chars != []
    ensures 1 <= t.length <= |chars|
  {
    if mode.InString? then
      var d := mode.delimiter;
      if chars[0] == Ch('\\') && d == '"' && |chars| > 1 then Turn(2, mode)
      else if mode.multiline && IsTriple(chars, d) then Turn(3, Plain)
      else if !mode.multiline && chars[0] == Ch(d) then Turn(1, Plain)
      else Turn(1, mode)
    else if !IsQuote(chars[0]) then Turn(1, Plain)
    else
      var d := chars[0].c;
      if IsTriple(chars, d) then Turn(3, InString(d, true)) else Turn(1, InString(d, false))
  }

  /** The statements in `chars`, of which the first continues `buffer`. Text after an
      unterminated string is no statement. */
  function Statements(chars: Symbols, buffer: Symbols, mode: Mode): seq<Symbols>
    decreases |chars|
  {
    if chars == [] then (if mode.Plain? then [buffer] else [])
    else if mode.Plain? && chars[0] == Ch('#') then
      Statements(AfterComment(chars[1..]), buffer, Plain)
    else if mode.Plain? && IsNewline(chars[0]) then
      [buffer] + Statements(chars[1..], [], Plain)
    else
      var t := CopyTurn(chars, mode);
      Statements(chars[t.length..], buffer + chars[..t.length], t.mode)
  }

  // ----- Reading statements ---------------------------------------------------

  /** `.whitespacesAndNewlines` */
  predicate IsSpace(s: Sym) {
    s.CrLf? || (s.Ch? && IsWhitespace(s.c))
  }

  /** `.whitespaces`: tabs and the separators that end no line. */
  predicate IsBlank(s: Sym) {
    s.Ch? && IsWhitespace(s.c) && !('\n' <= s.c <= '\r') && s.c as int !in {0x85, 0x2028, 0x2029}
  }

  function Find(chars: Symbols, s: Sym): (at: nat)
    ensures at <= |chars| && (at < |chars| ==> chars[at] == s)
    ensures forall k :: 0 <= k < at ==> chars[k] != s
  {
    if chars == [] || chars[0] == s then 0 else 1 + Find(chars[1..], s)
  }

  predicate IsSection(line: Symbols) {
    line != [] && line[0] == Ch('[')
  }

  /** The key before the first `=`, and the text after it. */
  function KeyOf(line: Symbols): Option<Symbols> {
    var equal := Find(line, Ch('='));
    if equal == |line| then None else Some(Trim(line[..equal], IsBlank))
  }

  function ValueOf(line: Symbols): Symbols {
    var equal := Find(line, Ch('='));
    if equal == |line| then [] else Trim(line[equal + 1..], IsSpace)
  }

  predicate NamesDb(key: Symbols) {
    key == Text("db") || StringValue(key) == Some("db")
  }

  /** Neither a section nor an assignment to `db`. */
  predicate IsOther(statement: Symbols) {
    var line := Trim(statement, IsSpace);
    !IsSection(line) && (KeyOf(line).Some? ==> !NamesDb(KeyOf(line).value))
  }

  function Lookup(statements: seq<Symbols>): Option<string> {
    if statements == [] then None
    else
      var line := Trim(statements[0], IsSpace);
      if IsSection(line) then None
      else if IsOther(statements[0]) then Lookup(statements[1..])
      else StringValue(ValueOf(line))
  }

  function TopLevelDatabase(content: Symbols): Option<string> {
    Lookup(Statements(content, [], Plain))
  }

  // ----- String values --------------------------------------------------------

  function HexDigit(s: Sym): Option<nat> {
    if !s.Ch? then None
    else if '0' <= s.c <= '9' then Some(s.c as int - '0' as int)
    else if 'a' <= s.c <= 'f' then Some(s.c as int - 'a' as int + 10)
    else if 'A' <= s.c <= 'F' then Some(s.c as int - 'A' as int + 10)
    else None
  }

  /** The sixteen digits, in either case, stand for their places. */
  lemma HexDigitValues(k: nat)
    requires k < 16
    ensures HexDigit(Ch("0123456789abcdef"[k])) == Some(k) && HexDigit(Ch("0123456789ABCDEF"[k])) == Some(k)
  {}

  function Hex(digits: Symbols): Option<nat> {
    if digits == [] then Some(0)
    else
      match (Hex(digits[..|digits| - 1]), HexDigit(digits[|digits| - 1]))
      case (Some(high), Some(low)) => Some(16 * high + low)
      case _ => None
  }

  /** `UInt32(_:radix:)`: a plus sign is skipped, and a minus sign before zero. */
  function Number(digits: Symbols): Option<nat> {
    if |digits| > 1 && digits[0] == Ch('+') then Hex(digits[1..])
    else if |digits| > 1 && digits[0] == Ch('-') then
      if Hex(digits[1..]) == Some(0) then Some(0) else None
    else Hex(digits)
  }

  predicate IsScalar(code: nat) {
    code < 0xD800 || 0xE000 <= code < 0x110000
  }

  function Escaped(s: Sym): Option<char> {
    if s == Ch('b') then Some(8 as char)
    else if s == Ch('t') then Some('\t')
    else if s == Ch('n') then Some('\n')
    else if s == Ch('f') then Some(12 as char)
    else if s == Ch('r') then Some('\r')
    else if s == Ch('"') then Some('"')
    else if s == Ch('\\') then Some('\\')
    else None
  }

  function Push(text: string, rest: Option<string>): Option<string> {
    if rest.Some? then Some(text + rest.value) else None
  }

  /** The text that `inner` starts with, and how many symbols spell it. */
  datatype Unit = Unit(text: string, length: nat)

  function FirstUnit(inner: Symbols, d: char): (u: Option<Unit>)
    requires inner != []
    ensures u.Some? ==> 1 <= u.value.length <= |inner|
  {
    if inner[0] == Ch(d) || IsNewline(inner[0]) || inner[0] == Ch('\r') then None
    else if inner[0] != Ch('\\') || d != '"' then Some(Unit(inner[0].Scalars(), 1))
    else if |inner| == 1 then None
    else if Escaped(inner[1]).Some? then Some(Unit([Escaped(inner[1]).value], 2))
    else if inner[1] != Ch('u') && inner[1] != Ch('U') then None
    else
      var n := if inner[1] == Ch('u') then 4 else 8;
      if |inner| < 2 + n then None
      else
        var code := Number(inner[2..2 + n]);
        if code.Some? && IsScalar(code.value) then Some(Unit([code.value as char], 2 + n)) else None
  }

  /** The text between the delimiters. */
  function Decode(inner: Symbols, d: char): Option<string>
    decreases |inner|
  {
    if inner == [] then Some("")
    else
      match FirstUnit(inner, d)
      case Some(u) => Push(u.text, Decode(inner[u.length..], d))
      case None => None
  }

  function StringValue(value: Symbols): Option<string> {
    if |value| < 2 || !IsQuote(value[0]) || value[|value| - 1] != value[0] || IsTriple(value, value[0].c) then None
    else
      var text := Decode(value[1..|value| - 1], value[0].c);
      if text == Some("") then None else text
  }

  // ----- Strings are opaque ---------------------------------------------------

  /** The pieces of a statement: symbols outside strings, and whole strings. */
  datatype Token = Raw(sym: Sym) | Single(delimiter: char, body: Symbols) | Multi(delimiter: char, body: Symbols)
  {
    function Render(): Symbols {
      match this
      case Raw(sym) => [sym]
      case Single(d, body) => [Ch(d)] + body + [Ch(d)]
      case Multi(d, body) => Triple(d) + body + Triple(d)
    }
  }

  function Triple(d: char): Symbols {
    [Ch(d), Ch(d), Ch(d)]
  }

  function Closing(d: char, multiline: bool): Symbols {
    if multiline then Triple(d) else [Ch(d)]
  }

  /** Followed by its closing delimiter, the body is closed there and not before; in a
      basic string a backslash takes the next symbol with it. */
  predicate IsBody(body: Symbols, d: char, multiline: bool)
    decreases |body|
  {
    body == [] ||
    if body[0] == Ch('\\') && d == '"' then |body| > 1 && IsBody(body[2..], d, multiline)
    else
      && (body[0] == Ch(d) ==> multiline && !IsTriple(body + Triple(d), d))
      && IsBody(body[1..], d, multiline)
  }

  predicate IsToken(token: Token) {
    match token
    case Raw(sym) => sym != Ch('#') && !IsNewline(sym) && !IsQuote(sym)
    case Single(d, body) => IsQuote(Ch(d)) && IsBody(body, d, false)
    case Multi(d, body) => IsQuote(Ch(d)) && IsBody(body, d, true)
  }

  function Render(tokens: seq<Token>): Symbols {
    if tokens == [] then [] else tokens[0].Render() + Render(tokens[1..])
  }

  /** An empty string is not followed by its own delimiter, which would open a
      multiline string. */
  predicate MayPrecede(token: Token, rest: Symbols) {
    token.Single? && token.body == [] ==> rest == [] || rest[0] != Ch(token.delimiter)
  }

  predicate AreTokens(tokens: seq<Token>, rest: Symbols) {
    tokens == [] ||
    (IsToken(tokens[0]) && MayPrecede(tokens[0], Render(tokens[1..]) + rest) && AreTokens(tokens[1..], rest))
  }

  lemma {:induction false} Copied(head: Symbols, tail: Symbols, buffer: Symbols, mode: Mode, next: Mode)
    requires head != [] && (mode.Plain? ==> head[0] != Ch('#') && !IsNewline(head[0]))
    requires CopyTurn(head + tail, mode) == Turn(|head|, next)
    ensures Statements(head + tail, buffer, mode) == Statements(tail, buffer + head, next)
  {
    assert (head + tail)[|head|..] == tail && (head + tail)[..|head|] == head;
  }

  lemma {:induction false} BodyIsOpaque(body: Symbols, d: char, multiline: bool, rest: Symbols, buffer: Symbols)
    requires IsQuote(Ch(d)) && IsBody(body, d, multiline)
    ensures Statements(body + Closing(d, multiline) + rest, buffer, InString(d, multiline))
         == Statements(rest, buffer + body + Closing(d, multiline), Plain)
    decreases |body|
  {
    var close := Closing(d, multiline);
    var chars := body + close + rest;
    if body == [] {
      assert chars == close + rest;
      assert chars[|close|..] == rest && chars[..|close|] == close;
      assert buffer + body + close == buffer + close;
    } else {
      var n := if body[0] == Ch('\\') && d == '"' then 2 else 1;
      assert chars[n..] == body[n..] + close + rest && chars[..n] == body[..n];
      assert buffer + body[..n] + body[n..] + close == buffer + body + close;
      BodyIsOpaque(body[n..], d, multiline, rest, buffer + body[..n]);
      if n == 1 && body[0] == Ch(d) {
        InnerDelimiter(body, d, rest);
      }
    }
  }

  /** A delimiter that does not close the body looks the same whatever follows. */
  lemma InnerDelimiter(body: Symbols, d: char, rest: Symbols)
    requires body != []
    ensures IsTriple(body + Triple(d) + rest, d) <==> IsTriple(body + Triple(d), d)
  {}

  lemma {:induction false} SingleIsOpaque(d: char, body: Symbols, rest: Symbols, buffer: Symbols)
    requires IsQuote(Ch(d)) && IsBody(body, d, false)
    requires body == [] ==> rest == [] || rest[0] != Ch(d)
    ensures Statements([Ch(d)] + body + [Ch(d)] + rest, buffer, Plain)
         == Statements(rest, buffer + ([Ch(d)] + body + [Ch(d)]), Plain)
  {
    var open, tail := [Ch(d)], body + Closing(d, false) + rest;
    assert open + body + [Ch(d)] + rest == open + tail;
    assert !IsTriple(open + tail, d);
    Copied(open, tail, buffer, Plain, InString(d, false));
    BodyIsOpaque(body, d, false, rest, buffer + open);
    assert buffer + open + body + Closing(d, false) == buffer + (open + body + [Ch(d)]);
  }

  lemma {:induction false} MultiIsOpaque(d: char, body: Symbols, rest: Symbols, buffer: Symbols)
    requires IsQuote(Ch(d)) && IsBody(body, d, true)
    ensures Statements(Triple(d) + body + Triple(d) + rest, buffer, Plain)
         == Statements(rest, buffer + (Triple(d) + body + Triple(d)), Plain)
  {
    var open, tail := Triple(d), body + Closing(d, true) + rest;
    assert open + body + Triple(d) + rest == open + tail;
    assert IsTriple(open + tail, d);
    Copied(open, tail, buffer, Plain, InString(d, true));
    BodyIsOpaque(body, d, true, rest, buffer + open);
    assert buffer + open + body + Closing(d, true) == buffer + (open + body + Triple(d));
  }

  lemma TokenIsOpaque(token: Token, rest: Symbols, buffer: Symbols)
    requires IsToken(token) && MayPrecede(token, rest)
    ensures Statements(token.Render() + rest, buffer, Plain) == Statements(rest, buffer + token.Render(), Plain)
  {
    match token
    case Raw(sym) =>
      var chars := token.Render() + rest;
      assert chars[1..] == rest && chars[..1] == [sym];
    case Single(d, body) => SingleIsOpaque(d, body, rest, buffer);
    case Multi(d, body) => MultiIsOpaque(d, body, rest, buffer);
  }

  /** Lexing tokens only fills the buffer: nothing inside a string is a newline, a
      comment or a quote to the reader. */
  lemma {:induction false} TokensAreOpaque(tokens: seq<Token>, rest: Symbols, buffer: Symbols)
    requires AreTokens(tokens, rest)
    ensures Statements(Render(tokens) + rest, buffer, Plain) == Statements(rest, buffer + Render(tokens), Plain)
    decreases |tokens|
  {
    if tokens == [] {
      assert Render(tokens) + rest == rest && buffer + Render(tokens) == buffer;
    } else {
      var tail := Render(tokens[1..]) + rest;
      assert Render(tokens) + rest == tokens[0].Render() + tail;
      TokenIsOpaque(tokens[0], tail, buffer);
      TokensAreOpaque(tokens[1..], rest, buffer + tokens[0].Render());
      assert buffer + tokens[0].Render() + Render(tokens[1..]) == buffer + Render(tokens);
    }
  }

  predicate AreRaw(raw: Symbols) {
    forall i :: 0 <= i < |raw| ==> IsToken(Raw(raw[i]))
  }

  lemma {:induction false} RawRun(raw: Symbols, rest: Symbols, buffer: Symbols)
    requires AreRaw(raw)
    ensures Statements(raw + rest, buffer, Plain) == Statements(rest, buffer + raw, Plain)
    decreases |raw|
  {
    if raw == [] {
      assert raw + rest == rest && buffer + raw == buffer;
    } else {
      assert raw + rest == [raw[0]] + (raw[1..] + rest);
      TokenIsOpaque(Raw(raw[0]), raw[1..] + rest, buffer);
      RawRun(raw[1..], rest, buffer + [raw[0]]);
      assert buffer + [raw[0]] + raw[1..] == buffer + raw;
    }
  }

  // ----- Lines ----------------------------------------------------------------

  /** One logical line: tokens, an optional comment, and the newline that ends it. */
  datatype Line = Line(tokens: seq<Token>, comment: Option<Symbols>, newline: Sym)
  {
    function End(): Symbols {
      (if comment.Some? then [Ch('#')] + comment.value else []) + [newline]
    }
  }

  predicate IsLine(line: Line) {
    && AreTokens(line.tokens, line.End())
    && IsNewline(line.newline)
    && (line.comment.Some? ==> forall i :: 0 <= i < |line.comment.value| ==> !IsNewline(line.comment.value[i]))
  }

  function RenderLines(lines: seq<Line>): Symbols {
    if lines == [] then [] else Render(lines[0].tokens) + lines[0].End() + RenderLines(lines[1..])
  }

  function LineTexts(lines: seq<Line>): seq<Symbols> {
    if lines == [] then [] else [Render(lines[0].tokens)] + LineTexts(lines[1..])
  }

  predicate AreLines(lines: seq<Line>) {
    lines == [] || (IsLine(lines[0]) && AreLines(lines[1..]))
  }

  /** None of the lines is a section or an assignment to `db`. */
  predicate AreOthers(lines: seq<Line>) {
    lines == [] || (IsOther(Render(lines[0].tokens)) && AreOthers(lines[1..]))
  }

  lemma {:induction false} CommentEnds(comment: Symbols, newline: Sym, rest: Symbols)
    requires IsNewline(newline) && forall i :: 0 <= i < |comment| ==> !IsNewline(comment[i])
    ensures AfterComment(comment + [newline] + rest) == [newline] + rest
    decreases |comment|
  {
    var chars := comment + [newline] + rest;
    if comment == [] {
      assert chars == [newline] + rest;
    } else {
      assert chars[1..] == comment[1..] + [newline] + rest;
      CommentEnds(comment[1..], newline, rest);
    }
  }

  lemma EndOfLine(line: Line, rest: Symbols, buffer: Symbols)
    requires IsLine(line)
    ensures Statements(line.End() + rest, buffer, Plain) == [buffer] + Statements(rest, [], Plain)
  {
    var chars := line.End() + rest;
    var ended := [line.newline] + rest;
    assert ended[1..] == rest;
    if line.comment.Some? {
      assert chars[1..] == line.comment.value + [line.newline] + rest;
      CommentEnds(line.comment.value, line.newline, rest);
    } else {
      assert chars == ended;
    }
  }

  lemma {:induction false} FollowOnlyByFirst(tokens: seq<Token>, end: Symbols, rest: Symbols)
    requires AreTokens(tokens, end) && end != []
    ensures AreTokens(tokens, end + rest)
    decreases |tokens|
  {
    if tokens != [] {
      FollowOnlyByFirst(tokens[1..], end, rest);
      assert Render(tokens[1..]) + (end + rest) == Render(tokens[1..]) + end + rest;
    }
  }

  lemma LineIsOneStatement(line: Line, rest: Symbols)
    requires IsLine(line)
    ensures Statements(Render(line.tokens) + line.End() + rest, [], Plain)
         == [Render(line.tokens)] + Statements(rest, [], Plain)
  {
    FollowOnlyByFirst(line.tokens, line.End(), rest);
    assert Render(line.tokens) + line.End() + rest == Render(line.tokens) + (line.End() + rest);
    TokensAreOpaque(line.tokens, line.End() + rest, []);
    assert [] + Render(line.tokens) == Render(line.tokens);
    EndOfLine(line, rest, Render(line.tokens));
  }

  lemma FirstLine(first: Symbols, end: Symbols, tail: Symbols, rest: Symbols)
    ensures first + end + tail + rest == first + end + (tail + rest)
  {}

  /** The statements of a document are its logical lines, however many newlines,
      comment signs, brackets or equal signs their strings hold. */
  lemma {:induction false} StatementsAreLines(lines: seq<Line>, rest: Symbols)
    requires AreLines(lines)
    ensures Statements(RenderLines(lines) + rest, [], Plain) == LineTexts(lines) + Statements(rest, [], Plain)
    decreases |lines|
  {
    var found := Statements(rest, [], Plain);
    if lines == [] {
      assert RenderLines(lines) + rest == rest;
      assert LineTexts(lines) + found == found;
    } else {
      var first, tail := Render(lines[0].tokens), RenderLines(lines[1..]);
      FirstLine(first, lines[0].End(), tail, rest);
      LineIsOneStatement(lines[0], tail + rest);
      StatementsAreLines(lines[1..], rest);
      assert [first] + LineTexts(lines[1..]) + found == [first] + (LineTexts(lines[1..]) + found);
    }
  }

  lemma LookupPasses(statement: Symbols, rest: seq<Symbols>)
    requires IsOther(statement)
    ensures Lookup([statement] + rest) == Lookup(rest)
  {
    assert ([statement] + rest)[1..] == rest;
  }

  lemma {:induction false} OthersAreSkipped(lines: seq<Line>, rest: seq<Symbols>)
    requires AreOthers(lines)
    ensures Lookup(LineTexts(lines) + rest) == Lookup(rest)
    decreases |lines|
  {
    if lines == [] {
      assert LineTexts(lines) + rest == rest;
    } else {
      var first, tail := Render(lines[0].tokens), LineTexts(lines[1..]) + rest;
      assert LineTexts(lines) + rest == [first] + tail;
      LookupPasses(first, tail);
      OthersAreSkipped(lines[1..], rest);
    }
  }

  /** A section that starts before any `db` hides whatever comes after. */
  lemma {:induction false} SectionHidesTheRest(lines: seq<Line>, section: Line, rest: Symbols)
    requires AreLines(lines) && AreOthers(lines)
    requires IsLine(section) && IsSection(Trim(Render(section.tokens), IsSpace))
    ensures TopLevelDatabase(RenderLines(lines) + (Render(section.tokens) + section.End() + rest)) == None
  {
    StatementsAreLines(lines, Render(section.tokens) + section.End() + rest);
    LineIsOneStatement(section, rest);
    OthersAreSkipped(lines, [Render(section.tokens)] + Statements(rest, [], Plain));
  }

  // ----- Where the reader departs from TOML -----------------------------------

  lemma {:induction false} Unclosed(rest: Symbols, buffer: Symbols, multiline: bool)
    requires Ch('"') !in rest
    ensures Statements(rest, buffer, InString('"', multiline)) == []
    decreases |rest|
  {
    if rest != [] {
      var n := if rest[0] == Ch('\\') && |rest| > 1 then 2 else 1;
      assert rest[0] in rest;
      Unclosed(rest[n..], buffer + rest[..n], multiline);
    }
  }

  /** Read as a whole, whatever follows, unless that is the delimiter again. */
  ghost predicate IsOpaque(text: Symbols, d: char) {
    forall rest: Symbols, buffer: Symbols :: rest == [] || rest[0] != Ch(d) ==>
      Statements(text + rest, buffer, Plain) == Statements(rest, buffer + text, Plain)
  }

  function Repeat(d: char, n: nat): Symbols {
    seq(n, i => Ch(d))
  }

  /** A multiline string that ends in `n` delimiters of its own: TOML v1.0.0 allows up
      to two next to the closing ones. */
  function Ending(d: char, core: Symbols, n: nat): Symbols {
    Triple(d) + core + Repeat(d, n) + Triple(d)
  }

  lemma ClosesEarly(d: char, core: Symbols, n: nat)
    requires n <= 2
    ensures Ending(d, core, n) == Multi(d, core).Render() + Repeat(d, n)
  {}

  /** One delimiter of its own opens another string, which goes on into the rest. */
  lemma OwnDelimiterOpensString(d: char, core: Symbols, rest: Symbols, buffer: Symbols)
    requires IsQuote(Ch(d)) && IsBody(core, d, true) && !IsTriple([Ch(d)] + rest, d)
    ensures Statements(Ending(d, core, 1) + rest, buffer, Plain)
         == Statements(rest, buffer + Ending(d, core, 1), InString(d, false))
  {
    var token, extra := Multi(d, core), Repeat(d, 1);
    ClosesEarly(d, core, 1);
    assert extra == [Ch(d)];
    assert Ending(d, core, 1) + rest == token.Render() + (extra + rest);
    TokenIsOpaque(token, extra + rest, buffer);
    Copied(extra, rest, buffer + token.Render(), Plain, InString(d, false));
    assert buffer + token.Render() + extra == buffer + Ending(d, core, 1);
  }

  lemma TwoOwnDelimiters(d: char, core: Symbols, rest: Symbols, buffer: Symbols)
    requires IsQuote(Ch(d)) && IsBody(core, d, true) && (rest == [] || rest[0] != Ch(d))
    ensures Statements(Ending(d, core, 2) + rest, buffer, Plain) == Statements(rest, buffer + Ending(d, core, 2), Plain)
  {
    var token, empty := Multi(d, core), Single(d, []);
    ClosesEarly(d, core, 2);
    assert Repeat(d, 2) == empty.Render();
    assert Ending(d, core, 2) + rest == token.Render() + (empty.Render() + rest);
    TokenIsOpaque(token, empty.Render() + rest, buffer);
    TokenIsOpaque(empty, rest, buffer + token.Render());
    assert buffer + token.Render() + empty.Render() == buffer + Ending(d, core, 2);
  }

  lemma NoOwnDelimiter(d: char, core: Symbols, rest: Symbols, buffer: Symbols)
    requires IsQuote(Ch(d)) && IsBody(core, d, true)
    ensures Statements(Ending(d, core, 0) + rest, buffer, Plain) == Statements(rest, buffer + Ending(d, core, 0), Plain)
  {
    ClosesEarly(d, core, 0);
    assert Ending(d, core, 0) == Multi(d, core).Render();
    TokenIsOpaque(Multi(d, core), rest, buffer);
  }

  /** Of the three endings TOML allows, the reader takes two: a multiline string, basic
      or literal, is opaque if and only if it does not end in exactly one delimiter of
      its own. */
  lemma MultilineIsOpaqueIff(d: char, core: Symbols, n: nat)
    requires IsQuote(Ch(d)) && IsBody(core, d, true) && n <= 2
    ensures IsOpaque(Ending(d, core, n), d) <==> n != 1
  {
    if n == 1 {
      OwnDelimiterOpensString(d, core, [], []);
      assert Ending(d, core, 1) + [] == Ending(d, core, 1);
      assert Statements([], [] + Ending(d, core, 1), Plain) != [];
    } else {
      forall rest: Symbols, buffer: Symbols | rest == [] || rest[0] != Ch(d)
        ensures Statements(Ending(d, core, n) + rest, buffer, Plain)
             == Statements(rest, buffer + Ending(d, core, n), Plain)
      {
        if n == 0 {
          NoOwnDelimiter(d, core, rest, buffer);
        } else {
          TwoOwnDelimiters(d, core, rest, buffer);
        }
      }
    }
  }

  /** Text between the stray delimiter and the next one is inside a string. */
  lemma StrayStringCloses(body: Symbols, rest: Symbols, buffer: Symbols)
    requires IsBody(body, '"', false)
    ensures Statements(body + [Ch('"')] + rest, buffer, InString('"', false))
         == Statements(rest, buffer + body + [Ch('"')], Plain)
  {
    BodyIsOpaque(body, '"', false, rest, buffer);
  }

  /** So a `db` line after such a string is not found: its opening quote closes the
      stray string, and its closing quote opens one that never ends. */
  lemma DbAfterOwnQuoteIsLost(key: Symbols, core: Symbols, before: Symbols, p: Symbols, rest: Symbols)
    requires AreRaw(key) && IsBody(core, '"', true)
    requires IsBody(before, '"', false) && before != [] && before[0] != Ch('"')
    requires AreRaw(p) && p != []
    requires Ch('"') !in rest
    ensures TopLevelDatabase(key + (Ending('"', core, 1) + (before + [Ch('"')] + (p + ([Ch('"')] + rest))))) == None
  {
    var quote := [Ch('"')];
    var tail := p + (quote + rest);
    var ending := Ending('"', core, 1);
    RawRun(key, ending + (before + quote + tail), []);
    OwnDelimiterOpensString('"', core, before + quote + tail, [] + key);
    StrayStringCloses(before, tail, [] + key + ending);
    var buffer := [] + key + ending + before + quote;
    RawRun(p, quote + rest, buffer);
    assert rest != [] ==> rest[0] in rest;
    Copied(quote, rest, buffer + p, Plain, InString('"', false));
    Unclosed(rest, buffer + p + quote, false);
  }

  // ----- The loops ------------------------------------------------------------

  function ModeOf(quote: Option<char>, multiline: bool): Mode {
    if quote.Some? then InString(quote.value, multiline) else Plain
  }

  method SkipComment(chars: Symbols, start: nat) returns (index: nat)
    requires start < |chars| && chars[start] == Ch('#')
    ensures start < index <= |chars| && chars[index..] == AfterComment(chars[start + 1..])
  {
    index := start;
    while index < |chars| && !IsNewline(chars[index])
      invariant start <= index <= |chars|
      invariant AfterComment(chars[index..]) == AfterComment(chars[start + 1..])
      invariant index == start ==> !IsNewline(chars[index])
    {
      assert chars[index..][1..] == chars[index + 1..];
      index := index + 1;
    }
  }

  /** Inside a string, and where one opens. */
  method ReadTurn(chars: Symbols, index: nat, quote: Option<char>, multiline: bool)
    returns (copied: nat, quote': Option<char>, multiline': bool)
    requires index < |chars|
    ensures Turn(copied, ModeOf(quote', multiline')) == CopyTurn(chars[index..], ModeOf(quote, multiline))
  {
    var sym := chars[index];
    copied, quote', multiline' := 1, quote, multiline;
    if quote.Some? {
      var delimiter := quote.value;
      if sym == Ch('\\') && delimiter == '"' && index + 1 < |chars| {
        copied := 2;
      } else if sym == Ch(delimiter) {
        if multiline {
          if index + 2 < |chars| && chars[index + 1] == Ch(delimiter) && chars[index + 2] == Ch(delimiter) {
            copied, quote' := 3, None;
          }
        } else {
          quote' := None;
        }
      }
    } else if IsQuote(sym) {
      quote' := Some(sym.c);
      multiline' := index + 2 < |chars| && chars[index + 1] == sym && chars[index + 2] == sym;
      if multiline' {
        copied := 3;
      }
    }
  }

  lemma Slice(chars: Symbols, i: nat, j: nat, n: nat)
    requires i <= j <= |chars| && n <= j - i
    ensures chars[i..j][n..] == chars[i + n..j]
    ensures chars[i..j][..n] == chars[i..i + n]
  {}

  lemma NewlineTurn(statements: seq<Symbols>, chars: Symbols, index: nat, buffer: Symbols)
    requires index < |chars| && IsNewline(chars[index])
    ensures statements + Statements(chars[index..], buffer, Plain)
         == statements + [buffer] + Statements(chars[index + 1..], [], Plain)
  {
    assert chars[index..][1..] == chars[index + 1..];
  }

  lemma CommentTurn(chars: Symbols, index: nat, buffer: Symbols)
    requires index < |chars| && chars[index] == Ch('#')
    ensures Statements(chars[index..], buffer, Plain) == Statements(AfterComment(chars[index + 1..]), buffer, Plain)
  {
    assert chars[index..][1..] == chars[index + 1..];
  }

  lemma OtherTurn(chars: Symbols, index: nat, buffer: Symbols, mode: Mode, copied: nat, next: Mode)
    requires index < |chars| && (mode.Plain? ==> chars[index] != Ch('#') && !IsNewline(chars[index]))
    requires CopyTurn(chars[index..], mode) == Turn(copied, next)
    ensures index + copied <= |chars|
    ensures Statements(chars[index..], buffer, mode)
         == Statements(chars[index + copied..], buffer + chars[index..index + copied], next)
  {
    var head, tail := chars[index..index + copied], chars[index + copied..];
    assert chars[index..] == head + tail;
    Copied(head, tail, buffer, mode, next);
  }

  method SplitStatements(chars: Symbols) returns (statements: seq<Symbols>)
    ensures statements == Statements(chars, [], Plain)
  {
    statements := [];
    var buffer: Symbols := [];
    var quote: Option<char>, multiline, index := None, false, 0;
    assert chars[0..] == chars;
    ghost var all := Statements(chars, [], Plain);
    while index < |chars|
      invariant index <= |chars|
      invariant statements + Statements(chars[index..], buffer, ModeOf(quote, multiline)) == all
      decreases |chars| - index
    {
      if quote.None? && chars[index] == Ch('#') {
        CommentTurn(chars, index, buffer);
        index := SkipComment(chars, index);
      } else if quote.None? && IsNewline(chars[index]) {
        NewlineTurn(statements, chars, index, buffer);
        statements := statements + [buffer];
        buffer := [];
        index := index + 1;
      } else {
        var copied, quote', multiline' := ReadTurn(chars, index, quote, multiline);
        OtherTurn(chars, index, buffer, ModeOf(quote, multiline), copied, ModeOf(quote', multiline'));
        buffer := buffer + chars[index..index + copied];
        index, quote, multiline := index + copied, quote', multiline';
      }
    }
    assert chars[index..] == [];
    if quote.None? {
      statements := statements + [buffer];
    }
  }

  function Prepend(done: string, rest: Option<string>): Option<string> {
    if rest.Some? then Some(done + rest.value) else None
  }

  lemma DecodeStep(result: string, chars: Symbols, index: nat, last: nat, d: char)
    requires index < last <= |chars|
    ensures match FirstUnit(chars[index..last], d)
            case Some(u) =>
              index + u.length <= last &&
              var rest := Decode(chars[index + u.length..last], d);
              Prepend(result, Decode(chars[index..last], d)) == Prepend(result + u.text, rest)
            case None => Decode(chars[index..last], d) == None
  {
    match FirstUnit(chars[index..last], d)
    case Some(u) =>
      Slice(chars, index, last, u.length);
      var rest := Decode(chars[index + u.length..last], d);
      if rest.Some? {
        assert result + u.text + rest.value == result + (u.text + rest.value);
      }
    case None =>
  }

  /** The character spelled at `index`, before the closing delimiter at `last`. */
  method ReadUnit(chars: Symbols, index: nat, last: nat, d: char) returns (u: Option<Unit>)
    requires index < last <= |chars|
    ensures u == FirstUnit(chars[index..last], d)
  {
    var sym := chars[index];
    if sym == Ch(d) || IsNewline(sym) || sym == Ch('\r') {
      return None;
    }
    if sym != Ch('\\') || d != '"' {
      return Some(Unit(sym.Scalars(), 1));
    }
    if index + 1 == last {
      return None;
    }
    var next := chars[index + 1];
    if Escaped(next).Some? {
      return Some(Unit([Escaped(next).value], 2));
    }
    if next != Ch('u') && next != Ch('U') {
      return None;
    }
    var count := if next == Ch('u') then 4 else 8;
    if index + 1 + count >= last {
      return None;
    }
    Slice(chars, index, last, 2);
    Slice(chars, index + 2, last, count);
    assert chars[index..last][2..2 + count] == chars[index..last][2..][..count];
    var code := Number(chars[index + 2..index + 2 + count]);
    return if code.Some? && IsScalar(code.value) then Some(Unit([code.value as char], 2 + count)) else None;
  }

  method ReadStringValue(chars: Symbols) returns (text: Option<string>)
    ensures text == StringValue(chars)
  {
    if |chars| < 2 || !IsQuote(chars[0]) || chars[|chars| - 1] != chars[0] || IsTriple(chars, chars[0].c) {
      return None;
    }
    var d, last := chars[0].c, |chars| - 1;
    var result, index := "", 1;
    ghost var all := Decode(chars[1..last], d);
    assert all.Some? ==> "" + all.value == all.value;
    while index < last
      invariant 1 <= index <= last
      invariant Prepend(result, Decode(chars[index..last], d)) == all
    {
      DecodeStep(result, chars, index, last, d);
      var u := ReadUnit(chars, index, last, d);
      if u.None? {
        return None;
      }
      result := result + u.value.text;
      index := index + u.value.length;
    }
    assert chars[last..last] == [] && result + "" == result;
    return if result == "" then None else Some(result);
  }

  method ReadTopLevelDatabase(content: Symbols) returns (path: Option<string>)
    ensures path == TopLevelDatabase(content)
  {
    var statements := SplitStatements(content);
    for k := 0 to |statements|
      invariant Lookup(statements[k..]) == Lookup(statements)
    {
      assert statements[k..][1..] == statements[k + 1..];
      var line := Trim(statements[k], IsSpace);
      if IsSection(line) {
        return None;
      }
      if KeyOf(line).Some? {
        var key := KeyOf(line).value;
        var named := ReadStringValue(key);
        if key == Text("db") || named == Some("db") {
          path := ReadStringValue(ValueOf(line));
          return;
        }
      }
    }
    return None;
  }
}
