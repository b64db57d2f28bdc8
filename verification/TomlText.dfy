/** Strings as Swift reads them: text written as a TOML basic string (TOML v1.0.0,
    section String), split into Characters, and decoded as
    `app/Sources/DatabaseSelection.swift` does. */
module TomlText {
  import opened Base
  import opened Sequences
  import opened TomlLexer

  // ----- Encoding -------------------------------------------------------------

  predicate IsEscaped(c: char) {
    c == '"' || c == '\\' || c < ' ' || c == 127 as char
  }

  /** A character as written in a basic string: TOML v1.0.0, section String. */
  function EncodeChar(c: char): string {
    if c == '"' || c == '\\' then ['\\', c]
    else if c == 8 as char then "\\b"
    else if c == '\t' then "\\t"
    else if c == '\n' then "\\n"
    else if c == 12 as char then "\\f"
    else if c == '\r' then "\\r"
    else if IsEscaped(c) then "\\u00" + [Nibble(c as int / 16), Nibble(c as int % 16)]
    else [c]
  }

  function Nibble(n: nat): (c: char)
    requires n < 16
    ensures HexDigit(Ch(c)) == Some(n)
  {
    if n < 10 then ('0' as int + n) as char else ('A' as int + n - 10) as char
  }

  function Encode(p: string): string {
    if p == "" then "" else EncodeChar(p[0]) + Encode(p[1..])
  }

  lemma HexOfFour(a: Sym, b: Sym, c: Sym, d: Sym)
    requires HexDigit(a).Some? && HexDigit(b).Some? && HexDigit(c).Some? && HexDigit(d).Some?
    ensures Hex([a, b, c, d])
         == Some(4096 * HexDigit(a).value + 256 * HexDigit(b).value + 16 * HexDigit(c).value + HexDigit(d).value)
  {
    assert [a, b, c, d][..3] == [a, b, c] && [a, b, c][..2] == [a, b] && [a, b][..1] == [a] && [a][..0] == [];
    assert Hex([a]) == Some(HexDigit(a).value);
    assert Hex([a, b]) == Some(16 * HexDigit(a).value + HexDigit(b).value);
    assert Hex([a, b, c]) == Some(256 * HexDigit(a).value + 16 * HexDigit(b).value + HexDigit(c).value);
  }

  lemma UnitOfEncodedChar(c: char, rest: Symbols)
    ensures FirstUnit(Text(EncodeChar(c)) + rest, '"') == Some(Unit([c], |EncodeChar(c)|))
  {
    var chars := Text(EncodeChar(c)) + rest;
    if |EncodeChar(c)| == 6 {
      assert chars[2..6] == [Ch('0'), Ch('0'), chars[4], chars[5]];
      HexOfFour(Ch('0'), Ch('0'), chars[4], chars[5]);
    }
  }

  // ----- Characters -----------------------------------------------------------

  /** Which scalar joins the one before it into one Character, as a combining mark does
      with any scalar, or any scalar with a prepended sign. Below U+0080 only a line
      feed joins, and only a carriage return. */
  type Joins = (char, char) -> bool

  ghost predicate AreJoins(joins: Joins) {
    forall a, b :: a < 128 as char && b < 128 as char ==> (joins(a, b) <==> a == '\r' && b == '\n')
  }

  /** The length of the Character that `text` starts with. */
  function CharacterLength(text: string, joins: Joins): (n: nat)
    requires text != ""
    ensures 1 <= n <= |text|
    ensures n < |text| ==> !joins(text[n - 1], text[n])
  {
    if |text| == 1 || !joins(text[0], text[1]) then 1 else 1 + CharacterLength(text[1..], joins)
  }

  function CharacterOf(scalars: string): (s: Sym)
    requires scalars != ""
    ensures s.Scalars() == scalars
  {
    if scalars == "\r\n" then CrLf else if |scalars| == 1 then Ch(scalars[0]) else Cluster(scalars)
  }

  /** `Array(content)`. */
  function Characters(text: string, joins: Joins): Symbols
    decreases |text|
  {
    if text == "" then []
    else
      var n := CharacterLength(text, joins);
      [CharacterOf(text[..n])] + Characters(text[n..], joins)
  }

  /** No Character reaches over the seam between `a` and `b`. */
  predicate IsSeam(a: string, b: string, joins: Joins) {
    a == "" || b == "" || !joins(a[|a| - 1], b[0])
  }

  lemma {:induction false} SameFirstCharacter(a: string, b: string, joins: Joins)
    requires a != "" && IsSeam(a, b, joins)
    ensures CharacterLength(a + b, joins) == CharacterLength(a, joins)
    decreases |a|
  {
    if |a| > 1 {
      assert (a + b)[1..] == a[1..] + b && (a + b)[1] == a[1];
      SameFirstCharacter(a[1..], b, joins);
    }
  }

  lemma FirstCharacter(first: string, rest: string, joins: Joins)
    requires first != "" && CharacterLength(first + rest, joins) == |first|
    ensures Characters(first + rest, joins) == [CharacterOf(first)] + Characters(rest, joins)
  {
    assert (first + rest)[..|first|] == first && (first + rest)[|first|..] == rest;
  }

  lemma {:induction false} CharactersSplit(a: string, b: string, joins: Joins)
    requires IsSeam(a, b, joins)
    ensures Characters(a + b, joins) == Characters(a, joins) + Characters(b, joins)
    decreases |a|
  {
    if a == "" {
      assert a + b == b;
    } else {
      var n := CharacterLength(a, joins);
      var first, more := a[..n], a[n..];
      SameFirstCharacter(a, b, joins);
      Parts(a, n);
      Assoc(first, more, b);
      FirstCharacter(first, more, joins);
      FirstCharacter(first, more + b, joins);
      assert more != "" ==> more[|more| - 1] == a[|a| - 1];
      CharactersSplit(more, b, joins);
      Assoc([CharacterOf(first)], Characters(more, joins), Characters(b, joins));
    }
  }

  predicate ArePrintable(text: string) {
    forall i :: 0 <= i < |text| ==> ' ' <= text[i] < 127 as char
  }

  lemma TextCons(c: char, rest: string)
    ensures Text([c] + rest) == [Ch(c)] + Text(rest)
  {}

  lemma {:induction false} PrintableCharacters(text: string, joins: Joins)
    requires AreJoins(joins) && ArePrintable(text)
    ensures Characters(text, joins) == Text(text)
    decreases |text|
  {
    if text != "" {
      var c, rest := text[0], text[1..];
      assert forall i :: 0 <= i < |rest| ==> rest[i] == text[i + 1];
      PrintableCharacters(rest, joins);
      assert text == [c] + rest && CharacterLength(text, joins) == 1;
      FirstCharacter([c], rest, joins);
      TextCons(c, rest);
    }
  }

  lemma PrintablePrefix(prefix: string, rest: string, joins: Joins)
    requires AreJoins(joins) && ArePrintable(prefix) && IsSeam(prefix, rest, joins)
    ensures Characters(prefix + rest, joins) == Text(prefix) + Characters(rest, joins)
  {
    CharactersSplit(prefix, rest, joins);
    PrintableCharacters(prefix, joins);
  }

  // ----- Escapes and literals -------------------------------------------------

  /** The text between the quotes, read. */
  function Reading(text: string, joins: Joins): Option<string> {
    Decode(Characters(text, joins), '"')
  }

  lemma EscapeShape(c: char)
    requires IsEscaped(c)
    ensures |EncodeChar(c)| in {2, 6} && EncodeChar(c)[0] == '\\' && ArePrintable(EncodeChar(c))
    ensures |EncodeChar(c)| == 6 ==> EncodeChar(c)[1] == 'u' && EncodeChar(c)[2] == '0'
  {}

  function Last(c: char): char {
    EncodeChar(c)[|EncodeChar(c)| - 1]
  }

  function First(c: char): char {
    if IsEscaped(c) then '\\' else c
  }

  lemma FirstEncoded(p: string)
    requires p != ""
    ensures Encode(p) != "" && Encode(p)[0] == First(p[0])
  {
    if IsEscaped(p[0]) {
      EscapeShape(p[0]);
    }
  }

  lemma ReadEscape(c: char, rest: string, joins: Joins)
    requires AreJoins(joins) && IsEscaped(c) && IsSeam(EncodeChar(c), rest, joins)
    ensures Reading(EncodeChar(c) + rest, joins) == Push([c], Reading(rest, joins))
  {
    var chars := Characters(rest, joins);
    EscapeShape(c);
    PrintablePrefix(EncodeChar(c), rest, joins);
    UnitOfEncodedChar(c, chars);
    assert (Text(EncodeChar(c)) + chars)[|EncodeChar(c)|..] == chars;
  }

  lemma FusedLast(escape: string, rest: string, joins: Joins)
    requires AreJoins(joins) && escape != "" && ArePrintable(escape) && !IsSeam(escape, rest, joins)
    ensures var chars, n := Characters(escape + rest, joins), |escape| - 1;
      |chars| > n && chars[n].Cluster? && chars[..n] == Text(escape[..n])
  {
    var n := |escape| - 1;
    var tail := [escape[n]] + rest;
    assert escape == escape[..n] + [escape[n]];
    Assoc(escape[..n], [escape[n]], rest);
    PrintablePrefix(escape[..n], tail, joins);
    FirstIsCluster(escape[n], rest, joins);
    var first := Characters(tail, joins);
    assert (Text(escape[..n]) + first)[..n] == Text(escape[..n]) && (Text(escape[..n]) + first)[n] == first[0];
  }

  lemma FirstIsCluster(c: char, rest: string, joins: Joins)
    requires c != '\r' && rest != "" && joins(c, rest[0])
    ensures Characters([c] + rest, joins) != [] && Characters([c] + rest, joins)[0].Cluster?
  {
    var n := CharacterLength([c] + rest, joins);
    assert n > 1 && ([c] + rest)[..n][0] == c;
  }

  /** A scalar that joins an escape takes its last character away. */
  lemma SpoiltEscape(c: char, rest: string, joins: Joins)
    requires AreJoins(joins) && IsEscaped(c) && !IsSeam(EncodeChar(c), rest, joins)
    ensures Reading(EncodeChar(c) + rest, joins) == None
  {
    var escape := EncodeChar(c);
    var chars := Characters(escape + rest, joins);
    EscapeShape(c);
    FusedLast(escape, rest, joins);
    var n := |escape| - 1;
    assert forall k :: 0 <= k < n ==> chars[k] == chars[..n][k] == Ch(escape[k]);
    BrokenEscape(chars, n);
  }

  lemma BrokenEscape(chars: Symbols, n: nat)
    requires n in {1, 5} && n < |chars| && chars[0] == Ch('\\') && chars[n].Cluster?
    requires n == 5 ==> chars[1] == Ch('u') && chars[2] == Ch('0')
    ensures FirstUnit(chars, '"') == None
  {
    if n == 5 {
      ClusterIsNoDigit(chars[2..6], 3);
    }
  }

  lemma {:induction false} ClusterIsNoDigit(digits: Symbols, k: nat)
    requires k < |digits| && digits[k].Cluster?
    ensures Hex(digits) == None
    decreases |digits|
  {
    if k < |digits| - 1 {
      ClusterIsNoDigit(digits[..|digits| - 1], k);
    }
  }

  /** A symbol that a basic string holds as it is. */
  predicate IsLiteral(s: Sym) {
    s != Ch('"') && s != Ch('\\') && !IsNewline(s) && s != Ch('\r')
  }

  predicate AreLiterals(text: string) {
    forall k :: 0 <= k < |text| ==> !IsEscaped(text[k])
  }

  lemma FirstLiteral(c: char, rest: string)
    requires !IsEscaped(c)
    ensures Encode([c] + rest) == [c] + Encode(rest)
  {
    assert ([c] + rest)[1..] == rest;
  }

  lemma {:induction false} EncodedLiterals(literals: string, rest: string)
    requires AreLiterals(literals)
    ensures Encode(literals + rest) == literals + Encode(rest)
    decreases |literals|
  {
    if literals == "" {
      assert literals + rest == rest;
    } else {
      var c, more := literals[0], literals[1..];
      EncodedLiterals(more, rest);
      FirstLiteral(c, more + rest);
      assert literals == [c] + more;
      Assoc([c], more, rest);
      Assoc([c], more, Encode(rest));
    }
  }

  /** Whether the literal before an escape takes the backslash with it. */
  predicate Swallows(p: string, m: nat, joins: Joins)
    requires 0 < m <= |p|
  {
    m < |p| && IsEscaped(p[m]) && joins(p[m - 1], '\\')
  }

  /** The backslash of an escape does not join what it escapes. */
  lemma BackslashIsAlone(p: string, joins: Joins)
    requires AreJoins(joins) && p != "" && IsEscaped(p[0])
    ensures Encode(p) != "" && CharacterLength(Encode(p), joins) == 1
  {
    EscapeShape(p[0]);
    assert Encode(p)[0] == '\\' && Encode(p)[1] == EncodeChar(p[0])[1];
  }

  /** The literals that `p` starts with and that are one Character, and the backslash
      that this Character may swallow. */
  lemma {:induction false} LiteralRun(p: string, joins: Joins) returns (m: nat)
    requires AreJoins(joins) && p != "" && !IsEscaped(p[0])
    ensures 1 <= m <= |p| && AreLiterals(p[..m]) && (m > 1 ==> joins(p[0], p[1]))
    ensures m < |p| && !IsEscaped(p[m]) ==> !joins(p[m - 1], p[m])
    ensures Encode(p) != "" && CharacterLength(Encode(p), joins) == if Swallows(p, m, joins) then m + 1 else m
    decreases |p|
  {
    FirstLiteral(p[0], p[1..]);
    assert p == [p[0]] + p[1..];
    var text := Encode(p);
    assert text[1..] == Encode(p[1..]);
    m := 1;
    if |p| > 1 {
      FirstEncoded(p[1..]);
      assert text[1] == text[1..][0];
      if IsEscaped(p[1]) {
        BackslashIsAlone(p[1..], joins);
      } else if joins(p[0], p[1]) {
        m := LiteralRun(p[1..], joins);
        m := m + 1;
        assert p[..m] == [p[0]] + p[1..][..m - 1];
      }
    }
  }

  lemma ReadLiteral(first: string, rest: string, joins: Joins)
    requires first != "" && CharacterLength(first + rest, joins) == |first| && IsLiteral(CharacterOf(first))
    ensures Reading(first + rest, joins) == Push(first, Reading(rest, joins))
  {
    var chars := Characters(rest, joins);
    FirstCharacter(first, rest, joins);
    assert ([CharacterOf(first)] + chars)[1..] == chars;
  }

  /** Literals that keep to themselves are read as they stand. */
  lemma ReadLiterals(p: string, m: nat, joins: Joins)
    requires 1 <= m <= |p| && AreLiterals(p[..m])
    requires CharacterLength(Encode(p), joins) == m
    ensures Reading(Encode(p), joins) == Push(p[..m], Reading(Encode(p[m..]), joins))
  {
    Parts(p, m);
    EncodedLiterals(p[..m], p[m..]);
    assert p[..m][0] == p[0];
    ReadLiteral(p[..m], Encode(p[m..]), joins);
  }

  /** A swallowed backslash is read as itself, and the rest of its escape after it. */
  lemma ReadSwallowed(p: string, m: nat, joins: Joins)
    requires 1 <= m < |p| && AreLiterals(p[..m]) && IsEscaped(p[m])
    requires CharacterLength(Encode(p), joins) == m + 1
    ensures Reading(Encode(p), joins) ==
      Push(p[..m] + "\\", Reading(EncodeChar(p[m])[1..] + Encode(p[m + 1..]), joins))
  {
    SwallowedText(p, m);
    ReadCluster(p[..m] + "\\", EncodeChar(p[m])[1..] + Encode(p[m + 1..]), joins);
  }

  lemma SwallowedText(p: string, m: nat)
    requires 1 <= m < |p| && AreLiterals(p[..m]) && IsEscaped(p[m])
    ensures Encode(p) == p[..m] + "\\" + (EncodeChar(p[m])[1..] + Encode(p[m + 1..]))
  {
    Parts(p, m);
    EncodedLiterals(p[..m], p[m..]);
    EncodedEscape(p[m..]);
    assert p[m..][1..] == p[m + 1..];
    Assoc(p[..m], "\\", EncodeChar(p[m])[1..] + Encode(p[m + 1..]));
  }

  lemma ReadCluster(first: string, rest: string, joins: Joins)
    requires |first| > 1 && first[0] != '\r' && CharacterLength(first + rest, joins) == |first|
    ensures Reading(first + rest, joins) == Push(first, Reading(rest, joins))
  {
    ReadLiteral(first, rest, joins);
  }

  lemma EncodedEscape(p: string)
    requires p != "" && IsEscaped(p[0])
    ensures Encode(p) == "\\" + (EncodeChar(p[0])[1..] + Encode(p[1..]))
  {
    EscapeShape(p[0]);
    assert EncodeChar(p[0]) == "\\" + EncodeChar(p[0])[1..];
    Assoc("\\", EncodeChar(p[0])[1..], Encode(p[1..]));
  }

  lemma ReadFirstEscape(p: string, joins: Joins)
    requires AreJoins(joins) && p != "" && IsEscaped(p[0])
    ensures Reading(Encode(p), joins) ==
      if IsSeam(EncodeChar(p[0]), Encode(p[1..]), joins) then Push([p[0]], Reading(Encode(p[1..]), joins)) else None
  {
    if IsSeam(EncodeChar(p[0]), Encode(p[1..]), joins) {
      ReadEscape(p[0], Encode(p[1..]), joins);
    } else {
      SpoiltEscape(p[0], Encode(p[1..]), joins);
    }
  }

  // ----- What the reader takes a text for -------------------------------------

  /** How a written text ends: at once, or with a quote that more may stand behind. */
  datatype Ending = AtOnce | Quote(tail: Symbols)
  {
    function Mark(): string {
      if AtOnce? then "" else "\""
    }

    function Behind(): Symbols {
      if AtOnce? then [] else tail
    }
  }

  /** The reader takes `inner` for the text: all of it, or what stands before a quote,
      be it the closing one, one inside the text or one behind it. */
  predicate IsTaken(inner: Symbols, text: string, end: Ending, joins: Joins) {
    match end
    case AtOnce => inner == Characters(text, joins)
    case Quote(tail) => inner + [Ch('"')] <= Characters(text + "\"", joins) + tail
  }

  lemma TakenIsPrefix(inner: Symbols, text: string, end: Ending, joins: Joins)
    requires IsTaken(inner, text, end, joins)
    ensures inner <= Characters(text + end.Mark(), joins) + end.Behind()
  {
    match end
    case AtOnce => assert text + "" == text;
    case Quote(tail) => assert inner <= inner + [Ch('"')];
  }

  lemma PrefixDrop(inner: Symbols, close: Symbols, a: Symbols, rest: Symbols)
    requires |a| <= |inner| && inner + close <= a + rest
    ensures inner[..|a|] == a && inner[|a|..] + close <= rest
  {
    var n := |a|;
    assert inner[..n] == (inner + close)[..n] == (a + rest)[..n];
    assert inner[n..] + close == (inner + close)[n..] && rest == (a + rest)[n..];
  }

  /** Past a part that the reader sees as `seen`. */
  lemma TakenPast(inner: Symbols, first: string, more: string, seen: Symbols, end: Ending, joins: Joins)
    requires IsTaken(inner, first + more, end, joins) && |seen| <= |inner|
    requires Characters(first + (more + end.Mark()), joins) == seen + Characters(more + end.Mark(), joins)
    ensures inner[..|seen|] == seen && IsTaken(inner[|seen|..], more, end, joins)
  {
    match end
    case AtOnce =>
      assert more + "" == more;
    case Quote(tail) =>
      Assoc(first, more, "\"");
      Assoc(seen, Characters(more + "\"", joins), tail);
      PrefixDrop(inner, [Ch('"')], seen, Characters(more + "\"", joins) + tail);
  }

  lemma TakenStep(inner: Symbols, first: string, more: string, end: Ending, joins: Joins)
    requires IsTaken(inner, first + more, end, joins) && inner != [] && first != ""
    requires CharacterLength(first + (more + end.Mark()), joins) == |first|
    ensures inner[0] == CharacterOf(first) && IsTaken(inner[1..], more, end, joins)
  {
    FirstCharacter(first, more + end.Mark(), joins);
    TakenPast(inner, first, more, [CharacterOf(first)], end, joins);
    assert inner[..1][0] == inner[0];
  }

  /** The reader does not stop before a text that starts with no quote. */
  lemma TakenFirst(inner: Symbols, text: string, end: Ending, joins: Joins)
    requires IsTaken(inner, text, end, joins) && text != "" && text[0] != '"'
    ensures inner != []
    ensures var all := text + end.Mark(); inner[0] == CharacterOf(all[..CharacterLength(all, joins)])
    ensures inner[0].Scalars() != "" && inner[0].Scalars()[0] == text[0]
  {
    var all := text + end.Mark();
    var n := CharacterLength(all, joins);
    assert all[..n][0] == text[0];
    var chars := Characters(all, joins);
    assert chars[0] == CharacterOf(all[..n]);
    assert (chars + end.Behind())[0] == chars[0];
    TakenIsPrefix(inner, text, end, joins);
    match end
    case AtOnce =>
      assert text + "" == text;
    case Quote(tail) =>
      assert (inner + [Ch('"')])[0] == chars[0];
  }

  lemma LoneFirst(inner: Symbols, c: char, rest: string, end: Ending, joins: Joins)
    requires IsTaken(inner, [c] + rest, end, joins) && inner != [] && IsSeam([c], rest + end.Mark(), joins)
    ensures inner[0] == Ch(c) && IsTaken(inner[1..], rest, end, joins)
  {
    var all := [c] + (rest + end.Mark());
    assert |all| > 1 ==> all[1] == (rest + end.Mark())[0];
    TakenStep(inner, [c], rest, end, joins);
  }

  lemma SingleTaken(inner: Symbols, text: string, end: Ending, joins: Joins)
    requires IsTaken(inner, text, end, joins) && text != "" && text[0] != '"' && inner != [] && inner[0].Ch?
    ensures inner[0] == Ch(text[0]) && IsTaken(inner[1..], text[1..], end, joins)
  {
    TakenFirst(inner, text, end, joins);
    var all, rest := text + end.Mark(), text[1..] + end.Mark();
    assert inner[0].Scalars() == all[..CharacterLength(all, joins)] && CharacterLength(all, joins) == 1;
    assert text == [text[0]] + text[1..] && all[1..] == rest;
    LoneFirst(inner, text[0], text[1..], end, joins);
  }

  /** The quote joins the first Character only if that is the whole text. */
  lemma {:induction false} MarkedLength(text: string, end: Ending, joins: Joins)
    requires text != ""
    ensures var n := CharacterLength(text, joins);
      CharacterLength(text + end.Mark(), joins) ==
        if n == |text| && end.Quote? && joins(text[n - 1], '"') then n + 1 else n
    decreases |text|
  {
    var mark := end.Mark();
    if |text| > 1 {
      assert (text + mark)[1..] == text[1..] + mark && (text + mark)[1] == text[1];
      MarkedLength(text[1..], end, joins);
    } else if end.Quote? {
      assert (text + mark)[1..] == mark;
    }
  }

  lemma {:induction false} ShortEscape(c: char, inner: Symbols)
    requires IsEscaped(c) && inner != [] && |inner| < |EncodeChar(c)| && inner <= Text(EncodeChar(c))
    ensures Decode(inner, '"') == None
  {
    EscapeShape(c);
    assert inner[0] == Text(EncodeChar(c))[0];
    assert |inner| > 1 ==> inner[1] == Text(EncodeChar(c))[1];
  }

  /** An escape, and then the rest, are read as what they spell. */
  predicate IsSpelled(c: char, inner: Symbols, more: string, end: Ending, joins: Joins) {
    var n := |EncodeChar(c)|;
    && n <= |inner| && inner[..n] == Text(EncodeChar(c)) && IsTaken(inner[n..], more, end, joins)
    && Decode(inner, '"') == Push([c], Decode(inner[n..], '"'))
  }

  /** An escape is read as what it spells, or not at all. */
  lemma TakenEscape(p: string, inner: Symbols, end: Ending, joins: Joins)
    requires AreJoins(joins) && p != "" && IsEscaped(p[0]) && IsTaken(inner, Encode(p), end, joins)
    ensures Decode(inner, '"').None? ||
      (IsSpelled(p[0], inner, Encode(p[1..]), end, joins) && IsSeam(EncodeChar(p[0]), Encode(p[1..]), joins))
  {
    var escape, more := EncodeChar(p[0]), Encode(p[1..]);
    var rest := more + end.Mark();
    EscapeShape(p[0]);
    TakenFirst(inner, Encode(p), end, joins);
    if IsSeam(escape, rest, joins) {
      PrintablePrefix(escape, rest, joins);
      TakenWholeEscape(p[0], inner, more, end, joins);
    } else {
      FusedLast(escape, rest, joins);
      Assoc(escape, more, end.Mark());
      TakenIsPrefix(inner, Encode(p), end, joins);
      TakenSpoilt(p[0], inner, Characters(escape + rest, joins), end.Behind());
    }
  }

  lemma TakenWholeEscape(c: char, inner: Symbols, more: string, end: Ending, joins: Joins)
    requires IsEscaped(c) && inner != [] && IsTaken(inner, EncodeChar(c) + more, end, joins)
    requires var rest := more + end.Mark();
      Characters(EncodeChar(c) + rest, joins) == Text(EncodeChar(c)) + Characters(rest, joins)
    ensures Decode(inner, '"').None? || IsSpelled(c, inner, more, end, joins)
  {
    var seen, n := Text(EncodeChar(c)), |EncodeChar(c)|;
    if n <= |inner| {
      TakenPast(inner, EncodeChar(c), more, seen, end, joins);
      Parts(inner, n);
      UnitOfEncodedChar(c, inner[n..]);
    } else {
      Assoc(EncodeChar(c), more, end.Mark());
      TakenIsPrefix(inner, EncodeChar(c) + more, end, joins);
      ShorterPrefix(inner, seen, Characters(more + end.Mark(), joins), end.Behind());
      ShortEscape(c, inner);
    }
  }

  lemma ShorterPrefix(inner: Symbols, a: Symbols, b: Symbols, c: Symbols)
    requires inner <= a + b + c && |inner| <= |a|
    ensures inner <= a
  {
    assert inner == (a + b + c)[..|inner|] == a[..|inner|];
  }

  lemma TakenSpoilt(c: char, inner: Symbols, chars: Symbols, tail: Symbols)
    requires IsEscaped(c) && inner != [] && inner <= chars + tail
    requires var n := |EncodeChar(c)| - 1;
      0 <= n < |chars| && chars[n].Cluster? && chars[..n] == Text(EncodeChar(c)[..n])
    ensures Decode(inner, '"') == None
  {
    EscapeShape(c);
    var n := |EncodeChar(c)| - 1;
    assert forall k :: 0 <= k < n ==> chars[k] == chars[..n][k] == Ch(EncodeChar(c)[k]);
    assert forall k :: 0 <= k < |inner| && k <= n ==> inner[k] == (chars + tail)[k] == chars[k];
    if |inner| > n {
      BrokenEscape(inner, n);
    } else {
      assert inner == Text(EncodeChar(c))[..|inner|];
      ShortEscape(c, inner);
    }
  }

  lemma LiteralCharacter(first: string)
    requires first != "" && !IsEscaped(first[0])
    ensures IsLiteral(CharacterOf(first))
  {}

  lemma DecodeLiteral(inner: Symbols, first: string)
    requires first != "" && !IsEscaped(first[0]) && inner != [] && inner[0] == CharacterOf(first)
    ensures Decode(inner, '"') == Push(first, Decode(inner[1..], '"'))
  {
    LiteralCharacter(first);
  }

  /** The literals `p` starts with, of one Character, take the closing quote with them. */
  predicate TakesQuote(p: string, m: nat, end: Ending, joins: Joins)
    requires 0 < m <= |p|
  {
    m == |p| && end.Quote? && joins(p[m - 1], '"')
  }

  /** What the Character of those literals is, with the sign that it may swallow. */
  function Swallowing(p: string, m: nat, end: Ending, joins: Joins): string
    requires 0 < m <= |p|
  {
    if Swallows(p, m, joins) then p[..m] + "\\"
    else if TakesQuote(p, m, end, joins) then p[..m] + "\""
    else p[..m]
  }

  /** Literals are read as they stand, with the sign that they swallow. */
  lemma TakenLiterals(p: string, inner: Symbols, end: Ending, joins: Joins) returns (m: nat)
    requires AreJoins(joins) && p != "" && !IsEscaped(p[0]) && IsTaken(inner, Encode(p), end, joins)
    ensures 1 <= m <= |p| && AreLiterals(p[..m]) && (m > 1 ==> joins(p[0], p[1])) && inner != []
    ensures Decode(inner, '"') == Push(Swallowing(p, m, end, joins), Decode(inner[1..], '"'))
    ensures Swallows(p, m, joins) ==> IsTaken(inner[1..], EncodeChar(p[m])[1..] + Encode(p[m + 1..]), end, joins)
    ensures !Swallows(p, m, joins) && !TakesQuote(p, m, end, joins) ==>
      IsTaken(inner[1..], Encode(p[m..]), end, joins) &&
      inner[0] == CharacterOf(p[..m]) && CharacterLength(Encode(p), joins) == m
  {
    FirstEncoded(p);
    TakenFirst(inner, Encode(p), end, joins);
    m := LiteralRun(p, joins);
    assert p[..m][0] == p[0];
    MarkedLength(Encode(p), end, joins);
    if Swallows(p, m, joins) {
      TakenSwallowed(p, m, inner, end, joins);
      DecodeLiteral(inner, p[..m] + "\\");
    } else {
      Parts(p, m);
      EncodedLiterals(p[..m], p[m..]);
      if TakesQuote(p, m, end, joins) {
        assert p[m..] == "" && Encode(p) == p[..m] + "" == p[..m];
        var all := Encode(p) + "\"";
        assert all[..m + 1] == all;
        DecodeLiteral(inner, p[..m] + "\"");
      } else {
        QuoteIsApart(p, m, end, joins);
        Assoc(p[..m], Encode(p[m..]), end.Mark());
        TakenStep(inner, p[..m], Encode(p[m..]), end, joins);
        DecodeLiteral(inner, p[..m]);
      }
    }
  }

  lemma QuoteIsApart(p: string, m: nat, end: Ending, joins: Joins)
    requires 1 <= m <= |p| && Encode(p) == p[..m] + Encode(p[m..]) && !TakesQuote(p, m, end, joins)
    ensures !(m == |Encode(p)| && end.Quote? && joins(Encode(p)[m - 1], '"'))
  {
    if m < |p| {
      FirstEncoded(p[m..]);
    }
  }

  lemma TakenSwallowed(p: string, m: nat, inner: Symbols, end: Ending, joins: Joins)
    requires 1 <= m < |p| && AreLiterals(p[..m]) && IsEscaped(p[m]) && inner != []
    requires IsTaken(inner, Encode(p), end, joins) && CharacterLength(Encode(p), joins) == m + 1
    requires CharacterLength(Encode(p) + end.Mark(), joins) == m + 1 || m + 1 == |Encode(p)|
    ensures var rest := EncodeChar(p[m])[1..] + Encode(p[m + 1..]);
      inner[0] == CharacterOf(p[..m] + "\\") && IsTaken(inner[1..], rest, end, joins)
  {
    var rest := EncodeChar(p[m])[1..] + Encode(p[m + 1..]);
    EscapeShape(p[m]);
    SwallowedText(p, m);
    assert |Encode(p)| > m + 1;
    Assoc(p[..m] + "\\", rest, end.Mark());
    TakenStep(inner, p[..m] + "\\", rest, end, joins);
  }

  // ----- A text that is read as another ---------------------------------------

  predicate AreAsciiLiterals(text: string) {
    forall i :: 0 <= i < |text| ==> text[i] < 128 as char && !IsEscaped(text[i])
  }

  /** Nothing is read with ASCII literals in front that were not written. */
  lemma {:induction false} NothingIsPrepended(w: string, r: string, inner: Symbols, end: Ending, joins: Joins)
    requires AreJoins(joins) && w != "" && AreAsciiLiterals(w) && IsTaken(inner, Encode(r), end, joins)
    ensures Decode(inner, '"') != Some(w + r)
    decreases |r|
  {
    if r == "" {
      NothingBeforeQuote(inner, end, joins);
    } else if IsEscaped(r[0]) {
      TakenEscape(r, inner, end, joins);
      assert (w + r)[0] == w[0];
    } else {
      var m := TakenLiterals(r, inner, end, joins);
      if m > 1 || Swallows(r, m, joins) || TakesQuote(r, m, end, joins) {
        FarFromAscii(w, r, m, Swallowing(r, m, end, joins), joins);
      } else {
        NothingIsPrepended(w[1..] + [w[0]], r[1..], inner[1..], end, joins);
        Rotated(w, r, Decode(inner[1..], '"'));
        assert r[..m] == [r[0]];
      }
    }
  }

  /** Of no text nothing is read. */
  lemma NothingBeforeQuote(inner: Symbols, end: Ending, joins: Joins)
    requires AreJoins(joins) && IsTaken(inner, "", end, joins)
    ensures inner == [] || (inner[0] == Ch('"') && Decode(inner, '"') == None)
  {
    if end.Quote? && inner != [] {
      PrintableCharacters("\"", joins);
      assert "" + "\"" == "\"";
      assert (inner + [Ch('"')])[0] == (Text("\"") + end.tail)[0];
    }
  }

  lemma Rotated(w: string, r: string, reading: Option<string>)
    requires w != "" && r != "" && reading != Some(w[1..] + [w[0]] + r[1..])
    ensures Push([r[0]], reading) != Some(w + r)
  {
    var rotated := w[1..] + [w[0]] + r[1..];
    if reading.Some? {
      assert ([r[0]] + reading.value)[0] == r[0] && (w + r)[0] == w[0];
      assert r[0] == w[0] ==> w + r == [r[0]] + rotated;
      SameHead([r[0]], reading.value, rotated);
    }
  }

  /** A Character of several scalars is not ASCII, so no text that starts with it starts
      with `w`, or with one character of `w` and then `r`. */
  lemma FarFromAscii(w: string, r: string, m: nat, first: string, joins: Joins)
    requires AreJoins(joins) && w != "" && AreAsciiLiterals(w) && 1 <= m <= |r| && AreLiterals(r[..m])
    requires r[..m] <= first && (m > 1 ==> joins(r[0], r[1]))
    requires m == 1 ==> joins(r[0], '\\') || joins(r[0], '"')
    ensures forall v: string :: first + v != w + r
  {
    assert r[0] == r[..m][0] == first[0];
    forall v: string
      ensures first + v != w + r
    {
      assert (first + v)[0] == r[0] && (w + r)[0] == w[0];
      if m > 1 {
        assert r[1] == r[..m][1] == first[1] == (first + v)[1];
        assert (w + r)[1] == if |w| > 1 then w[1] else r[0];
      }
    }
  }

  lemma {:induction false} HexDigits(digits: Symbols)
    requires Hex(digits).Some?
    ensures forall i :: 0 <= i < |digits| ==> HexDigit(digits[i]).Some?
    decreases |digits|
  {
    if digits != [] {
      HexDigits(digits[..|digits| - 1]);
    }
  }

  predicate AreAsciiSymbols(chars: Symbols) {
    forall i :: 0 <= i < |chars| ==> chars[i].Ch? && chars[i].c < 128 as char && !IsEscaped(chars[i].c)
  }

  lemma NumberIsAscii(digits: Symbols)
    requires Number(digits).Some?
    ensures AreAsciiSymbols(digits)
  {
    if |digits| > 1 && (digits[0] == Ch('+') || digits[0] == Ch('-')) {
      HexDigits(digits[1..]);
      assert forall i :: 0 < i < |digits| ==> digits[i] == digits[1..][i - 1];
    } else {
      HexDigits(digits);
    }
  }

  /** A single scalar at the start of what is read is the first character written. */
  lemma SingleFirst(q: string, inner: Symbols, end: Ending, joins: Joins)
    requires AreJoins(joins) && IsTaken(inner, Encode(q), end, joins)
    requires inner != [] && inner[0].Ch? && !IsEscaped(inner[0].c)
    ensures q != "" && !IsEscaped(q[0]) && inner[0] == Ch(q[0]) && IsTaken(inner[1..], Encode(q[1..]), end, joins)
  {
    if q == "" {
      NothingBeforeQuote(inner, end, joins);
    } else {
      FirstEncoded(q);
      SingleTaken(inner, Encode(q), end, joins);
      AfterLiteral(q);
    }
  }

  lemma AfterLiteral(q: string)
    requires q != "" && !IsEscaped(q[0])
    ensures Encode(q) == [q[0]] + Encode(q[1..]) && Encode(q)[1..] == Encode(q[1..])
  {
    assert EncodeChar(q[0]) == [q[0]];
  }

  /** ASCII literals at the start of what is read were written as they are. */
  lemma {:induction false} AsciiFirst(q: string, inner: Symbols, n: nat, end: Ending, joins: Joins)
    requires AreJoins(joins) && IsTaken(inner, Encode(q), end, joins)
    requires n <= |inner| && AreAsciiSymbols(inner[..n])
    ensures n <= |q| && AreAsciiLiterals(q[..n]) && IsTaken(inner[n..], Encode(q[n..]), end, joins)
    decreases n
  {
    if n == 0 {
      assert q[0..] == q && inner[0..] == inner;
    } else {
      LaterSymbols(inner, n);
      SingleFirst(q, inner, end, joins);
      AsciiFirst(q[1..], inner[1..], n - 1, end, joins);
      FirstIsAsciiToo(q, n);
      Later(inner, n);
    }
  }

  lemma Later<T>(s: seq<T>, n: nat)
    requires 0 < n <= |s|
    ensures s[1..][n - 1..] == s[n..]
  {}

  lemma LaterSymbols(inner: Symbols, n: nat)
    requires 0 < n <= |inner| && AreAsciiSymbols(inner[..n])
    ensures inner[0].Ch? && inner[0].c < 128 as char && !IsEscaped(inner[0].c)
    ensures AreAsciiSymbols(inner[1..][..n - 1])
  {
    assert forall i :: 0 <= i < n ==> inner[i] == inner[..n][i];
  }

  lemma FirstIsAsciiToo(q: string, n: nat)
    requires 0 < n <= |q| && AreAsciiLiterals(q[1..][..n - 1]) && q[0] < 128 as char && !IsEscaped(q[0])
    ensures AreAsciiLiterals(q[..n]) && q[1..][n - 1..] == q[n..]
  {
    var more := q[1..][..n - 1];
    assert q[..n] == [q[0]] + more;
    Later(q, n);
  }

  /** A backslash before a literal does not give that literal. */
  lemma LiteralIsNotEscaped(q: string, inner: Symbols, end: Ending, joins: Joins)
    requires AreJoins(joins) && q != "" && !IsEscaped(q[0]) && IsTaken(inner, Encode(q), end, joins)
    ensures Decode([Ch('\\')] + inner, '"') != Some(q)
  {
    FirstEncoded(q);
    TakenFirst(inner, Encode(q), end, joins);
    if inner[0] == Ch('u') || inner[0] == Ch('U') {
      var n := if inner[0] == Ch('u') then 4 else 8;
      NumberedUnit(inner, n);
      NotSpelledOut(q, n, inner, end, joins);
    } else if Escaped(inner[0]).Some? {
      ShortUnit(inner);
      EscapedDiffers(inner[0], q[0]);
      OtherStart(q, Escaped(inner[0]).value, Decode(inner[1..], '"'));
    } else {
      NoUnit(inner);
    }
  }

  lemma NotSpelledOut(q: string, n: nat, inner: Symbols, end: Ending, joins: Joins)
    requires AreJoins(joins) && 0 < n && IsTaken(inner, Encode(q), end, joins)
    requires inner != [] && inner[0] in {Ch('u'), Ch('U')}
    ensures 1 + n <= |inner| && Number(inner[1..1 + n]).Some? ==>
        forall c: char :: Push([c], Decode(inner[1 + n..], '"')) != Some(q)
  {
    if 1 + n <= |inner| && Number(inner[1..1 + n]).Some? {
      NumberIsAscii(inner[1..1 + n]);
      SpelledOut(q, n, inner, end, joins);
    }
  }

  lemma EscapedDiffers(s: Sym, c: char)
    requires Escaped(s).Some? && s.Scalars()[0] == c && !IsEscaped(c)
    ensures Escaped(s).value != c
  {}

  lemma OtherStart(q: string, c: char, reading: Option<string>)
    requires q != "" && c != q[0]
    ensures Push([c], reading) != Some(q)
  {
    if reading.Some? {
      assert ([c] + reading.value)[0] == c;
    }
  }

  lemma NoUnit(rest: Symbols)
    requires rest != [] && Escaped(rest[0]).None? && rest[0] !in {Ch('u'), Ch('U')}
    ensures Decode([Ch('\\')] + rest, '"') == None
  {}

  lemma ShortUnit(rest: Symbols)
    requires rest != [] && Escaped(rest[0]).Some?
    ensures Decode([Ch('\\')] + rest, '"') == Push([Escaped(rest[0]).value], Decode(rest[1..], '"'))
  {
    Cons(Ch('\\'), rest, 2);
  }

  lemma FirstNumbered(chars: Symbols, n: nat)
    requires |chars| > 1 && chars[0] == Ch('\\')
    requires (chars[1] == Ch('u') && n == 4) || (chars[1] == Ch('U') && n == 8)
    ensures FirstUnit(chars, '"') ==
      if |chars| < 2 + n then None
      else
        var code := Number(chars[2..2 + n]);
        if code.Some? && IsScalar(code.value) then Some(Unit([code.value as char], 2 + n)) else None
  {}

  /** A numbered escape gives one character, and then what follows its digits. */
  lemma NumberedUnit(rest: Symbols, n: nat)
    requires rest != [] && ((rest[0] == Ch('u') && n == 4) || (rest[0] == Ch('U') && n == 8))
    ensures var reading := Decode([Ch('\\')] + rest, '"');
      reading.None? || (1 + n <= |rest| && Number(rest[1..1 + n]).Some? &&
                        exists c: char :: reading == Push([c], Decode(rest[1 + n..], '"')))
  {
    var chars := [Ch('\\')] + rest;
    FirstNumbered(chars, n);
    if 1 + n <= |rest| {
      TakeAfter(Ch('\\'), rest, n);
    }
  }

  lemma TakeAfter(s: Sym, rest: Symbols, n: nat)
    requires 1 + n <= |rest|
    ensures ([s] + rest)[2..2 + n] == rest[1..1 + n] && ([s] + rest)[2 + n..] == rest[1 + n..]
  {}

  /** A character spelled by its number is not the text of that spelling. */
  lemma SpelledOut(q: string, n: nat, inner: Symbols, end: Ending, joins: Joins)
    requires AreJoins(joins) && 0 < n && 1 + n <= |inner| && IsTaken(inner, Encode(q), end, joins)
    requires AreAsciiSymbols(inner[1..1 + n]) && inner[0] in {Ch('u'), Ch('U')}
    ensures forall c: char :: Push([c], Decode(inner[1 + n..], '"')) != Some(q)
  {
    SingleFirst(q, inner, end, joins);
    var rest := inner[1..];
    assert rest[..n] == inner[1..1 + n] && rest[n..] == inner[1 + n..];
    AsciiFirst(q[1..], rest, n, end, joins);
    var w, r := q[1..][..n], q[1..][n..];
    NothingIsPrepended(w, r, rest[n..], end, joins);
    Parts(q[1..], n);
    NotPushed(q, w + r, Decode(rest[n..], '"'));
  }

  lemma NotPushed(q: string, more: string, reading: Option<string>)
    requires q != "" && q[1..] == more && reading != Some(more)
    ensures forall c: char :: Push([c], reading) != Some(q)
  {
    if reading.Some? {
      forall c: char
        ensures [c] + reading.value != q
      {
        assert ([c] + reading.value)[1..] == reading.value;
      }
    }
  }

  /** A backslash in front of a written text is never undone. */
  lemma {:induction false} BackslashStays(q: string, inner: Symbols, end: Ending, joins: Joins)
    requires AreJoins(joins) && IsTaken(inner, "\\" + Encode(q), end, joins)
    ensures Decode(inner, '"') != Some(q)
    decreases |q|
  {
    TakenFirst(inner, "\\" + Encode(q), end, joins);
    if q == "" {
      FirstTextIsLong(inner);
    } else if IsEscaped(q[0]) {
      TakenBackslashes(q, inner, end, joins);
      if |inner| > 1 && q[0] == '\\' {
        assert EncodeChar(q[0])[1..] == "\\";
        BackslashStays(q[1..], inner[2..], end, joins);
        NotPushed(q, q[1..], Decode(inner[2..], '"'));
      }
    } else if IsSeam("\\", Encode(q), joins) {
      TakenBackslash(q, inner, end, joins);
      LiteralIsNotEscaped(q, inner[1..], end, joins);
      assert inner == [Ch('\\')] + inner[1..];
    } else {
      BackslashJoins(q, inner, end, joins);
    }
  }

  /** What starts with a scalar is not read as the empty text. */
  lemma FirstTextIsLong(inner: Symbols)
    requires inner != [] && inner[0].Scalars() != ""
    ensures Decode(inner, '"') != Some("")
  {}

  lemma TakenBackslash(q: string, inner: Symbols, end: Ending, joins: Joins)
    requires AreJoins(joins) && q != "" && IsTaken(inner, "\\" + Encode(q), end, joins)
    requires inner != [] && IsSeam("\\", Encode(q), joins)
    ensures inner[0] == Ch('\\') && IsTaken(inner[1..], Encode(q), end, joins)
  {
    FirstEncoded(q);
    LoneFirst(inner, '\\', Encode(q), end, joins);
  }

  /** A backslash before an escape takes the backslash of that escape. */
  lemma TakenBackslashes(q: string, inner: Symbols, end: Ending, joins: Joins)
    requires AreJoins(joins) && q != "" && IsEscaped(q[0]) && inner != []
    requires IsTaken(inner, "\\" + Encode(q), end, joins)
    ensures |inner| == 1 ==> Decode(inner, '"') == None
    ensures |inner| > 1 ==>
      && Decode(inner, '"') == Push("\\", Decode(inner[2..], '"'))
      && IsTaken(inner[2..], EncodeChar(q[0])[1..] + Encode(q[1..]), end, joins)
  {
    FirstEncoded(q);
    TakenBackslash(q, inner, end, joins);
    if |inner| > 1 {
      var rest := EncodeChar(q[0])[1..] + Encode(q[1..]);
      EncodedEscape(q);
      AfterBackslash(q[0], Encode(q[1..]));
      LoneFirst(inner[1..], '\\', rest, end, joins);
      TwoBackslashes(inner);
    }
  }

  lemma AfterBackslash(c: char, more: string)
    requires IsEscaped(c)
    ensures var rest := EncodeChar(c)[1..] + more; rest != "" && rest[0] < 128 as char
  {
    EscapeShape(c);
    assert (EncodeChar(c)[1..] + more)[0] == EncodeChar(c)[1];
  }

  lemma TwoBackslashes(inner: Symbols)
    requires |inner| > 1 && inner[0] == inner[1] == Ch('\\')
    ensures Decode(inner, '"') == Push("\\", Decode(inner[2..], '"')) && inner[1..][1..] == inner[2..]
  {}

  /** A joined backslash is read as itself. */
  lemma BackslashJoins(q: string, inner: Symbols, end: Ending, joins: Joins)
    requires AreJoins(joins) && q != "" && !IsEscaped(q[0]) && !IsSeam("\\", Encode(q), joins)
    requires IsTaken(inner, "\\" + Encode(q), end, joins)
    ensures Decode(inner, '"') != Some(q)
  {
    TakenFirst(inner, "\\" + Encode(q), end, joins);
    Assoc("\\", Encode(q), end.Mark());
    var rest := Encode(q) + end.Mark();
    assert rest[0] == Encode(q)[0];
    FirstIsCluster('\\', rest, joins);
    OtherFirst(q, inner);
  }

  lemma OtherFirst(q: string, inner: Symbols)
    requires inner != [] && inner[0].Cluster? && inner[0].scalars != "" && q != "" && inner[0].scalars[0] != q[0]
    ensures Decode(inner, '"') != Some(q)
  {
    var reading := Decode(inner[1..], '"');
    assert Decode(inner, '"') == Push(inner[0].scalars, reading);
    if reading.Some? {
      assert (inner[0].scalars + reading.value)[0] == inner[0].scalars[0];
    }
  }

  /** Where the quote that ends a text may be any, the whole text is read as itself only
      if it ends at its own quote. */
  lemma {:induction false} OnlyTheWhole(p: string, inner: Symbols, tail: Symbols, joins: Joins)
    requires AreJoins(joins) && IsTaken(inner, Encode(p), Quote(tail), joins) && Decode(inner, '"') == Some(p)
    ensures inner == Characters(Encode(p), joins) && IsSeam(Encode(p), "\"", joins)
    decreases |p|
  {
    var end := Quote(tail);
    if p == "" {
      NothingBeforeQuote(inner, end, joins);
    } else if IsEscaped(p[0]) {
      TakenEscape(p, inner, end, joins);
      WholeAfterEscape(p, inner, tail, joins);
    } else {
      var m := TakenLiterals(p, inner, end, joins);
      var first, reading := Swallowing(p, m, end, joins), Decode(inner[1..], '"');
      if Swallows(p, m, joins) {
        SwallowedIsAnother(p, m, inner[1..], end, joins);
      } else if !TakesQuote(p, m, end, joins) {
        assert (first + reading.value)[m..] == reading.value;
        OnlyTheWhole(p[m..], inner[1..], tail, joins);
        WholeAfterLiterals(p, m, inner, joins);
      }
    }
  }

  lemma {:induction false} WholeAfterEscape(p: string, inner: Symbols, tail: Symbols, joins: Joins)
    requires AreJoins(joins) && p != "" && IsEscaped(p[0]) && Decode(inner, '"') == Some(p)
    requires IsSpelled(p[0], inner, Encode(p[1..]), Quote(tail), joins)
    requires IsSeam(EncodeChar(p[0]), Encode(p[1..]), joins)
    ensures inner == Characters(Encode(p), joins) && IsSeam(Encode(p), "\"", joins)
    decreases |p|, 0
  {
    var n := |EncodeChar(p[0])|;
    var reading := Decode(inner[n..], '"');
    assert ([p[0]] + reading.value)[1..] == reading.value;
    OnlyTheWhole(p[1..], inner[n..], tail, joins);
    EscapeShape(p[0]);
    SeamAfter(EncodeChar(p[0]), Encode(p[1..]), joins);
    PrintablePrefix(EncodeChar(p[0]), Encode(p[1..]), joins);
    Parts(inner, n);
  }

  lemma WholeAfterLiterals(p: string, m: nat, inner: Symbols, joins: Joins)
    requires 1 <= m <= |p| && AreLiterals(p[..m]) && inner != [] && inner[0] == CharacterOf(p[..m])
    requires CharacterLength(Encode(p), joins) == m && (m == |p| ==> !joins(p[m - 1], '"'))
    requires inner[1..] == Characters(Encode(p[m..]), joins) && IsSeam(Encode(p[m..]), "\"", joins)
    ensures inner == Characters(Encode(p), joins) && IsSeam(Encode(p), "\"", joins)
  {
    var first, rest := p[..m], Encode(p[m..]);
    Parts(p, m);
    EncodedLiterals(first, p[m..]);
    FirstCharacter(first, rest, joins);
    WholeFrom(inner, CharacterOf(first), Characters(rest, joins));
    assert rest == "" ==> m == |p| by {
      if m < |p| {
        FirstEncoded(p[m..]);
      }
    }
    assert first[m - 1] == p[m - 1];
    SeamAfter(first, rest, joins);
  }

  lemma WholeFrom(inner: Symbols, s: Sym, rest: Symbols)
    requires inner != [] && inner[0] == s && inner[1..] == rest
    ensures inner == [s] + rest
  {}

  lemma SeamAfter(first: string, rest: string, joins: Joins)
    requires first != "" && IsSeam(if rest == "" then first else rest, "\"", joins)
    ensures IsSeam(first + rest, "\"", joins)
  {}

  /** A swallowed backslash is not undone by what follows it. */
  lemma SwallowedIsAnother(p: string, m: nat, rest: Symbols, end: Ending, joins: Joins)
    requires AreJoins(joins) && 0 < m < |p| && IsEscaped(p[m])
    requires IsTaken(rest, EncodeChar(p[m])[1..] + Encode(p[m + 1..]), end, joins)
    ensures Push(p[..m] + "\\", Decode(rest, '"')) != Some(p)
    ensures Decode(rest, '"').Some? ==> '\\' in p[..m] + "\\" + Decode(rest, '"').value
  {
    if p[m] == '\\' {
      assert EncodeChar(p[m])[1..] == "\\";
      BackslashStays(p[m + 1..], rest, end, joins);
    }
    if Decode(rest, '"').Some? {
      ReadAsAnother(p, m, Decode(rest, '"').value);
    }
  }

  lemma ReadAsAnother(p: string, m: nat, v: string)
    requires m < |p| && (p[m] == '\\' ==> v != p[m + 1..])
    ensures p[..m] + "\\" + v != p && '\\' in p[..m] + "\\" + v
  {
    var all := p[..m] + "\\" + v;
    assert all[m] == '\\' && all[m + 1..] == v;
  }

  // ----- Exactly which paths come back ----------------------------------------

  /** An escape of `p` is joined to its neighbour. */
  predicate IsFused(p: string, i: nat, joins: Joins)
    requires 0 < i < |p|
  {
    (IsEscaped(p[i - 1]) || IsEscaped(p[i])) && joins(Last(p[i - 1]), First(p[i]))
  }

  predicate IsWritable(p: string, joins: Joins) {
    forall i :: 0 < i < |p| ==> !IsFused(p, i, joins)
  }

  lemma WritableFrom(p: string, n: nat, joins: Joins)
    requires 0 < n <= |p| && forall i :: 0 < i < n ==> !IsFused(p, i, joins)
    ensures IsWritable(p, joins) <==> IsWritable(p[n..], joins) && (n < |p| ==> !IsFused(p, n, joins))
  {
    assert forall i :: n < i < |p| ==> (IsFused(p, i, joins) <==> IsFused(p[n..], i - n, joins));
    if IsWritable(p[n..], joins) && (n < |p| ==> !IsFused(p, n, joins)) {
      forall i | n < i < |p|
        ensures !IsFused(p, i, joins)
      {
        assert !IsFused(p[n..], i - n, joins);
      }
    } else if !IsWritable(p[n..], joins) {
      var j :| 0 < j < |p[n..]| && IsFused(p[n..], j, joins);
      assert IsFused(p, n + j, joins);
    }
  }

  lemma EscapeSeam(p: string, joins: Joins)
    requires AreJoins(joins) && p != "" && IsEscaped(p[0])
    ensures IsSeam(EncodeChar(p[0]), Encode(p[1..]), joins) <==> |p| == 1 || !IsFused(p, 1, joins)
  {
    EscapeShape(p[0]);
    if |p| > 1 {
      FirstEncoded(p[1..]);
    }
  }

  lemma WritableAfterEscape(p: string, joins: Joins)
    requires AreJoins(joins) && p != "" && IsEscaped(p[0])
    ensures IsWritable(p, joins) <==>
      IsWritable(p[1..], joins) && IsSeam(EncodeChar(p[0]), Encode(p[1..]), joins)
  {
    WritableFrom(p, 1, joins);
    EscapeSeam(p, joins);
  }

  /** What is read is either exactly what was written, or shows that it is not. */
  predicate IsFaithful(p: string, reading: Option<string>, writable: bool) {
    if writable then reading == Some(p) else reading != Some(p) && (reading.Some? ==> '\\' in reading.value)
  }

  lemma FaithfulAfter(first: string, rest: string, reading: Option<string>, writable: bool)
    requires IsFaithful(rest, reading, writable)
    ensures IsFaithful(first + rest, Push(first, reading), writable)
  {
    if reading.Some? {
      assert (first + reading.value)[|first|..] == reading.value && (first + rest)[|first|..] == rest;
    }
  }

  /** A string comes back from its basic-string form if and only if no escape of it is
      joined to a neighbour. Otherwise nothing comes back, or a text with a backslash
      that is not the one written. */
  lemma {:induction false} DecodeEncode(p: string, joins: Joins)
    requires AreJoins(joins)
    ensures IsFaithful(p, Reading(Encode(p), joins), IsWritable(p, joins))
    decreases |p|
  {
    if p != "" && IsEscaped(p[0]) {
      DecodeEncode(p[1..], joins);
      FaithfulEscape(p, joins);
    } else if p != "" {
      var m := LiteralRun(p, joins);
      if Swallows(p, m, joins) {
        SwallowedIsNotFaithful(p, m, joins);
        assert IsFused(p, m, joins) by { assert p[..m][m - 1] == p[m - 1]; }
      } else {
        DecodeEncode(p[m..], joins);
        FaithfulLiterals(p, m, joins);
      }
    }
  }

  lemma FaithfulEscape(p: string, joins: Joins)
    requires AreJoins(joins) && p != "" && IsEscaped(p[0])
    requires IsFaithful(p[1..], Reading(Encode(p[1..]), joins), IsWritable(p[1..], joins))
    ensures IsFaithful(p, Reading(Encode(p), joins), IsWritable(p, joins))
  {
    WritableAfterEscape(p, joins);
    ReadFirstEscape(p, joins);
    var seam := IsSeam(EncodeChar(p[0]), Encode(p[1..]), joins);
    FaithfulPush(p, Reading(Encode(p[1..]), joins), IsWritable(p[1..], joins), seam);
  }

  lemma FaithfulPush(p: string, reading: Option<string>, writable: bool, seam: bool)
    requires p != "" && IsFaithful(p[1..], reading, writable)
    ensures IsFaithful(p, if seam then Push([p[0]], reading) else None, writable && seam)
  {
    FaithfulAfter([p[0]], p[1..], reading, writable);
    assert [p[0]] + p[1..] == p;
  }

  lemma LiteralsAreNotFused(p: string, m: nat, joins: Joins)
    requires 1 <= m <= |p| && AreLiterals(p[..m]) && !Swallows(p, m, joins)
    ensures forall i :: 0 < i <= m && i < |p| ==> !IsFused(p, i, joins)
  {
    assert forall i :: 0 <= i < m ==> p[i] == p[..m][i];
  }

  lemma FaithfulLiterals(p: string, m: nat, joins: Joins)
    requires 1 <= m <= |p| && AreLiterals(p[..m]) && CharacterLength(Encode(p), joins) == m && !Swallows(p, m, joins)
    requires IsFaithful(p[m..], Reading(Encode(p[m..]), joins), IsWritable(p[m..], joins))
    ensures IsFaithful(p, Reading(Encode(p), joins), IsWritable(p, joins))
  {
    LiteralsAreNotFused(p, m, joins);
    WritableFrom(p, m, joins);
    ReadLiterals(p, m, joins);
    FaithfulAfter(p[..m], p[m..], Reading(Encode(p[m..]), joins), IsWritable(p[m..], joins));
    Parts(p, m);
  }

  lemma SwallowedIsNotFaithful(p: string, m: nat, joins: Joins)
    requires AreJoins(joins) && 1 <= m < |p| && AreLiterals(p[..m]) && IsEscaped(p[m])
    requires CharacterLength(Encode(p), joins) == m + 1
    ensures IsFaithful(p, Reading(Encode(p), joins), false)
  {
    var rest := EncodeChar(p[m])[1..] + Encode(p[m + 1..]);
    ReadSwallowed(p, m, joins);
    SwallowedIsAnother(p, m, Characters(rest, joins), AtOnce, joins);
  }

  /** No literal of the path joins the backslash of an escape after it. */
  predicate KeepsEscapes(p: string, joins: Joins) {
    forall i :: 0 < i < |p| && IsEscaped(p[i]) && !IsEscaped(p[i - 1]) ==> !joins(p[i - 1], '\\')
  }

  lemma KeepsEscapesFrom(p: string, n: nat, joins: Joins)
    requires n <= |p| && KeepsEscapes(p, joins)
    ensures KeepsEscapes(p[n..], joins)
  {
    assert forall i :: 0 <= i < |p[n..]| ==> p[n..][i] == p[n + i];
  }

  /** Where no backslash is swallowed, a spoilt escape leaves nothing to read. */
  lemma {:induction false} NothingIsRead(p: string, joins: Joins)
    requires AreJoins(joins) && KeepsEscapes(p, joins) && !IsWritable(p, joins)
    ensures Reading(Encode(p), joins) == None
    decreases |p|
  {
    if IsEscaped(p[0]) {
      WritableAfterEscape(p, joins);
      ReadFirstEscape(p, joins);
      KeepsEscapesFrom(p, 1, joins);
      if !IsWritable(p[1..], joins) {
        NothingIsRead(p[1..], joins);
      }
    } else {
      var m := LiteralRun(p, joins);
      assert p[..m][m - 1] == p[m - 1];
      LiteralsAreNotFused(p, m, joins);
      WritableFrom(p, m, joins);
      ReadLiterals(p, m, joins);
      KeepsEscapesFrom(p, m, joins);
      NothingIsRead(p[m..], joins);
    }
  }
}
