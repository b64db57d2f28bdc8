/** Which path the reader of `app/Sources/DatabaseSelection.swift` finds in a document
    that assigns it to `db` as a basic string. */
module TomlPath {
  import opened Base
  import opened Sequences
  import opened TomlLexer
  import opened TomlText

  // ----- Assignments ----------------------------------------------------------

  /** What may stand before an equal sign: bare, dotted and quoted keys. */
  predicate IsKey(key: Symbols) {
    && key != [] && Ch('=') !in key && key[0] != Ch('[')
    && !IsSpace(key[0]) && !IsSpace(key[|key| - 1])
  }

  lemma FindEqual(key: Symbols, blanks: Symbols, value: Symbols)
    requires Ch('=') !in key && All(blanks, IsBlank)
    ensures Find(key + blanks + [Ch('=')] + value, Ch('=')) == |key| + |blanks|
  {
    var line := key + blanks + [Ch('=')] + value;
    assert line[|key| + |blanks|] == Ch('=');
    assert forall k :: 0 <= k < |key| ==> line[k] == key[k] && key[k] in key;
    assert forall k :: |key| <= k < |key| + |blanks| ==> line[k] == blanks[k - |key|];
  }

  lemma KeyAndValue(key: Symbols, blanks: Symbols, value: Symbols)
    requires IsKey(key) && All(blanks, IsBlank)
    ensures KeyOf(key + blanks + [Ch('=')] + value) == Some(key)
    ensures ValueOf(key + blanks + [Ch('=')] + value) == Trim(value, IsSpace)
  {
    var line := key + blanks + [Ch('=')] + value;
    FindEqual(key, blanks, value);
    assert line[..|key| + |blanks|] == [] + key + blanks;
    assert line[|key| + |blanks| + 1..] == value;
    Trimmed([], key, blanks, IsBlank);
  }

  /** A line is passed over if what stands before its first equal sign is another key. */
  lemma CutAtEqual(indent: Symbols, before: Symbols, value: Symbols)
    requires before != [] && Ch('=') !in before && !IsSpace(before[0]) && before[0] != Ch('[')
    requires All(indent, IsBlank) && !NamesDb(Trim(before, IsBlank))
    ensures IsOther(indent + (before + [Ch('=')] + value))
  {
    var head := before + [Ch('=')];
    assert head[0] == before[0];
    TrimStartStops(indent, head + value, IsSpace);
    var left := TrimEndKeeps(head, value, IsSpace);
    FindEqual(before, [], left);
    assert before + [] == before;
    assert (head + left)[..|before|] == before;
  }

  /** Assigning anything to another key is passed over. */
  lemma OtherAssignment(indent: Symbols, key: Symbols, blanks: Symbols, value: Symbols)
    requires IsKey(key) && !NamesDb(key) && All(indent, IsBlank) && All(blanks, IsBlank)
    ensures IsOther(indent + (key + blanks + [Ch('=')] + value))
  {
    Trimmed([], key, blanks, IsBlank);
    assert [] + key + blanks == key + blanks;
    CutAtEqual(indent, key + blanks, value);
  }

  // ----- Quotes ---------------------------------------------------------------

  /** The path between quotes, as the reader sees it. */
  function Quoted(p: string, joins: Joins): Symbols {
    Characters("\"" + Encode(p) + "\"", joins)
  }

  /** A path that is not empty, joins neither quote, and leaves its escapes alone. */
  predicate IsPath(p: string, joins: Joins) {
    p != "" && IsWritable(p, joins) && !joins('"', First(p[0])) && !joins(Last(p[|p| - 1]), '"')
  }

  lemma QuoteCharacter(joins: Joins)
    requires AreJoins(joins)
    ensures Characters("\"", joins) == [Ch('"')]
  {
    PrintableCharacters("\"", joins);
    assert Text("\"") == [Ch('"')];
  }

  lemma QuotesAround(text: string, joins: Joins)
    requires AreJoins(joins) && IsSeam("\"", text, joins) && IsSeam(text, "\"", joins)
    ensures Characters("\"" + text + "\"", joins) == [Ch('"')] + Characters(text, joins) + [Ch('"')]
  {
    Assoc("\"", text, "\"");
    CharactersSplit("\"", text + "\"", joins);
    CharactersSplit(text, "\"", joins);
    QuoteCharacter(joins);
    Assoc([Ch('"')], Characters(text, joins), [Ch('"')]);
  }

  /** Where a text ends in a joined quote, so does its last Character. */
  lemma {:induction false} LastCharacter(text: string, joins: Joins)
    requires text != ""
    ensures Characters(text, joins) != [] && EndsAs(LastOf(Characters(text, joins)).Scalars(), text, joins)
    decreases |text|
  {
    var n := CharacterLength(text, joins);
    if n < |text| {
      LastCharacter(text[n..], joins);
      var rest := Characters(text[n..], joins);
      assert LastOf([CharacterOf(text[..n])] + rest) == LastOf(rest);
    } else {
      assert text[..n] == text;
    }
  }

  function LastOf(chars: Symbols): Sym
    requires chars != []
  {
    chars[|chars| - 1]
  }

  /** The last scalar is the same, and if the text joins it, so is one before it. */
  predicate EndsAs(last: string, text: string, joins: Joins)
    requires text != ""
  {
    && last != "" && last[|last| - 1] == text[|text| - 1]
    && (|text| > 1 && joins(text[|text| - 2], text[|text| - 1]) ==> |last| > 1)
  }

  lemma {:induction false} LastEncoded(p: string)
    requires p != ""
    ensures Encode(p) != "" && Encode(p)[|Encode(p)| - 1] == Last(p[|p| - 1])
    decreases |p|
  {
    FirstEncoded(p);
    if |p| > 1 {
      LastEncoded(p[1..]);
    }
  }

  lemma QuoteSeams(p: string, joins: Joins)
    requires AreJoins(joins)
    ensures IsSeam("\"", Encode(p), joins) && IsSeam(Encode(p), "\"", joins) <==>
      p == "" || (!joins('"', First(p[0])) && !joins(Last(p[|p| - 1]), '"'))
  {
    if p != "" {
      FirstEncoded(p);
      LastEncoded(p);
    }
  }

  /** A quote joined to the path is no quote to the reader. */
  lemma FusedQuote(p: string, joins: Joins)
    requires AreJoins(joins) && !(IsSeam("\"", Encode(p), joins) && IsSeam(Encode(p), "\"", joins))
    ensures StringValue(Quoted(p, joins)) == None
  {
    var text := "\"" + Encode(p) + "\"";
    var value := Quoted(p, joins);
    LastCharacter(text, joins);
    assert text[1] == Encode(p)[0] && text[|text| - 2] == Encode(p)[|Encode(p)| - 1];
    if !IsSeam("\"", Encode(p), joins) {
      assert CharacterLength(text, joins) > 1 && value[0] == CharacterOf(text[..CharacterLength(text, joins)]);
      assert text[..CharacterLength(text, joins)][0] == '"';
    } else {
      assert value[|value| - 1] != Ch('"') && value[|value| - 1] != Ch('\'');
    }
  }

  lemma EncodedStart(p: string, joins: Joins)
    requires p != ""
    ensures Characters(Encode(p), joins) != [] && Characters(Encode(p), joins)[0] != Ch('"')
  {
    FirstEncoded(p);
    var n := CharacterLength(Encode(p), joins);
    assert Encode(p)[..n][0] == Encode(p)[0] != '"';
  }

  /** A quoted string is read as itself if and only if it is such a path. */
  lemma QuotedValueIff(p: string, joins: Joins)
    requires AreJoins(joins)
    ensures StringValue(Quoted(p, joins)) == Some(p) <==> IsPath(p, joins)
    ensures !IsPath(p, joins) && StringValue(Quoted(p, joins)).Some? ==>
      '\\' in StringValue(Quoted(p, joins)).value
  {
    QuoteSeams(p, joins);
    if IsSeam("\"", Encode(p), joins) && IsSeam(Encode(p), "\"", joins) {
      QuotesAround(Encode(p), joins);
      DecodeEncode(p, joins);
      if p != "" {
        EncodedStart(p, joins);
      }
      var value := Quoted(p, joins);
      assert value[1..|value| - 1] == Characters(Encode(p), joins);
    } else {
      FusedQuote(p, joins);
    }
  }

  // ----- Quoted keys ----------------------------------------------------------

  /** A text whose last symbol ends in a backslash is nothing, or shows a backslash. */
  lemma {:induction false} BackslashAtEnd(inner: Symbols)
    requires inner != [] && var last := LastOf(inner).Scalars(); last != "" && last[|last| - 1] == '\\'
    ensures var reading := Decode(inner, '"'); reading.Some? ==> '\\' in reading.value
    decreases |inner|
  {
    var u := FirstUnit(inner, '"');
    if u.Some? {
      var rest := inner[u.value.length..];
      if rest == [] {
        BackslashInUnit(inner);
      } else {
        assert LastOf(rest) == LastOf(inner);
        BackslashAtEnd(rest);
      }
    }
  }

  lemma BackslashInUnit(inner: Symbols)
    requires inner != [] && FirstUnit(inner, '"').Some? && FirstUnit(inner, '"').value.length == |inner|
    requires var last := LastOf(inner).Scalars(); last != "" && last[|last| - 1] == '\\'
    ensures '\\' in FirstUnit(inner, '"').value.text
  {
    if |inner| > 2 {
      assert inner[2..][|inner| - 3] == LastOf(inner);
      NumberIsAscii(inner[2..]);
    }
  }

  lemma SingleAtStart(text: string, joins: Joins)
    requires text != "" && Characters(text, joins)[0].Ch?
    ensures Characters(text, joins)[0] == Ch(text[0]) && (|Characters(text, joins)| > 1 ==> |text| > 1)
  {
    var n := CharacterLength(text, joins);
    assert Characters(text, joins)[0].Scalars() == text[..n] && n == 1;
  }

  /** At `pos` the text has the single scalar that is its symbol `j`, and just before it
      the end of the symbol before. */
  predicate StandsAt(text: string, chars: Symbols, j: nat, pos: nat)
    requires 0 < j < |chars| && chars[j].Ch?
  {
    && 0 < pos < |text| && text[pos] == chars[j].c && (j < |chars| - 1 ==> pos < |text| - 1)
    && var before := chars[j - 1].Scalars(); before != "" && before[|before| - 1] == text[pos - 1]
  }

  lemma StandsLater(text: string, n: nat, first: Sym, rest: Symbols, j: nat, pos: nat)
    requires n <= |text| && 1 < j <= |rest| && rest[j - 1].Ch? && StandsAt(text[n..], rest, j - 1, pos)
    ensures StandsAt(text, [first] + rest, j, n + pos)
  {
    assert ([first] + rest)[j] == rest[j - 1] && ([first] + rest)[j - 1] == rest[j - 2];
    assert text[n..][pos] == text[n + pos] && text[n..][pos - 1] == text[n + pos - 1];
  }

  lemma StandsSecond(text: string, n: nat, rest: Symbols, joins: Joins)
    requires 0 < n < |text| && rest == Characters(text[n..], joins) && rest[0].Ch?
    ensures StandsAt(text, [CharacterOf(text[..n])] + rest, 1, n)
  {
    SingleAtStart(text[n..], joins);
    assert text[..n][n - 1] == text[n - 1] && text[n..][0] == text[n];
  }

  lemma {:induction false} ScalarBefore(text: string, j: nat, joins: Joins) returns (pos: nat)
    requires 0 < j < |Characters(text, joins)| && Characters(text, joins)[j].Ch?
    ensures StandsAt(text, Characters(text, joins), j, pos)
    decreases |text|
  {
    var n := CharacterLength(text, joins);
    var first, rest := CharacterOf(text[..n]), Characters(text[n..], joins);
    if j == 1 {
      pos := n;
      assert ([first] + rest)[1] == rest[0];
      StandsSecond(text, n, rest, joins);
    } else {
      assert ([first] + rest)[j] == rest[j - 1];
      pos := ScalarBefore(text[n..], j - 1, joins);
      StandsLater(text, n, first, rest, j, pos);
      pos := n + pos;
    }
  }

  lemma {:induction false} QuotesAreEscaped(k: string, pos: nat)
    requires pos < |Encode(k)| && Encode(k)[pos] == '"'
    ensures pos > 0 && Encode(k)[pos - 1] == '\\'
    decreases |k|
  {
    var n := |EncodeChar(k[0])|;
    if IsEscaped(k[0]) {
      QuoteInEscape(k[0]);
    }
    if pos >= n {
      QuotesAreEscaped(k[1..], pos - n);
    }
  }

  lemma QuoteInEscape(c: char)
    requires IsEscaped(c)
    ensures forall i :: 0 <= i < |EncodeChar(c)| && EncodeChar(c)[i] == '"' ==> i == 1 && EncodeChar(c)[0] == '\\'
  {}

  /** Inside a quoted text, a quote is the end of an escape. */
  lemma InnerQuote(k: string, j: nat, joins: Joins)
    requires 0 < j < |Quoted(k, joins)| - 1 && Quoted(k, joins)[j] == Ch('"')
    ensures var before := Quoted(k, joins)[j - 1].Scalars(); before != "" && before[|before| - 1] == '\\'
  {
    var text := "\"" + Encode(k) + "\"";
    var pos := ScalarBefore(text, j, joins);
    QuotesAreEscaped(k, pos - 1);
  }

  /** A quoted key cut short is not `db`. */
  lemma CutKeyIsOther(k: string, n: nat, joins: Joins)
    requires 0 < n < |Quoted(k, joins)|
    ensures !NamesDb(Quoted(k, joins)[..n])
  {
    var value, key := Quoted(k, joins), Quoted(k, joins)[..n];
    QuotedEnds(k, joins);
    assert key[0] == value[0];
    if n > 1 && key[n - 1] == Ch('"') {
      InnerQuote(k, n - 1, joins);
      if n > 2 {
        assert LastOf(key[1..n - 1]) == value[n - 2];
        BackslashAtEnd(key[1..n - 1]);
      }
    }
  }

  lemma {:induction false} TrimEndIsPrefix(chars: Symbols, drop: Sym -> bool)
    ensures TrimEnd(chars, drop) <= chars
    decreases |chars|
  {
    if chars != [] && drop(chars[|chars| - 1]) {
      TrimEndIsPrefix(chars[..|chars| - 1], drop);
    }
  }

  /** A quoted key other than `db` is another key, also where it holds an equal sign,
      at which the reader cuts it short. */
  lemma QuotedKeyIsOther(indent: Symbols, k: string, blanks: Symbols, value: Symbols, joins: Joins)
    requires AreJoins(joins) && k != "db" && All(indent, IsBlank) && All(blanks, IsBlank)
    ensures IsOther(indent + (Quoted(k, joins) + blanks + [Ch('=')] + value))
  {
    var key := Quoted(k, joins);
    QuotedEnds(k, joins);
    var e := Find(key, Ch('='));
    if e == |key| {
      QuotedValueIff(k, joins);
      OtherAssignment(indent, key, blanks, value);
    } else {
      CutQuotedKey(k, e, joins);
      CutInTwo(key, e, blanks + [Ch('=')] + value);
      Assoc(key, blanks, [Ch('=')]);
      Assoc(key, blanks + [Ch('=')], value);
      assert key[..e][0] == key[0];
      CutAtEqual(indent, key[..e], key[e + 1..] + (blanks + [Ch('=')] + value));
    }
  }

  lemma CutInTwo(key: Symbols, e: nat, rest: Symbols)
    requires e < |key| && key[e] == Ch('=')
    ensures key + rest == key[..e] + [Ch('=')] + (key[e + 1..] + rest)
  {
    assert key == key[..e] + [Ch('=')] + key[e + 1..];
  }

  lemma CutQuotedKey(k: string, e: nat, joins: Joins)
    requires 0 < e < |Quoted(k, joins)|
    ensures !NamesDb(Trim(Quoted(k, joins)[..e], IsBlank))
  {
    var key := Quoted(k, joins);
    var before := key[..e];
    QuotedEnds(k, joins);
    assert before[0] == key[0];
    TrimEndIsPrefix(before, IsBlank);
    TrimEndStopsAtFirst(before, IsBlank);
    var cut := |TrimEnd(before, IsBlank)|;
    assert TrimEnd(before, IsBlank) == key[..cut];
    CutKeyIsOther(k, cut, joins);
  }

  lemma TrimEndStopsAtFirst(chars: Symbols, drop: Sym -> bool)
    requires chars != [] && !drop(chars[0])
    ensures TrimEnd(chars, drop) != [] && TrimStart(chars, drop) == chars
  {
    assert chars == [chars[0]] + chars[1..];
    var left := TrimEndKeeps([chars[0]], chars[1..], drop);
  }

  predicate HoldsQuote(s: Sym) {
    s == Ch('"') || s.Cluster?
  }

  lemma QuotedEnds(p: string, joins: Joins)
    ensures var value := Quoted(p, joins); value != [] && HoldsQuote(value[0]) && HoldsQuote(value[|value| - 1])
  {
    var text := "\"" + Encode(p) + "\"";
    var n := CharacterLength(text, joins);
    assert text[..n][0] == '"';
    LastCharacter(text, joins);
  }

  /** A literal string is taken as it stands. */
  lemma {:induction false} LiteralValue(inner: Symbols)
    requires forall i :: 0 <= i < |inner| ==> inner[i] != Ch('\'') && !IsNewline(inner[i]) && inner[i] != Ch('\r')
    ensures Decode(inner, '\'') == Some(Scalars(inner))
    decreases |inner|
  {
    if inner != [] {
      LiteralValue(inner[1..]);
    }
  }

  function Scalars(chars: Symbols): string {
    if chars == [] then "" else chars[0].Scalars() + Scalars(chars[1..])
  }

  // ----- Where the string ends ------------------------------------------------

  /** Nor does the last one join the closing quote. */
  predicate SwallowsNothing(p: string, joins: Joins) {
    KeepsEscapes(p, joins) && (p != "" ==> !joins(Last(p[|p| - 1]), '"'))
  }

  lemma PathSwallowsNothing(p: string, joins: Joins)
    requires IsPath(p, joins)
    ensures SwallowsNothing(p, joins)
  {
    forall i | 0 < i < |p| && IsEscaped(p[i]) && !IsEscaped(p[i - 1])
      ensures !joins(p[i - 1], '\\')
    {
      assert !IsFused(p, i, joins) && Last(p[i - 1]) == p[i - 1];
    }
  }

  lemma EncodedCharIsBody(c: char, rest: Symbols)
    requires IsBody(rest, '"', false)
    ensures IsBody(Text(EncodeChar(c)) + rest, '"', false)
  {
    var chars := Text(EncodeChar(c)) + rest;
    assert chars[|EncodeChar(c)|..] == rest;
    if |EncodeChar(c)| == 6 {
      assert IsBody(chars[5..], '"', false);
      assert IsBody(chars[4..], '"', false);
      assert IsBody(chars[3..], '"', false);
      assert IsBody(chars[2..], '"', false);
    }
  }

  lemma SpoiltEscapeIsBody(chars: Symbols, n: nat, rest: Symbols)
    requires n in {1, 5} && |chars| > n && chars[0] == Ch('\\') && chars[n].Cluster? && chars[n + 1..] == rest
    requires n == 5 ==> forall k :: 1 < k < n ==> chars[k].Ch? && chars[k].c !in {'"', '\\'}
    requires IsBody(rest, '"', false)
    ensures IsBody(chars, '"', false)
  {
    if n == 1 {
      assert chars[2..] == rest;
    } else {
      assert chars[5..][1..] == rest;
      assert IsBody(chars[5..], '"', false);
      assert chars[4..][1..] == chars[5..] && IsBody(chars[4..], '"', false);
      assert chars[3..][1..] == chars[4..] && IsBody(chars[3..], '"', false);
      assert chars[2..][1..] == chars[3..] && IsBody(chars[2..], '"', false);
    }
  }

  lemma {:induction false} EncodedIsBody(p: string, joins: Joins)
    requires AreJoins(joins) && KeepsEscapes(p, joins)
    ensures IsBody(Characters(Encode(p), joins), '"', false)
    decreases |p|
  {
    if p != "" && IsEscaped(p[0]) {
      if IsSeam(EncodeChar(p[0]), Encode(p[1..]), joins) {
        KeepsEscapesFrom(p, 1, joins);
        EncodedIsBody(p[1..], joins);
        EscapeShape(p[0]);
        PrintablePrefix(EncodeChar(p[0]), Encode(p[1..]), joins);
        EncodedCharIsBody(p[0], Characters(Encode(p[1..]), joins));
      } else {
        var m := AfterSpoiltEscape(p, joins);
        KeepsEscapesFrom(p, m, joins);
        EncodedIsBody(p[m..], joins);
        SpoiltBody(p, m, joins);
      }
    } else if p != "" {
      var m := LiteralRun(p, joins);
      assert p[..m][m - 1] == p[m - 1];
      KeepsEscapesFrom(p, m, joins);
      EncodedIsBody(p[m..], joins);
      LiteralsAhead(p, m, joins);
    }
  }

  lemma LiteralsAhead(p: string, m: nat, joins: Joins)
    requires 1 <= m <= |p| && AreLiterals(p[..m]) && CharacterLength(Encode(p), joins) == m
    requires IsBody(Characters(Encode(p[m..]), joins), '"', false)
    ensures IsBody(Characters(Encode(p), joins), '"', false)
  {
    var first, rest := CharacterOf(p[..m]), Characters(Encode(p[m..]), joins);
    Parts(p, m);
    EncodedLiterals(p[..m], p[m..]);
    FirstCharacter(p[..m], Encode(p[m..]), joins);
    assert p[..m][0] == p[0] && !IsEscaped(p[..m][0]);
    assert ([first] + rest)[1..] == rest;
  }

  /** What a spoilt escape is joined to ends before anything it could not take. */
  lemma AfterSpoiltEscape(p: string, joins: Joins) returns (m: nat)
    requires AreJoins(joins) && KeepsEscapes(p, joins) && p != "" && IsEscaped(p[0])
    requires !IsSeam(EncodeChar(p[0]), Encode(p[1..]), joins)
    ensures 1 < m <= |p| && AreLiterals(p[1..m]) && CharacterLength(Encode(p[1..]), joins) == m - 1
    ensures Encode(p[1..]) == p[1..m] + Encode(p[m..])
  {
    EscapeSeam(p, joins);
    EscapeShape(p[0]);
    assert Last(p[0]) < 128 as char;
    var n := LiteralRun(p[1..], joins);
    m := n + 1;
    KeepsEscapesFrom(p, 1, joins);
    assert p[1..][..n] == p[1..m] && p[1..][n..] == p[m..] && p[1..][n - 1] == p[m - 1];
    assert p[1..][..n][n - 1] == p[m - 1];
    Parts(p[1..], n);
    EncodedLiterals(p[1..m], p[m..]);
  }

  lemma SpoiltBody(p: string, m: nat, joins: Joins)
    requires AreJoins(joins) && 1 < m <= |p| && IsEscaped(p[0])
    requires !IsSeam(EncodeChar(p[0]), Encode(p[1..]), joins)
    requires CharacterLength(Encode(p[1..]), joins) == m - 1 && Encode(p[1..]) == p[1..m] + Encode(p[m..])
    requires IsBody(Characters(Encode(p[m..]), joins), '"', false)
    ensures IsBody(Characters(Encode(p), joins), '"', false)
  {
    EscapeShape(p[0]);
    HexEscapeShape(p[0]);
    SpoiltText(EncodeChar(p[0]), p[1..m], Encode(p[m..]), joins);
    assert Encode(p) == EncodeChar(p[0]) + (p[1..m] + Encode(p[m..]));
  }

  lemma SpoiltText(escape: string, joined: string, rest: string, joins: Joins)
    requires AreJoins(joins) && |escape| in {2, 6} && escape[0] == '\\' && ArePrintable(escape)
    requires |escape| == 6 ==> forall k :: 1 < k < 6 ==> escape[k] !in {'"', '\\'}
    requires joined != "" && !IsSeam(escape, joined + rest, joins)
    requires CharacterLength(joined + rest, joins) == |joined| && IsBody(Characters(rest, joins), '"', false)
    ensures IsBody(Characters(escape + (joined + rest), joins), '"', false)
  {
    FusedLast(escape, joined + rest, joins);
    AfterFused(escape, joined, rest, joins);
    SpoiltChars(escape, Characters(escape + (joined + rest), joins), Characters(rest, joins));
  }

  lemma SpoiltChars(escape: string, chars: Symbols, rest: Symbols)
    requires |escape| in {2, 6} && escape[0] == '\\' && |chars| >= |escape|
    requires |escape| == 6 ==> forall k :: 1 < k < 6 ==> escape[k] !in {'"', '\\'}
    requires var n := |escape| - 1; chars[n].Cluster? && chars[..n] == Text(escape[..n]) && chars[n + 1..] == rest
    requires IsBody(rest, '"', false)
    ensures IsBody(chars, '"', false)
  {
    var n := |escape| - 1;
    assert forall k :: 0 <= k < n ==> chars[k] == chars[..n][k] == Ch(escape[k]);
    SpoiltEscapeIsBody(chars, n, rest);
  }

  lemma HexEscapeShape(c: char)
    requires IsEscaped(c)
    ensures |EncodeChar(c)| == 6 ==> forall k :: 1 < k < 6 ==> EncodeChar(c)[k] !in {'"', '\\'}
  {}

  /** After the Character that holds the end of the escape comes the rest. */
  lemma AfterFused(escape: string, joined: string, rest: string, joins: Joins)
    requires AreJoins(joins) && escape != "" && ArePrintable(escape) && joined != ""
    requires !IsSeam(escape, joined + rest, joins) && CharacterLength(joined + rest, joins) == |joined|
    ensures var chars := Characters(escape + (joined + rest), joins);
      |chars| >= |escape| && chars[|escape|..] == Characters(rest, joins)
  {
    var n := |escape| - 1;
    var last := [escape[n]];
    var text := joined + rest;
    assert escape == escape[..n] + last;
    Assoc(escape[..n], last, text);
    PrintablePrefix(escape[..n], last + text, joins);
    Assoc(last, joined, rest);
    assert (last + text)[1..] == text && (last + text)[1] == text[0];
    assert CharacterLength(last + joined + rest, joins) == |last + joined|;
    FirstCharacter(last + joined, rest, joins);
    var first := CharacterOf(last + joined);
    Assoc(Text(escape[..n]), [first], Characters(rest, joins));
    assert |Text(escape[..n]) + [first]| == |escape|;
    assert (Text(escape[..n]) + [first] + Characters(rest, joins))[|escape|..] == Characters(rest, joins);
  }

  // ----- The round trip -------------------------------------------------------

  predicate EndsLine(rest: Symbols) {
    rest == [] || IsNewline(rest[0]) || rest[0] == Ch('#')
  }

  lemma {:induction false} CommentEndsLine(chars: Symbols)
    ensures AfterComment(chars) == [] || IsNewline(AfterComment(chars)[0])
    decreases |chars|
  {
    if chars != [] && !IsNewline(chars[0]) {
      CommentEndsLine(chars[1..]);
    }
  }

  lemma BufferIsFirst(rest: Symbols, buffer: Symbols)
    requires EndsLine(rest)
    ensures var found := Statements(rest, buffer, Plain); found != [] && found[0] == buffer
  {
    if rest != [] && rest[0] == Ch('#') {
      CommentEndsLine(rest[1..]);
    }
  }

  // ----- Keys that name the database ------------------------------------------

  /** None of the next symbols closes the string or escapes. */
  lemma {:induction false} PlainBody(chars: Symbols, n: nat, d: char)
    requires n <= |chars| && IsBody(chars[n..], d, false)
    requires forall i :: 0 <= i < n ==> chars[i] != Ch('\\') && chars[i] != Ch(d)
    ensures IsBody(chars, d, false)
    decreases n
  {
    if n == 0 {
      assert chars[0..] == chars;
    } else {
      assert chars[1..][n - 1..] == chars[n..];
      PlainBody(chars[1..], n - 1, d);
    }
  }

  lemma NumberHasNoEqual(digits: Symbols)
    requires Number(digits).Some?
    ensures Ch('=') !in digits
  {
    if |digits| > 1 && (digits[0] == Ch('+') || digits[0] == Ch('-')) {
      HexDigits(digits[1..]);
      assert digits == [digits[0]] + digits[1..];
    } else {
      HexDigits(digits);
    }
  }

  /** The symbols of the first unit of a string that is read. */
  lemma UnitIsPlain(inner: Symbols, d: char)
    requires inner != [] && IsQuote(Ch(d)) && FirstUnit(inner, d).Some?
    ensures var n := FirstUnit(inner, d).value.length;
      && (inner[0] != Ch('=') ==> Ch('=') !in inner[..n])
      && (IsBody(inner[n..], d, false) ==> IsBody(inner, d, false))
  {
    var n := FirstUnit(inner, d).value.length;
    if n > 2 {
      var digits := inner[2..n];
      NumberIsAscii(digits);
      NumberHasNoEqual(digits);
      assert inner[..n] == [inner[0], inner[1]] + digits;
      assert inner[2..][n - 2..] == inner[n..];
      if IsBody(inner[n..], d, false) {
        assert forall i :: 0 <= i < n - 2 ==> inner[2..][i] == digits[i];
        PlainBody(inner[2..], n - 2, d);
      }
    }
  }

  /** A string that is read as a text without an equal sign is written without one, and
      ends where it is closed. */
  lemma {:induction false} DecodedIsBody(inner: Symbols, d: char)
    requires IsQuote(Ch(d)) && Decode(inner, d).Some? && '=' !in Decode(inner, d).value
    ensures IsBody(inner, d, false) && Ch('=') !in inner
    decreases |inner|
  {
    if inner != [] {
      var u := FirstUnit(inner, d).value;
      var rest := Decode(inner[u.length..], d).value;
      assert forall c :: c in rest ==> c in u.text + rest;
      assert forall c :: c in u.text ==> c in u.text + rest;
      DecodedIsBody(inner[u.length..], d);
      UnitIsPlain(inner, d);
      assert inner[0] == Ch('=') ==> u.text == "=";
      Parts(inner, u.length);
    }
  }

  /** A key that names `db`, bare or quoted and however it is escaped, is one piece of the
      line for the reader. */
  lemma NamingKey(key: Symbols)
    requires NamesDb(key)
    ensures IsKey(key)
    ensures AreRaw(key) || (IsToken(QuotedKey(key)) && QuotedKey(key).body != [] && key == QuotedKey(key).Render())
  {
    if key != Text("db") {
      var d := key[0].c;
      var inner := key[1..|key| - 1];
      DecodedIsBody(inner, d);
      assert key == [Ch(d)] + inner + [Ch(d)];
    }
  }

  /** The key may be written `db`, `"db"` or `'db'`. */
  lemma KeysOfDb(joins: Joins)
    requires AreJoins(joins)
    ensures NamesDb([Ch('d'), Ch('b')]) && NamesDb(Quoted("db", joins))
    ensures NamesDb([Ch('\''), Ch('d'), Ch('b'), Ch('\'')])
  {
    assert IsPath("db", joins);
    QuotedValueIff("db", joins);
    var inner := [Ch('d'), Ch('b')];
    LiteralValue(inner);
    assert inner[1..] == [Ch('b')] && [Ch('b')][1..] == [];
    assert Scalars(inner) == "db";
    var key' := [Ch('\''), Ch('d'), Ch('b'), Ch('\'')];
    assert key'[1..3] == inner;
  }

  function QuotedKey(key: Symbols): Token {
    if |key| > 1 && key[0].Ch? then Single(key[0].c, key[1..|key| - 1]) else Raw(Ch(' '))
  }

  lemma KeyRun(key: Symbols, rest: Symbols, buffer: Symbols)
    requires NamesDb(key)
    ensures Statements(key + rest, buffer, Plain) == Statements(rest, buffer + key, Plain)
  {
    NamingKey(key);
    if AreRaw(key) {
      RawRun(key, rest, buffer);
    } else {
      TokenIsOpaque(QuotedKey(key), rest, buffer);
    }
  }

  /** `db = "…"`, with any blanks around its parts, and any key that names `db`. */
  datatype DbLine =
    DbLine(indent: Symbols, key: Symbols, b1: Symbols, b2: Symbols, p: string, after: Symbols, joins: Joins)
  {
    function Head(): Symbols {
      indent + (key + b1 + [Ch('=')] + b2)
    }

    function Render(): Symbols {
      Head() + Quoted(p, joins) + after
    }

    ghost predicate IsPlaced() {
      && AreJoins(joins) && NamesDb(key)
      && All(indent, IsBlank) && All(b1, IsBlank) && All(b2, IsBlank) && All(after, IsBlank)
    }
  }

  lemma Reassociate(a: Symbols, b: Symbols, c: Symbols, d: Symbols)
    ensures a + b + c + d == a + (b + (c + d))
  {}

  lemma QuotedIsToken(p: string, joins: Joins)
    requires AreJoins(joins) && SwallowsNothing(p, joins) && IsSeam("\"", Encode(p), joins)
    ensures var token := Single('"', Characters(Encode(p), joins)); IsToken(token) && token.Render() == Quoted(p, joins)
  {
    EncodedIsBody(p, joins);
    ClosingSeam(p, joins);
    QuotesAround(Encode(p), joins);
  }

  lemma ClosingSeam(p: string, joins: Joins)
    requires SwallowsNothing(p, joins)
    ensures IsSeam(Encode(p), "\"", joins)
  {
    if p != "" {
      LastEncoded(p);
    }
  }

  lemma AssignmentIsOneStatement(head: Symbols, token: Token, after: Symbols, rest: Symbols)
    requires All(after, IsBlank) && EndsLine(rest) && IsToken(token) && token.Single?
    requires var tail := token.Render() + (after + rest);
      Statements(head + tail, [], Plain) == Statements(tail, head, Plain)
    ensures var found := Statements(head + token.Render() + after + rest, [], Plain);
      found != [] && found[0] == head + token.Render() + after
  {
    Reassociate(head, token.Render(), after, rest);
    assert after + rest != [] ==> (after + rest)[0] == if after != [] then after[0] else rest[0];
    TokenIsOpaque(token, after + rest, head);
    RawRun(after, rest, head + token.Render());
    BufferIsFirst(rest, head + token.Render() + after);
  }

  lemma HeadRun(line: DbLine, rest: Symbols)
    requires line.IsPlaced()
    ensures Statements(line.Head() + rest, [], Plain) == Statements(rest, line.Head(), Plain)
  {
    var equal := line.b1 + [Ch('=')] + line.b2;
    Assoc(line.key, line.b1, [Ch('=')]);
    Assoc(line.key, line.b1 + [Ch('=')], line.b2);
    Reassociate(line.indent, line.key, equal, rest);
    Assoc(line.indent, line.key, equal);
    RawRun(line.indent, line.key + (equal + rest), []);
    assert [] + line.indent == line.indent;
    KeyRun(line.key, equal + rest, line.indent);
    RawRun(equal, rest, line.indent + line.key);
  }

  lemma DbLineIsOneStatement(line: DbLine, rest: Symbols)
    requires line.IsPlaced() && EndsLine(rest)
    requires SwallowsNothing(line.p, line.joins) && IsSeam("\"", Encode(line.p), line.joins)
    ensures var found := Statements(line.Render() + rest, [], Plain); found != [] && found[0] == line.Render()
  {
    HeadRun(line, Quoted(line.p, line.joins) + (line.after + rest));
    QuotedIsToken(line.p, line.joins);
    AssignmentIsOneStatement(line.Head(), Single('"', Characters(Encode(line.p), line.joins)), line.after, rest);
  }

  /** A statement that assigns to `db` a value that starts with `s`. */
  lemma AssignsDb(line: DbLine, s: Sym, left: Symbols)
    requires line.IsPlaced() && !IsSpace(s)
    ensures var text := Trim(line.Head() + [s] + left, IsSpace);
      && !IsSection(text) && KeyOf(text) == Some(line.key)
      && exists more :: more <= left && ValueOf(text) == [s] + more
  {
    var core := line.key + line.b1 + [Ch('=')] + (line.b2 + [s]);
    NamingKey(line.key);
    assert line.Head() + [s] + left == line.indent + (core + left);
    assert (core + left)[0] == line.key[0] && core[|core| - 1] == s;
    TrimStartStops(line.indent, core + left, IsSpace);
    var kept := TrimEndKeeps(core, left, IsSpace);
    assert core + kept == line.key + line.b1 + [Ch('=')] + (line.b2 + ([s] + kept));
    KeyAndValue(line.key, line.b1, line.b2 + ([s] + kept));
    TrimStartStops(line.b2, [s] + kept, IsSpace);
    var more := TrimEndKeeps([s], kept, IsSpace);
    assert ValueOf(Trim(line.Head() + [s] + left, IsSpace)) == [s] + more;
  }

  lemma DbLineNamesPath(line: DbLine)
    requires line.IsPlaced()
    ensures var text := Trim(line.Render(), IsSpace);
      !IsSection(text) && KeyOf(text) == Some(line.key) && ValueOf(text) == Quoted(line.p, line.joins)
  {
    var value := Quoted(line.p, line.joins);
    QuotedEnds(line.p, line.joins);
    NamingKey(line.key);
    var key := line.key + line.b1 + [Ch('=')];
    RenderedCore(line.indent, key, line.b2, value, line.after);
    var core := key + (line.b2 + value);
    assert core[0] == line.key[0] && core[|core| - 1] == value[|value| - 1];
    Trimmed(line.indent, core, line.after, IsSpace);
    KeyAndValue(line.key, line.b1, line.b2 + value);
    assert line.b2 + value == line.b2 + value + [];
    Trimmed(line.b2, value, [], IsSpace);
  }

  lemma RenderedCore(indent: Symbols, key: Symbols, blanks: Symbols, value: Symbols, after: Symbols)
    ensures indent + (key + blanks) + value + after == indent + (key + (blanks + value)) + after
  {
    Assoc(indent, key + blanks, value);
    Assoc(key, blanks, value);
  }

  /** The first statement is what was read before it and some of what follows. */
  lemma {:induction false} FirstGoesOn(chars: Symbols, buffer: Symbols, mode: Mode)
    ensures var found := Statements(chars, buffer, mode); found == [] || buffer <= found[0] <= buffer + chars
    decreases |chars|
  {
    if chars != [] {
      if mode.Plain? && chars[0] == Ch('#') {
        BufferIsFirst(chars, buffer);
      } else if !(mode.Plain? && IsNewline(chars[0])) {
        var t := CopyTurn(chars, mode);
        FirstGoesOn(chars[t.length..], buffer + chars[..t.length], t.mode);
        Parts(chars, t.length);
        Assoc(buffer, chars[..t.length], chars[t.length..]);
      }
    }
  }

  lemma FirstHolds(head: Symbols, s: Sym, tail: Symbols)
    requires s != Ch('#') && !IsNewline(s)
    requires Statements(head + ([s] + tail), [], Plain) == Statements([s] + tail, head, Plain)
    ensures var found := Statements(head + [s] + tail, [], Plain);
      found == [] || exists left :: left <= tail && found[0] == head + [s] + left
  {
    var chars := [s] + tail;
    Assoc(head, [s], tail);
    var n, mode := CopyTurn(chars, Plain).length, CopyTurn(chars, Plain).mode;
    FirstGoesOn(chars[n..], head + chars[..n], mode);
    var found := Statements(chars, head, Plain);
    if found != [] {
      Parts(chars, n);
      Assoc(head, chars[..n], chars[n..]);
      LeftOver(head, s, tail, found[0]);
    }
  }

  lemma LeftOver(head: Symbols, s: Sym, tail: Symbols, first: Symbols)
    requires head < first <= head + ([s] + tail)
    ensures exists left :: left <= tail && first == head + [s] + left
  {
    var n := |head| + 1;
    Assoc(head, [s], tail);
    var left := first[n..];
    assert first == (head + [s] + tail)[..|first|];
    assert left == tail[..|left|];
    assert first == head + [s] + left;
  }

  /** The value of such a line starts with `s` and goes on with what follows it. */
  lemma LookedUp(line: DbLine, s: Sym, tail: Symbols)
    requires line.IsPlaced() && s != Ch('#') && !IsSpace(s)
    ensures var found := Lookup(Statements(line.Head() + [s] + tail, [], Plain));
      found == None || exists more :: more <= tail && found == StringValue([s] + more)
  {
    HeadRun(line, [s] + tail);
    FirstHolds(line.Head(), s, tail);
    var found := Statements(line.Head() + [s] + tail, [], Plain);
    if found != [] {
      var left :| left <= tail && found[0] == line.Head() + [s] + left;
      AssignsDb(line, s, left);
      assert found == [found[0]] + found[1..];
      LookupDb(found[0], found[1..]);
    }
  }

  /** An opening quote that is joined to the path leaves nothing to read. */
  lemma FusedOpeningIsLost(line: DbLine, rest: Symbols)
    requires line.IsPlaced() && !IsSeam("\"", Encode(line.p), line.joins)
    ensures Lookup(Statements(line.Render() + rest, [], Plain)) == None
  {
    var value := Quoted(line.p, line.joins);
    FusedOpening(line.p, line.joins);
    FirstSymbolOut(line.Head(), value, line.after, rest);
    UnquotedIsLost(line, value[0], value[1..] + line.after + rest);
  }

  lemma FirstSymbolOut(head: Symbols, value: Symbols, after: Symbols, rest: Symbols)
    requires value != []
    ensures head + value + after + rest == head + [value[0]] + (value[1..] + after + rest)
  {
    assert value == [value[0]] + value[1..];
  }

  /** A value that does not start with a quote of its own. */
  lemma UnquotedIsLost(line: DbLine, s: Sym, tail: Symbols)
    requires line.IsPlaced() && s.Cluster?
    ensures Lookup(Statements(line.Head() + [s] + tail, [], Plain)) == None
  {
    LookedUp(line, s, tail);
    assert forall more: Symbols :: ([s] + more)[0] == s;
  }

  lemma OpenedQuote(p: string, joins: Joins)
    requires AreJoins(joins) && IsSeam("\"", Encode(p), joins)
    ensures Quoted(p, joins) == [Ch('"')] + Characters(Encode(p) + "\"", joins)
  {
    var text := Encode(p) + "\"";
    Assoc("\"", Encode(p), "\"");
    assert text[0] == if p == "" then '"' else Encode(p)[0];
    CharactersSplit("\"", text, joins);
    QuoteCharacter(joins);
  }

  /** A value up to whatever quote the reader stops at is the path only if that quote
      is the one that closes it. */
  lemma ValueIsPath(p: string, more: Symbols, tail: Symbols, joins: Joins)
    requires AreJoins(joins) && IsSeam("\"", Encode(p), joins)
    requires more <= Characters(Encode(p) + "\"", joins) + tail && StringValue([Ch('"')] + more) == Some(p)
    ensures IsPath(p, joins)
  {
    var value := [Ch('"')] + more;
    var inner := more[..|more| - 1];
    assert value[1..|value| - 1] == inner && more == inner + [Ch('"')];
    OnlyTheWhole(p, inner, tail, joins);
    DecodeEncode(p, joins);
    QuoteSeams(p, joins);
  }

  lemma FoundIsPath(line: DbLine, rest: Symbols)
    requires line.IsPlaced() && Lookup(Statements(line.Render() + rest, [], Plain)) == Some(line.p)
    ensures IsPath(line.p, line.joins)
  {
    if IsSeam("\"", Encode(line.p), line.joins) {
      var value, chars := Quoted(line.p, line.joins), Characters(Encode(line.p) + "\"", line.joins);
      OpenedQuote(line.p, line.joins);
      assert value[0] == Ch('"') && value[1..] == chars;
      FirstSymbolOut(line.Head(), value, line.after, rest);
      LookedUp(line, Ch('"'), chars + line.after + rest);
      Assoc(chars, line.after, rest);
      var more :| more <= chars + line.after + rest && StringValue([Ch('"')] + more) == Some(line.p);
      ValueIsPath(line.p, more, line.after + rest, line.joins);
    } else {
      FusedOpeningIsLost(line, rest);
    }
  }

  lemma LookupDb(statement: Symbols, rest: seq<Symbols>)
    requires var text := Trim(statement, IsSpace);
      !IsSection(text) && KeyOf(text).Some? && NamesDb(KeyOf(text).value)
    ensures Lookup([statement] + rest) == StringValue(ValueOf(Trim(statement, IsSpace)))
  {}

  lemma FusedOpening(p: string, joins: Joins)
    requires !IsSeam("\"", Encode(p), joins)
    ensures Quoted(p, joins) != [] && Quoted(p, joins)[0].Cluster?
  {
    var text := "\"" + Encode(p) + "\"";
    assert text[1] == Encode(p)[0];
    var n := CharacterLength(text, joins);
    assert n > 1 && text[..n][0] == '"';
  }

  /** What the reader finds in a document that writes `p` as a basic string after any
      lines of comments and other assignments: `p` if and only if it is a path. Where no
      scalar of `p` swallows an escape or the closing quote, it otherwise finds nothing. */
  lemma {:induction false} DatabaseReadIff(lines: seq<Line>, line: DbLine, rest: Symbols)
    requires AreLines(lines) && AreOthers(lines) && line.IsPlaced() && EndsLine(rest)
    ensures var found := TopLevelDatabase(RenderLines(lines) + (line.Render() + rest));
      && (found == Some(line.p) <==> IsPath(line.p, line.joins))
      && (SwallowsNothing(line.p, line.joins) && !IsPath(line.p, line.joins) ==> found == None)
  {
    var statements := Statements(line.Render() + rest, [], Plain);
    StatementsAreLines(lines, line.Render() + rest);
    OthersAreSkipped(lines, statements);
    if SwallowsNothing(line.p, line.joins) {
      DbLineIsRead(line, rest);
    } else {
      assert IsPath(line.p, line.joins) ==> SwallowsNothing(line.p, line.joins) by {
        if IsPath(line.p, line.joins) {
          PathSwallowsNothing(line.p, line.joins);
        }
      }
      if Lookup(statements) == Some(line.p) {
        FoundIsPath(line, rest);
      }
    }
  }

  lemma ReadOrNothing(p: string, joins: Joins)
    requires AreJoins(joins) && SwallowsNothing(p, joins) && IsSeam("\"", Encode(p), joins)
    ensures StringValue(Quoted(p, joins)) == if IsPath(p, joins) then Some(p) else None
  {
    if IsPath(p, joins) {
      QuotedValueIff(p, joins);
    } else {
      QuoteSeams(p, joins);
      ClosingSeam(p, joins);
      if p != "" {
        NothingIsRead(p, joins);
      }
      BetweenQuotes(Encode(p), joins);
    }
  }

  /** Between quotes that join nothing stands what was written there. */
  lemma BetweenQuotes(text: string, joins: Joins)
    requires AreJoins(joins) && IsSeam("\"", text, joins) && IsSeam(text, "\"", joins)
    requires Reading(text, joins) in {None, Some("")}
    ensures StringValue(Characters("\"" + text + "\"", joins)) == None
  {
    QuotesAround(text, joins);
    var value := Characters("\"" + text + "\"", joins);
    assert value[1..|value| - 1] == Characters(text, joins);
  }

  lemma DbLineIsRead(line: DbLine, rest: Symbols)
    requires line.IsPlaced() && EndsLine(rest) && SwallowsNothing(line.p, line.joins)
    ensures Lookup(Statements(line.Render() + rest, [], Plain)) ==
      if IsPath(line.p, line.joins) then Some(line.p) else None
  {
    if IsSeam("\"", Encode(line.p), line.joins) {
      DbLineIsOneStatement(line, rest);
      DbLineNamesPath(line);
      ReadOrNothing(line.p, line.joins);
    } else {
      FusedOpeningIsLost(line, rest);
      QuoteSeams(line.p, line.joins);
    }
  }

  /** Whatever lines of comments and other assignments come first, a path written as a
      basic string is the path read. */
  lemma {:induction false} DatabaseRoundTrip(lines: seq<Line>, line: DbLine, rest: Symbols)
    requires AreLines(lines) && AreOthers(lines) && line.IsPlaced() && EndsLine(rest)
    requires IsPath(line.p, line.joins)
    ensures TopLevelDatabase(RenderLines(lines) + (line.Render() + rest)) == Some(line.p)
  {
    DatabaseReadIff(lines, line, rest);
  }

  // ----- Values that go on over several lines ---------------------------------

  predicate StartsLikeSection(line: Line) {
    IsSection(Trim(Render(line.tokens), IsSpace))
  }

  predicate AnySection(lines: seq<Line>) {
    lines != [] && (StartsLikeSection(lines[0]) || AnySection(lines[1..]))
  }

  /** No line assigns to `db`: each is passed over, or looks like a section. */
  predicate AreSectionsOrOthers(lines: seq<Line>) {
    lines == [] ||
    ((StartsLikeSection(lines[0]) || IsOther(Render(lines[0].tokens))) && AreSectionsOrOthers(lines[1..]))
  }

  lemma {:induction false} LookupStopsAtSection(lines: seq<Line>, rest: seq<Symbols>)
    requires AreSectionsOrOthers(lines)
    ensures Lookup(LineTexts(lines) + rest) == if AnySection(lines) then None else Lookup(rest)
    decreases |lines|
  {
    if lines == [] {
      assert LineTexts(lines) + rest == rest;
    } else {
      var first, more := Render(lines[0].tokens), LineTexts(lines[1..]);
      Assoc([first], more, rest);
      LookupStopsAtSection(lines[1..], rest);
      LookupFirst(first, more + rest);
    }
  }

  lemma LookupFirst(statement: Symbols, rest: seq<Symbols>)
    requires IsSection(Trim(statement, IsSpace)) || IsOther(statement)
    ensures Lookup([statement] + rest) == if IsSection(Trim(statement, IsSpace)) then None else Lookup(rest)
  {
    if !IsSection(Trim(statement, IsSpace)) {
      LookupPasses(statement, rest);
    }
  }

  /** After any lines that do not assign to `db`, among them values that go on over
      several lines, `db` is found if and only if none of the lines starts with a
      bracket, as a section does and an element of a nested array. */
  lemma {:induction false} ContinuedValueHidesIff(lines: seq<Line>, line: DbLine, rest: Symbols)
    requires AreLines(lines) && AreSectionsOrOthers(lines) && line.IsPlaced() && EndsLine(rest)
    requires IsPath(line.p, line.joins)
    ensures TopLevelDatabase(RenderLines(lines) + (line.Render() + rest)) ==
      if AnySection(lines) then None else Some(line.p)
  {
    StatementsAreLines(lines, line.Render() + rest);
    LookupStopsAtSection(lines, Statements(line.Render() + rest, [], Plain));
    PathSwallowsNothing(line.p, line.joins);
    DbLineIsRead(line, rest);
  }

  function RawLine(text: Symbols): Line {
    Line(seq(|text|, i requires 0 <= i < |text| => Raw(text[i])), None, Ch('\n'))
  }

  lemma {:induction false} RawLineRenders(text: Symbols, end: Symbols)
    requires AreRaw(text)
    ensures Render(RawLine(text).tokens) == text && AreTokens(RawLine(text).tokens, end)
    decreases |text|
  {
    if text != [] {
      RawLineRenders(text[1..], end);
      assert RawLine(text).tokens[1..] == RawLine(text[1..]).tokens;
      assert text == [text[0]] + text[1..];
    }
  }

  /** `x = [`, `[1],` and `]`: an array of arrays over three lines. */
  function NestedArray(): seq<Line> {
    [RawLine(Text("x=["))] + ([RawLine(Text("[1],"))] + ([RawLine(Text("]"))] + []))
  }

  lemma InnerLine()
    ensures IsLine(RawLine(Text("[1],"))) && StartsLikeSection(RawLine(Text("[1],")))
  {
    PlainLine(Text("[1],"));
  }

  lemma OuterLine()
    ensures IsLine(RawLine(Text("x=["))) && IsOther(Render(RawLine(Text("x=[")).tokens))
  {
    PlainLine(Text("x=["));
    OtherAssignment([], Text("x"), [], Text("["));
    assert [] + (Text("x") + [] + [Ch('=')] + Text("[")) == Text("x=[");
  }

  lemma PlainLine(text: Symbols)
    requires text != [] && AreRaw(text) && !IsSpace(text[0]) && !IsSpace(text[|text| - 1])
    ensures IsLine(RawLine(text)) && Render(RawLine(text).tokens) == text && Trim(text, IsSpace) == text
  {
    RawLineRenders(text, RawLine(text).End());
    Trimmed([], text, [], IsSpace);
    assert [] + text + [] == text;
  }

  lemma OneMoreLine(line: Line, lines: seq<Line>)
    requires IsLine(line) && AreLines(lines) && AreSectionsOrOthers(lines)
    requires StartsLikeSection(line) || IsOther(Render(line.tokens))
    ensures AreLines([line] + lines) && AreSectionsOrOthers([line] + lines)
    ensures AnySection([line] + lines) <==> StartsLikeSection(line) || AnySection(lines)
  {
    assert ([line] + lines)[1..] == lines;
  }

  lemma NestedArrayLines()
    ensures AreLines(NestedArray()) && AreSectionsOrOthers(NestedArray()) && AnySection(NestedArray())
  {
    OuterLine();
    InnerLine();
    LastArrayLine();
    OneMoreLine(RawLine(Text("]")), []);
    OneMoreLine(RawLine(Text("[1],")), [RawLine(Text("]"))] + []);
    OneMoreLine(RawLine(Text("x=[")), [RawLine(Text("[1],"))] + ([RawLine(Text("]"))] + []));
  }

  /** The document that writes such an array before `db`: the path is not found. */
  lemma NestedArrayHidesDb(line: DbLine, rest: Symbols)
    requires line.IsPlaced() && EndsLine(rest) && IsPath(line.p, line.joins)
    ensures TopLevelDatabase(RenderLines(NestedArray()) + (line.Render() + rest)) == None
  {
    NestedArrayLines();
    ContinuedValueHidesIff(NestedArray(), line, rest);
  }

  lemma LastArrayLine()
    ensures IsLine(RawLine(Text("]"))) && IsOther(Render(RawLine(Text("]")).tokens))
  {
    PlainLine(Text("]"));
  }
}
