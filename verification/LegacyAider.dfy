/** Removing the lines older releases appended to `.aider.conf.yml`
    (`src/setup.rs`, `remove_legacy_aider_block`). */
module LegacyAider {
  import opened Base
  import opened Sequences

  const COMMENT := "# NestWeaver code intelligence"
  const KEY := "repo-map: nestweaver mcp"

  // ----- Lines ----------------------------------------------------------------

  /** `split_inclusive('\n')`: each line keeps its line feed. */
  function SplitInclusive(text: string): seq<string> {
    if text == "" then []
    else
      var rest := SplitInclusive(text[1..]);
      if text[0] == '\n' || rest == [] then [[text[0]]] + rest
      else [[text[0]] + rest[0]] + rest[1..]
  }

  function Join(lines: seq<string>): string {
    if lines == [] then "" else lines[0] + Join(lines[1..])
  }

  /** Not empty, and a line feed nowhere but at the end. */
  predicate IsLine(line: string) {
    line != "" && forall i :: 0 <= i < |line| - 1 ==> line[i] != '\n'
  }

  predicate IsEnded(line: string) {
    line != "" && line[|line| - 1] == '\n'
  }

  /** Lines as they come out of a text: only the last may lack its line feed. */
  predicate AreLines(lines: seq<string>) {
    && (forall i :: 0 <= i < |lines| ==> IsLine(lines[i]))
    && (forall i :: 0 <= i < |lines| - 1 ==> IsEnded(lines[i]))
  }

  lemma {:induction false} SplitThenJoin(text: string)
    ensures AreLines(SplitInclusive(text)) && Join(SplitInclusive(text)) == text
    decreases |text|
  {
    if text != "" {
      SplitThenJoin(text[1..]);
      var rest, lines := SplitInclusive(text[1..]), SplitInclusive(text);
      if text[0] == '\n' || rest == [] {
        assert lines[1..] == rest;
        assert forall i :: 1 <= i < |lines| ==> lines[i] == rest[i - 1];
      } else {
        assert lines[1..] == rest[1..];
        assert forall i :: 1 <= i < |lines| ==> lines[i] == rest[i];
        assert IsLine(rest[0]);
        assert |lines| > 1 ==> IsEnded(rest[0]);
      }
    }
  }

  lemma {:induction false} SplitOneLine(line: string, rest: string)
    requires IsLine(line) && (IsEnded(line) || rest == "")
    ensures SplitInclusive(line + rest) == [line] + SplitInclusive(rest)
    decreases |line|
  {
    var text := line + rest;
    if |line| == 1 {
      assert text[1..] == rest && [line[0]] == line;
    } else {
      assert text[1..] == line[1..] + rest;
      assert forall i :: 0 <= i < |line[1..]| ==> line[1..][i] == line[i + 1];
      SplitOneLine(line[1..], rest);
      assert [line[0]] + line[1..] == line;
    }
  }

  lemma {:induction false} JoinThenSplit(lines: seq<string>)
    requires AreLines(lines)
    ensures SplitInclusive(Join(lines)) == lines
    decreases |lines|
  {
    if lines != [] {
      var rest := lines[1..];
      assert forall i :: 0 <= i < |rest| ==> rest[i] == lines[i + 1];
      JoinThenSplit(rest);
      assert IsLine(lines[0]) && (|lines| > 1 ==> IsEnded(lines[0]));
      SplitOneLine(lines[0], Join(rest));
    }
  }

  // ----- The block ------------------------------------------------------------

  predicate IsKey(line: string) {
    StartsWith(Trim(line, IsWhitespace), KEY)
  }

  predicate IsComment(line: string) {
    Trim(line, IsWhitespace) == COMMENT
  }

  predicate IsBlank(line: string) {
    Trim(line, IsWhitespace) == ""
  }

  /** As far as the key lines before `n` go: a key line, the comment directly above
      one, or the blank line directly above that comment. */
  predicate IsLegacyUpTo(lines: seq<string>, i: nat, n: nat)
    requires i < |lines| && n <= |lines|
  {
    || (i < n && IsKey(lines[i]))
    || (i + 1 < n && IsKey(lines[i + 1]) && IsComment(lines[i]))
    || (i + 2 < n && IsKey(lines[i + 2]) && IsComment(lines[i + 1]) && IsBlank(lines[i]))
  }

  predicate IsLegacy(lines: seq<string>, i: nat)
    requires i < |lines|
  {
    IsLegacyUpTo(lines, i, |lines|)
  }

  /** The other lines, in order. */
  function Kept(lines: seq<string>, from: nat): seq<string>
    requires from <= |lines|
    decreases |lines| - from
  {
    if from == |lines| then []
    else (if IsLegacy(lines, from) then [] else [lines[from]]) + Kept(lines, from + 1)
  }

  function Cleaned(text: string): string {
    Join(Kept(SplitInclusive(text), 0))
  }

  /** The marks that the key line `index` makes. */
  predicate IsMarkedBy(lines: seq<string>, i: nat, index: nat)
    requires i < |lines| && index < |lines|
  {
    && IsKey(lines[index])
    && (i == index || (i + 1 == index && IsComment(lines[i])) ||
        (i + 2 == index && IsComment(lines[i + 1]) && IsBlank(lines[i])))
  }

  lemma MarkingStep(lines: seq<string>, i: nat, index: nat)
    requires i < |lines| && index < |lines|
    ensures IsLegacyUpTo(lines, i, index + 1) <==> IsLegacyUpTo(lines, i, index) || IsMarkedBy(lines, i, index)
  {}

  /** The marking loop of the source over its `dropped` array. */
  method MarkLegacy(lines: seq<string>) returns (dropped: array<bool>)
    ensures fresh(dropped) && dropped.Length == |lines|
    ensures forall i :: 0 <= i < |lines| ==> dropped[i] == IsLegacy(lines, i)
  {
    dropped := new bool[|lines|](i => false);
    for index := 0 to |lines|
      invariant forall i :: 0 <= i < |lines| ==> dropped[i] == IsLegacyUpTo(lines, i, index)
    {
      forall i | 0 <= i < |lines|
        ensures IsLegacyUpTo(lines, i, index + 1) <==> IsLegacyUpTo(lines, i, index) || IsMarkedBy(lines, i, index)
      {
        MarkingStep(lines, i, index);
      }
      MarkAt(lines, index, dropped);
    }
  }

  method MarkAt(lines: seq<string>, index: nat, dropped: array<bool>)
    requires index < |lines| == dropped.Length
    modifies dropped
    ensures forall i :: 0 <= i < |lines| ==> dropped[i] == (old(dropped[i]) || IsMarkedBy(lines, i, index))
  {
    if IsKey(lines[index]) {
      dropped[index] := true;
      if index >= 1 && IsComment(lines[index - 1]) {
        dropped[index - 1] := true;
        if index >= 2 && IsBlank(lines[index - 2]) {
          dropped[index - 2] := true;
        }
      }
    }
  }

  method RemoveLegacyBlock(existing: string) returns (cleaned: string)
    ensures cleaned == Cleaned(existing)
  {
    var lines := SplitInclusive(existing);
    var dropped := MarkLegacy(lines);
    cleaned := "";
    var i := |lines|;
    while i > 0
      invariant 0 <= i <= |lines|
      invariant cleaned == Join(Kept(lines, i))
    {
      i := i - 1;
      if !dropped[i] {
        assert Kept(lines, i)[1..] == Kept(lines, i + 1);
        cleaned := lines[i] + cleaned;
      } else {
        assert Kept(lines, i) == Kept(lines, i + 1);
      }
    }
  }

  // ----- What remains ---------------------------------------------------------

  lemma {:induction false} KeptAreLines(lines: seq<string>, from: nat)
    requires AreLines(lines) && from <= |lines|
    ensures AreLines(Kept(lines, from))
    decreases |lines| - from
  {
    if from < |lines| {
      KeptAreLines(lines, from + 1);
      var kept, rest := Kept(lines, from), Kept(lines, from + 1);
      LastLineKeepsNothingAfter(lines, from);
      assert kept == rest || kept == [lines[from]] + rest;
      if kept == [lines[from]] + rest {
        assert forall i :: 1 <= i < |kept| ==> kept[i] == rest[i - 1];
      }
    }
  }

  lemma {:induction false} KeptAreNotKeys(lines: seq<string>, from: nat)
    requires from <= |lines|
    ensures forall line :: line in Kept(lines, from) ==> !IsKey(line)
    decreases |lines| - from
  {
    if from < |lines| {
      KeptAreNotKeys(lines, from + 1);
    }
  }

  lemma LastLineKeepsNothingAfter(lines: seq<string>, from: nat)
    requires AreLines(lines) && from < |lines|
    ensures Kept(lines, from + 1) != [] ==> IsEnded(lines[from])
  {}

  lemma {:induction false} NoKeyNoChange(lines: seq<string>, from: nat)
    requires from <= |lines| && forall i :: 0 <= i < |lines| ==> !IsKey(lines[i])
    ensures Kept(lines, from) == lines[from..]
    decreases |lines| - from
  {
    if from < |lines| {
      NoKeyNoChange(lines, from + 1);
      assert lines[from..] == [lines[from]] + lines[from + 1..];
    }
  }

  /** No key line is left, and cleaning the cleaned text changes nothing. */
  lemma CleanedTwice(text: string)
    ensures forall i :: 0 <= i < |SplitInclusive(Cleaned(text))| ==> !IsKey(SplitInclusive(Cleaned(text))[i])
    ensures SplitInclusive(Cleaned(text)) == Kept(SplitInclusive(text), 0)
    ensures Cleaned(Cleaned(text)) == Cleaned(text)
  {
    SplitThenJoin(text);
    var kept := Kept(SplitInclusive(text), 0);
    KeptAreLines(SplitInclusive(text), 0);
    KeptAreNotKeys(SplitInclusive(text), 0);
    JoinThenSplit(kept);
    NoKeyNoChange(kept, 0);
    assert kept[0..] == kept;
  }

  /** A text without key lines is not touched, byte for byte. */
  lemma OtherFilesAreUntouched(text: string)
    requires forall i :: 0 <= i < |SplitInclusive(text)| ==> !IsKey(SplitInclusive(text)[i])
    ensures Cleaned(text) == text
  {
    SplitThenJoin(text);
    NoKeyNoChange(SplitInclusive(text), 0);
    assert SplitInclusive(text)[0..] == SplitInclusive(text);
  }

  // ----- What older releases appended -----------------------------------------

  /** A blank line, the comment and the key line, each with whatever white space. */
  datatype Block = Block(blank: string, c1: string, c2: string, k1: string, rest: string)
  {
    function Comment(): string {
      c1 + "# NestWeaver code intelligence" + c2
    }

    function Key(): string {
      k1 + ("repo-map: nestweaver mcp" + rest)
    }

    function Lines(): seq<string> {
      [blank, Comment(), Key()]
    }

    predicate IsPlaced() {
      All(blank, IsWhitespace) && All(c1, IsWhitespace) && All(c2, IsWhitespace) && All(k1, IsWhitespace)
    }
  }

  /** What the three tests on a line mean: the text may stand in any white space, and the
      key may go on. */
  lemma LineKindsIff(line: string)
    ensures IsBlank(line) <==> All(line, IsWhitespace)
    ensures IsComment(line) <==> exists a, b ::
      All(a, IsWhitespace) && All(b, IsWhitespace) && line == a + "# NestWeaver code intelligence" + b
    ensures IsKey(line) <==> exists a, rest ::
      All(a, IsWhitespace) && line == a + ("repo-map: nestweaver mcp" + rest)
  {
    var before, after := TrimParts(line, IsWhitespace);
    var core := Trim(line, IsWhitespace);
    if All(line, IsWhitespace) {
      AllTrimmed(line, IsWhitespace);
    }
    if IsKey(line) {
      var rest := core[|KEY|..] + after;
      assert core == KEY + core[|KEY|..];
      assert line == before + ("repo-map: nestweaver mcp" + rest);
    }
    if a, b :| All(a, IsWhitespace) && All(b, IsWhitespace) && line == a + "# NestWeaver code intelligence" + b {
      CommentTrimmed(a, b);
    }
    if a, rest :| All(a, IsWhitespace) && line == a + ("repo-map: nestweaver mcp" + rest) {
      KeyTrimmed(a, rest);
    }
  }

  lemma CommentTrimmed(a: string, b: string)
    requires All(a, IsWhitespace) && All(b, IsWhitespace)
    ensures IsComment(a + COMMENT + b) && !IsKey(a + COMMENT + b)
  {
    assert COMMENT[0] == '#' && COMMENT[|COMMENT| - 1] == 'e' && KEY[0] == 'r';
    Trimmed(a, COMMENT, b, IsWhitespace);
  }

  lemma KeyTrimmed(a: string, rest: string)
    requires All(a, IsWhitespace)
    ensures IsKey(a + (KEY + rest))
  {
    assert KEY[0] == 'r' && KEY[|KEY| - 1] == 'p' && (KEY + rest)[0] == KEY[0];
    TrimStartStops(a, KEY + rest, IsWhitespace);
    var left := TrimEndKeeps(KEY, rest, IsWhitespace);
  }

  lemma BlockIsRecognised(block: Block)
    requires block.IsPlaced()
    ensures IsBlank(block.blank) && !IsKey(block.blank)
    ensures IsComment(block.Comment()) && !IsKey(block.Comment()) && IsKey(block.Key())
  {
    AllTrimmed(block.blank, IsWhitespace);
    CommentTrimmed(block.c1, block.c2);
    KeyTrimmed(block.k1, block.rest);
  }

  /** The lines that are not dropped, in order. */
  function Undropped(lines: seq<string>, dropped: seq<bool>): seq<string>
    requires |dropped| == |lines|
  {
    if lines == [] then [] else (if dropped[0] then [] else [lines[0]]) + Undropped(lines[1..], dropped[1..])
  }

  lemma {:induction false} KeptIsUndropped(lines: seq<string>, from: nat, dropped: seq<bool>)
    requires from <= |lines| && |dropped| == |lines| - from
    requires forall i :: from <= i < |lines| ==> dropped[i - from] == IsLegacy(lines, i)
    ensures Kept(lines, from) == Undropped(lines[from..], dropped)
    decreases |lines| - from
  {
    if from < |lines| {
      assert lines[from..][1..] == lines[from + 1..];
      KeptIsUndropped(lines, from + 1, dropped[1..]);
    }
  }

  lemma {:induction false} UndroppedAll(lines: seq<string>, dropped: seq<bool>)
    requires |dropped| == |lines| && forall i :: 0 <= i < |lines| ==> !dropped[i]
    ensures Undropped(lines, dropped) == lines
  {
    if lines != [] {
      UndroppedAll(lines[1..], dropped[1..]);
      assert lines == [lines[0]] + lines[1..];
    }
  }

  lemma {:induction false} UndroppedAround(lines: seq<string>, dropped: seq<bool>, n: nat)
    requires n + 3 <= |lines| == |dropped|
    requires forall i :: 0 <= i < |lines| ==> (dropped[i] <==> n <= i <= n + 2)
    ensures Undropped(lines, dropped) == lines[..n] + lines[n + 3..]
    decreases n
  {
    if n > 0 {
      UndroppedAround(lines[1..], dropped[1..], n - 1);
      assert lines == [lines[0]] + lines[1..];
      Cons(lines[0], lines[1..], n);
      Cons(lines[0], lines[1..], n + 3);
      Assoc([lines[0]], lines[1..][..n - 1], lines[1..][n + 2..]);
    } else {
      var l, d := lines[3..], dropped[3..];
      UndroppedAll(l, d);
      assert lines[1..][1..][1..] == l && dropped[1..][1..][1..] == d;
      assert Undropped(lines[1..][1..], dropped[1..][1..]) == [] + Undropped(l, d);
      assert Undropped(lines[1..], dropped[1..]) == [] + Undropped(lines[1..][1..], dropped[1..][1..]);
    }
  }

  lemma BlockInLines(lines: seq<string>, n: nat)
    requires n + 3 <= |lines| && IsBlank(lines[n]) && IsComment(lines[n + 1])
    requires forall i :: 0 <= i < |lines| ==> (IsKey(lines[i]) <==> i == n + 2)
    ensures Kept(lines, 0) == lines[..n] + lines[n + 3..]
  {
    var dropped := BlockIsMarked(lines, n);
    KeptIsUndropped(lines, 0, dropped);
    assert lines[0..] == lines;
    UndroppedAround(lines, dropped, n);
  }

  lemma BlockIsMarked(lines: seq<string>, n: nat) returns (dropped: seq<bool>)
    requires n + 3 <= |lines| && IsBlank(lines[n]) && IsComment(lines[n + 1])
    requires forall i :: 0 <= i < |lines| ==> (IsKey(lines[i]) <==> i == n + 2)
    ensures |dropped| == |lines| && forall i :: 0 <= i < |lines| ==> dropped[i] == IsLegacy(lines, i)
    ensures forall i :: 0 <= i < |lines| ==> (dropped[i] <==> n <= i <= n + 2)
  {
    OnlyTheBlockIsLegacy(lines, n);
    dropped := seq(|lines|, i requires 0 <= i < |lines| => n <= i <= n + 2);
  }

  lemma OnlyTheBlockIsLegacy(lines: seq<string>, n: nat)
    requires n + 3 <= |lines| && IsBlank(lines[n]) && IsComment(lines[n + 1])
    requires forall i :: 0 <= i < |lines| ==> (IsKey(lines[i]) <==> i == n + 2)
    ensures forall i :: 0 <= i < |lines| ==> (IsLegacy(lines, i) <==> n <= i <= n + 2)
  {
    forall i | 0 <= i < |lines|
      ensures IsLegacy(lines, i) <==> n <= i <= n + 2
    {
      LegacyBeside(lines, i, n + 2);
    }
  }

  lemma LegacyBeside(lines: seq<string>, i: nat, key: nat)
    requires i < |lines| && key < |lines| && forall k :: 0 <= k < |lines| ==> (IsKey(lines[k]) <==> k == key)
    ensures IsLegacy(lines, i) <==>
      || i == key || (i + 1 == key && IsComment(lines[i]))
      || (i + 2 == key && IsComment(lines[i + 1]) && IsBlank(lines[i]))
  {}

  /** Where the lines of the whole come from. */
  lemma LinesOfWhole(before: seq<string>, block: seq<string>, after: seq<string>)
    requires |block| == 3
    ensures var lines, n := before + block + after, |before|;
      && lines[..n] == before && lines[n + 3..] == after
      && lines[n] == block[0] && lines[n + 1] == block[1] && lines[n + 2] == block[2]
      && forall i :: 0 <= i < |lines| && !(n <= i < n + 3) ==> lines[i] in before + after
  {
    var lines, n := before + block + after, |before|;
    forall i | 0 <= i < |lines| && !(n <= i < n + 3)
      ensures lines[i] in before + after
    {
      if i < n {
        assert lines[i] == before[i];
      } else {
        assert lines[i] == after[i - n - 3];
      }
    }
  }

  /** Exactly the block goes: the lines before it and after it come out as they were. */
  lemma AppendedBlockGoes(before: seq<string>, block: Block, after: seq<string>)
    requires block.IsPlaced() && AreLines(before + block.Lines() + after)
    requires forall line :: line in before + after ==> !IsKey(line)
    ensures Cleaned(Join(before + block.Lines() + after)) == Join(before + after)
  {
    var lines, n := before + block.Lines() + after, |before|;
    BlockIsRecognised(block);
    JoinThenSplit(lines);
    LinesOfWhole(before, block.Lines(), after);
    BlockInLines(lines, n);
  }
}
