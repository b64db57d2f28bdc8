/** Rewriting only the marked section of a guide the user edits
    (`src/guide_section.rs`). Positions count characters; both markers are ASCII. */
module GuideSection {
  import opened Base
  import opened Sequences

  datatype Markers = Markers(begin: string, end: string)

  const MARKERS := Markers("<" + "!-- nestweaver:begin --" + ">", "<" + "!-- nestweaver:end --" + ">")

  /** Opens with the only `<`, closes with the only `>`, and stays on one line. */
  predicate IsMarker(m: string) {
    && |m| >= 2 && m[0] == '<' && m[|m| - 1] == '>'
    && (forall i :: 0 < i < |m| ==> m[i] != '<')
    && (forall i :: 0 <= i < |m| - 1 ==> m[i] != '>')
    && (forall i :: 0 <= i < |m| ==> m[i] != '\n')
  }

  predicate AreMarkers(m: Markers) {
    IsMarker(m.begin) && IsMarker(m.end) && m.begin != m.end
  }

  lemma TheMarkers()
    ensures AreMarkers(MARKERS)
    ensures MARKERS.begin == "<" + "!-- nestweaver:begin --" + ">" && MARKERS.end == "<" + "!-- nestweaver:end --" + ">"
  {
    BeginMarker();
    EndMarker();
    assert |MARKERS.begin| != |MARKERS.end|;
  }

  lemma BeginMarker()
    ensures IsMarker(MARKERS.begin)
  {}

  lemma EndMarker()
    ensures IsMarker(MARKERS.end)
  {}

  // ----- Searching ------------------------------------------------------------

  predicate Occurs(text: string, m: string, at: int) {
    0 <= at && at + |m| <= |text| && text[at..at + |m|] == m
  }

  ghost predicate Contains(text: string, m: string) {
    exists at :: Occurs(text, m, at)
  }

  /** `text.match_indices(m)`: leftmost matches that do not overlap. */
  function MatchIndices(text: string, m: string, from: nat): (found: seq<nat>)
    requires m != ""
    ensures forall at :: at in found ==> from <= at && Occurs(text, m, at)
    decreases |text| - from
  {
    if from + |m| > |text| then []
    else if Occurs(text, m, from) then [from] + MatchIndices(text, m, from + |m|)
    else MatchIndices(text, m, from + 1)
  }

  lemma Letters(text: string, m: string, at: int)
    requires Occurs(text, m, at)
    ensures forall k :: at <= k < at + |m| ==> text[k] == m[k - at]
  {
    assert forall k :: at <= k < at + |m| ==> text[k] == text[at..at + |m|][k - at];
  }

  lemma NoOverlap(text: string, m: string, a: int, b: int)
    requires IsMarker(m) && Occurs(text, m, a) && Occurs(text, m, b) && a < b
    ensures a + |m| <= b
  {
    Letters(text, m, a);
    Letters(text, m, b);
  }

  /** For a marker, the matches are all the occurrences. */
  lemma {:induction false} MatchesAreOccurrences(text: string, m: string, from: nat)
    requires IsMarker(m)
    ensures forall at :: at in MatchIndices(text, m, from) <==> at >= from && Occurs(text, m, at)
    ensures |MatchIndices(text, m, from)| > 1 ==>
      MatchIndices(text, m, from)[0] < MatchIndices(text, m, from)[1]
    decreases |text| - from
  {
    if from + |m| <= |text| {
      if Occurs(text, m, from) {
        MatchesAreOccurrences(text, m, from + |m|);
        var rest := MatchIndices(text, m, from + |m|);
        assert rest != [] ==> rest[0] in rest;
        forall at | Occurs(text, m, at) && at > from
          ensures at >= from + |m|
        {
          NoOverlap(text, m, from, at);
        }
      } else {
        MatchesAreOccurrences(text, m, from + 1);
      }
    }
  }

  ghost predicate OccursOnlyAt(text: string, m: string, at: int) {
    Occurs(text, m, at) && forall other :: Occurs(text, m, other) ==> other == at
  }

  lemma OneMatch(text: string, m: string)
    requires IsMarker(m)
    ensures MatchIndices(text, m, 0) == [] <==> !Contains(text, m)
    ensures forall at :: OccursOnlyAt(text, m, at) <==> MatchIndices(text, m, 0) == [at]
  {
    var found := MatchIndices(text, m, 0);
    MatchesAreOccurrences(text, m, 0);
    assert found != [] ==> found[0] in found;
    assert |found| > 1 ==> found[1] in found;
    forall at
      ensures OccursOnlyAt(text, m, at) <==> found == [at]
    {
      assert found == [at] ==> at in found;
      assert OccursOnlyAt(text, m, at) ==> at in found;
    }
  }

  // ----- The operations -------------------------------------------------------

  datatype Refusal = GeneratedHasMarker | NoMarkers | NotOnePair | EndBeforeBegin

  predicate Has(text: string, m: string)
    requires m != ""
  {
    MatchIndices(text, m, 0) != []
  }

  function SectionBody(generated: string, m: Markers): Result<string, Refusal>
    requires m.begin != "" && m.end != ""
  {
    if Has(generated, m.begin) || Has(generated, m.end) then Err(GeneratedHasMarker)
    else Ok(if EndsWith(generated, "\n") then generated else generated + "\n")
  }

  /** The text around and between a pair of markers. */
  function Assemble(before: string, middle: string, after: string, m: Markers): string {
    before + (m.begin + (middle + (m.end + after)))
  }

  function RenderMarked(generated: string, m: Markers): Result<string, Refusal>
    requires m.begin != "" && m.end != ""
  {
    var body :- SectionBody(generated, m);
    Ok(Assemble("", "\n" + body, "\n", m))
  }

  function SpliceMarked(existing: string, generated: string, m: Markers): Result<string, Refusal>
    requires m.begin != "" && m.end != ""
  {
    var body :- SectionBody(generated, m);
    var begins, ends := MatchIndices(existing, m.begin, 0), MatchIndices(existing, m.end, 0);
    if begins == [] && ends == [] then Err(NoMarkers)
    else if |begins| != 1 || |ends| != 1 then Err(NotOnePair)
    else if ends[0] < begins[0] + |m.begin| then Err(EndBeforeBegin)
    else
      assert begins[0] in begins && ends[0] in ends;
      Ok(Assemble(existing[..begins[0]], "\n" + body, existing[ends[0] + |m.end|..], m))
  }

  // ----- Seams ----------------------------------------------------------------

  /** No marker can straddle the seam between `a` and `b`. */
  predicate IsSeam(a: string, b: string) {
    a == "" || b == "" || b[0] in "<\n" || a[|a| - 1] in ">\n"
  }

  lemma OccurrenceSplits(a: string, b: string, m: string, at: int)
    requires IsMarker(m) && IsSeam(a, b) && Occurs(a + b, m, at)
    ensures Occurs(a, m, at) || (at >= |a| && Occurs(b, m, at - |a|))
  {
    Letters(a + b, m, at);
    assert b != "" ==> (a + b)[|a|] == b[0];
    assert a != "" ==> (a + b)[|a| - 1] == a[|a| - 1];
    if at + |m| <= |a| {
      assert a[at..at + |m|] == (a + b)[at..at + |m|];
    } else if at >= |a| {
      assert b[at - |a|..at - |a| + |m|] == (a + b)[at..at + |m|];
    }
  }

  lemma OccurrenceAcross(a: string, b: string, m: string, at: int)
    requires IsMarker(m) && IsSeam(a, b)
    ensures Occurs(a + b, m, at) <==> Occurs(a, m, at) || (at >= |a| && Occurs(b, m, at - |a|))
  {
    if Occurs(a + b, m, at) {
      OccurrenceSplits(a, b, m, at);
    }
    if Occurs(a, m, at) {
      assert a[at..at + |m|] == (a + b)[at..at + |m|];
    }
    if at >= |a| && Occurs(b, m, at - |a|) {
      assert b[at - |a|..at - |a| + |m|] == (a + b)[at..at + |m|];
    }
  }

  ghost predicate IsClean(text: string, m: Markers) {
    !(Contains(text, m.begin) || Contains(text, m.end))
  }

  /** A marker occurs in itself once and in the other marker not at all. */
  lemma MarkerInMarker(m: string, other: string, at: int)
    requires IsMarker(m) && IsMarker(other)
    ensures Occurs(other, m, at) <==> at == 0 && m == other
  {
    assert m[0..|m|] == m;
    if Occurs(other, m, at) {
      Letters(other, m, at);
      assert other[at] == '<';
      assert other[at + |m| - 1] == '>';
    }
  }

  lemma OccurrenceInAssembly(before: string, middle: string, after: string, m: Markers, marker: string, at: int)
    requires AreMarkers(m) && IsMarker(marker)
    requires !Contains(before, marker) && !Contains(middle, marker) && !Contains(after, marker)
    ensures Occurs(Assemble(before, middle, after, m), marker, at) <==>
      || Occurs(m.begin, marker, at - |before|)
      || Occurs(m.end, marker, at - |before| - |m.begin| - |middle|)
  {
    var ended := m.end + after;
    var middled := middle + ended;
    OccurrenceAcross(before, m.begin + middled, marker, at);
    OccurrenceAcross(m.begin, middled, marker, at - |before|);
    OccurrenceAcross(middle, ended, marker, at - |before| - |m.begin|);
    OccurrenceAcross(m.end, after, marker, at - |before| - |m.begin| - |middle|);
  }

  /** Clean text around and between one pair holds exactly that pair. */
  lemma AssembledPair(before: string, middle: string, after: string, m: Markers)
    requires AreMarkers(m) && IsClean(before, m) && IsClean(middle, m) && IsClean(after, m)
    ensures var text := Assemble(before, middle, after, m);
      && OccursOnlyAt(text, m.begin, |before|)
      && OccursOnlyAt(text, m.end, |before| + |m.begin| + |middle|)
  {
    var text := Assemble(before, middle, after, m);
    forall at: int
      ensures Occurs(text, m.begin, at) <==> at == |before|
      ensures Occurs(text, m.end, at) <==> at == |before| + |m.begin| + |middle|
    {
      OccurrenceInAssembly(before, middle, after, m, m.begin, at);
      OccurrenceInAssembly(before, middle, after, m, m.end, at);
      MarkerInMarker(m.begin, m.begin, at - |before|);
      MarkerInMarker(m.begin, m.end, at - |before| - |m.begin| - |middle|);
      MarkerInMarker(m.end, m.begin, at - |before|);
      MarkerInMarker(m.end, m.end, at - |before| - |m.begin| - |middle|);
    }
  }

  // ----- What is accepted, and what comes out ---------------------------------

  lemma SliceOfSlice(text: string, lo: int, hi: int, k: int, n: int)
    requires 0 <= lo <= hi <= |text| && 0 <= k && 0 <= n && k + n <= hi - lo
    ensures text[lo..hi][k..k + n] == text[lo + k..lo + k + n]
  {
    var a, b := text[lo..hi][k..k + n], text[lo + k..lo + k + n];
    assert forall i :: 0 <= i < n ==> a[i] == b[i];
  }

  lemma PartIsClean(text: string, lo: nat, hi: nat, marker: string, at: int)
    requires lo <= hi <= |text| && IsMarker(marker)
    requires OccursOnlyAt(text, marker, at) && (at < lo || hi < at + |marker|)
    ensures !Contains(text[lo..hi], marker)
  {
    forall k
      ensures !Occurs(text[lo..hi], marker, k)
    {
      if Occurs(text[lo..hi], marker, k) {
        SliceOfSlice(text, lo, hi, k, |marker|);
        assert Occurs(text, marker, lo + k);
      }
    }
  }

  lemma PartsAreClean(text: string, marker: string, at: int, begin: nat, afterBegin: nat, end: nat, afterEnd: nat)
    requires IsMarker(marker) && OccursOnlyAt(text, marker, at)
    requires begin <= afterBegin <= end <= afterEnd <= |text|
    requires (at == begin && at + |marker| == afterBegin) || (at == end && at + |marker| == afterEnd)
    ensures !Contains(text[..begin], marker)
    ensures !Contains(text[afterBegin..end], marker)
    ensures !Contains(text[afterEnd..], marker)
  {
    PartIsClean(text, 0, begin, marker, at);
    PartIsClean(text, afterBegin, end, marker, at);
    PartIsClean(text, afterEnd, |text|, marker, at);
    assert text[0..begin] == text[..begin] && text[afterEnd..|text|] == text[afterEnd..];
  }

  lemma CutInFive(text: string, a: nat, b: nat, c: nat, d: nat)
    requires a <= b <= c <= d <= |text|
    ensures text == text[..a] + (text[a..b] + (text[b..c] + (text[c..d] + text[d..])))
  {
    assert text[c..] == text[c..d] + text[d..];
    assert text[b..] == text[b..c] + text[c..];
    assert text[a..] == text[a..b] + text[b..];
  }

  /** Clean text around and between one pair of markers. */
  ghost predicate IsOnePair(text: string, before: string, middle: string, after: string, m: Markers) {
    text == Assemble(before, middle, after, m) && IsClean(before, m) && IsClean(middle, m) && IsClean(after, m)
  }

  lemma AssembledParts(before: string, middle: string, after: string, m: Markers)
    ensures var text := Assemble(before, middle, after, m);
      text[..|before|] == before && text[|before| + |m.begin| + |middle| + |m.end|..] == after
  {}

  lemma PairIsFound(existing: string, before: string, middle: string, after: string, m: Markers)
    requires AreMarkers(m) && IsOnePair(existing, before, middle, after, m)
    ensures MatchIndices(existing, m.begin, 0) == [|before|]
    ensures MatchIndices(existing, m.end, 0) == [|before| + |m.begin| + |middle|]
  {
    AssembledPair(before, middle, after, m);
    OneMatch(existing, m.begin);
    OneMatch(existing, m.end);
  }

  lemma SpliceOfPair(existing: string, before: string, middle: string, after: string, generated: string, m: Markers)
    requires AreMarkers(m) && IsOnePair(existing, before, middle, after, m)
    ensures SpliceMarked(existing, generated, m) ==
      match SectionBody(generated, m)
      case Ok(body) => Ok(Assemble(before, "\n" + body, after, m))
      case Err(refusal) => Err(refusal)
  {
    PairIsFound(existing, before, middle, after, m);
    AssembledParts(before, middle, after, m);
  }

  lemma AcceptedMatches(existing: string, generated: string, m: Markers) returns (begin: nat, end: nat)
    requires AreMarkers(m) && SpliceMarked(existing, generated, m).Ok?
    ensures MatchIndices(existing, m.begin, 0) == [begin] && MatchIndices(existing, m.end, 0) == [end]
    ensures begin + |m.begin| <= end
  {
    begin, end := MatchIndices(existing, m.begin, 0)[0], MatchIndices(existing, m.end, 0)[0];
  }

  /** A text with one pair in order, cut at its markers. */
  lemma CutAtMarkers(text: string, m: Markers, begin: nat, end: nat)
    requires AreMarkers(m) && OccursOnlyAt(text, m.begin, begin) && OccursOnlyAt(text, m.end, end)
    requires begin + |m.begin| <= end
    ensures exists before, middle, after :: IsOnePair(text, before, middle, after, m)
  {
    PartsAreClean(text, m.begin, begin, begin, begin + |m.begin|, end, end + |m.end|);
    PartsAreClean(text, m.end, end, begin, begin + |m.begin|, end, end + |m.end|);
    AssembledFrom(text, m, begin, end);
    assert IsOnePair(text, text[..begin], text[begin + |m.begin|..end], text[end + |m.end|..], m);
  }

  lemma AssembledFrom(text: string, m: Markers, begin: nat, end: nat)
    requires Occurs(text, m.begin, begin) && Occurs(text, m.end, end) && begin + |m.begin| <= end
    ensures text == Assemble(text[..begin], text[begin + |m.begin|..end], text[end + |m.end|..], m)
  {
    CutInFive(text, begin, begin + |m.begin|, end, end + |m.end|);
  }

  lemma MatchesCutTheText(text: string, m: Markers, begin: nat, end: nat)
    requires AreMarkers(m) && begin + |m.begin| <= end
    requires MatchIndices(text, m.begin, 0) == [begin] && MatchIndices(text, m.end, 0) == [end]
    ensures exists before, middle, after :: IsOnePair(text, before, middle, after, m)
  {
    assert OccursOnlyAt(text, m.begin, begin) by { OneMatch(text, m.begin); }
    assert OccursOnlyAt(text, m.end, end) by { OneMatch(text, m.end); }
    CutAtMarkers(text, m, begin, end);
  }

  /** A file is accepted exactly when it consists of one pair of markers with clean
      text before, between and after. */
  lemma AcceptedIff(existing: string, generated: string, m: Markers)
    requires AreMarkers(m) && SectionBody(generated, m).Ok?
    ensures SpliceMarked(existing, generated, m).Ok? <==>
      exists before, middle, after :: IsOnePair(existing, before, middle, after, m)
  {
    if SpliceMarked(existing, generated, m).Ok? {
      var begin, end := AcceptedMatches(existing, generated, m);
      MatchesCutTheText(existing, m, begin, end);
    } else if before, middle, after :| IsOnePair(existing, before, middle, after, m) {
      SpliceOfPair(existing, before, middle, after, generated, m);
    }
  }

  lemma BodyIsClean(generated: string, m: Markers)
    requires AreMarkers(m) && SectionBody(generated, m).Ok?
    ensures IsClean("\n" + SectionBody(generated, m).value, m)
  {
    OneMatch(generated, m.begin);
    OneMatch(generated, m.end);
    var body := SectionBody(generated, m).value;
    forall marker, at | marker in [m.begin, m.end]
      ensures !Occurs("\n" + body, marker, at)
    {
      OccurrenceAcross("\n", body, marker, at);
      OccurrenceAcross(generated, "\n", marker, at - 1);
    }
    assert m.begin in [m.begin, m.end] && m.end in [m.begin, m.end];
  }

  /** The outcome of a splice is again one pair in order, around it exactly the text
      that was there, so a second splice replaces the first one. */
  lemma SpliceLastWriterWins(existing: string, first: string, second: string, m: Markers)
    requires AreMarkers(m) && SpliceMarked(existing, first, m).Ok?
    ensures var once := SpliceMarked(existing, first, m).value;
      && SpliceMarked(once, second, m) == SpliceMarked(existing, second, m)
      && exists before, middle, after ::
           && IsOnePair(existing, before, middle, after, m)
           && IsOnePair(once, before, "\n" + SectionBody(first, m).value, after, m)
  {
    AcceptedIff(existing, first, m);
    var before, middle, after :| IsOnePair(existing, before, middle, after, m);
    var body := "\n" + SectionBody(first, m).value;
    SpliceOfPair(existing, before, middle, after, first, m);
    SpliceOfPair(existing, before, middle, after, second, m);
    BodyIsClean(first, m);
    assert IsOnePair(SpliceMarked(existing, first, m).value, before, body, after, m);
    SpliceOfPair(SpliceMarked(existing, first, m).value, before, body, after, second, m);
  }

  lemma EmptyIsClean(m: Markers)
    requires AreMarkers(m)
    ensures IsClean("", m) && IsClean("\n", m)
  {}

  lemma SpliceIntoRendered(first: string, second: string, m: Markers)
    requires AreMarkers(m) && RenderMarked(first, m).Ok?
    ensures SpliceMarked(RenderMarked(first, m).value, second, m) == RenderMarked(second, m)
  {
    EmptyIsClean(m);
    BodyIsClean(first, m);
    var body := "\n" + SectionBody(first, m).value;
    assert IsOnePair(RenderMarked(first, m).value, "", body, "\n", m);
    SpliceOfPair(RenderMarked(first, m).value, "", body, "\n", second, m);
  }

  // ----- The file -------------------------------------------------------------

  datatype Wrote = Created | Updated

  function Write(contents: Option<string>, generated: string, m: Markers): Result<string, Refusal>
    requires m.begin != "" && m.end != ""
  {
    match contents
    case None => RenderMarked(generated, m)
    case Some(existing) => SpliceMarked(existing, generated, m)
  }

  lemma CleanIffNotHas(text: string, m: Markers)
    requires AreMarkers(m)
    ensures IsClean(text, m) <==> !Has(text, m.begin) && !Has(text, m.end)
  {
    OneMatch(text, m.begin);
    OneMatch(text, m.end);
  }

  /** The text of a written file: what stood around the section, or nothing and a line
      feed in a new file, and between the markers the generated text on its own lines. */
  predicate IsWritten(text: string, before: string, generated: string, after: string, m: Markers) {
    var nl := if generated != "" && generated[|generated| - 1] == '\n' then "" else "\n";
    text == before + m.begin + "\n" + generated + nl + m.end + after
  }

  lemma BodyIsWritten(before: string, generated: string, after: string, m: Markers)
    requires AreMarkers(m) && IsClean(generated, m)
    ensures SectionBody(generated, m).Ok?
    ensures IsWritten(Assemble(before, "\n" + SectionBody(generated, m).value, after, m), before, generated, after, m)
  {
    CleanIffNotHas(generated, m);
    var body := SectionBody(generated, m).value;
    PushedParts(before, "\n", body, after, m);
    var nl := if generated != "" && generated[|generated| - 1] == '\n' then "" else "\n";
    assert EndsWith(generated, "\n") <==> nl == "";
    assert body == generated + nl;
    Assoc(before + m.begin + "\n", generated, nl);
  }

  /** A write is refused exactly when the generated text holds a marker or a file that is
      there is not one pair of markers in order; otherwise the file holds the generated
      text in the section, and around it what was there. */
  lemma WriteMeans(contents: Option<string>, generated: string, m: Markers)
    requires AreMarkers(m)
    ensures Write(contents, generated, m).Ok? <==>
      && IsClean(generated, m)
      && (contents.Some? ==> exists before, middle, after :: IsOnePair(contents.value, before, middle, after, m))
    ensures contents.None? && Write(contents, generated, m).Ok? ==>
      IsWritten(Write(contents, generated, m).value, "", generated, "\n", m)
    ensures contents.Some? && Write(contents, generated, m).Ok? ==>
      forall before, middle, after :: IsOnePair(contents.value, before, middle, after, m) ==>
        IsWritten(Write(contents, generated, m).value, before, generated, after, m)
  {
    CleanIffNotHas(generated, m);
    if IsClean(generated, m) {
      BodyIsWritten("", generated, "\n", m);
      if contents.Some? {
        AcceptedIff(contents.value, generated, m);
        forall before, middle, after | IsOnePair(contents.value, before, middle, after, m)
          ensures IsWritten(Write(contents, generated, m).value, before, generated, after, m)
        {
          SpliceOfPair(contents.value, before, middle, after, generated, m);
          BodyIsWritten(before, generated, after, m);
        }
      }
    }
  }

  /** Why a file that is there is refused. */
  lemma RefusedIff(existing: string, generated: string, m: Markers)
    requires AreMarkers(m)
    ensures var result := Write(Some(existing), generated, m);
      && (result == Err(GeneratedHasMarker) <==> !IsClean(generated, m))
      && (result == Err(NoMarkers) <==> IsClean(generated, m) && IsClean(existing, m))
      && (result == Err(EndBeforeBegin) <==>
            IsClean(generated, m) && exists begin, end ::
              OccursOnlyAt(existing, m.begin, begin) && OccursOnlyAt(existing, m.end, end) && end < begin + |m.begin|)
  {
    CleanIffNotHas(generated, m);
    CleanIffNotHas(existing, m);
    OneMatch(existing, m.begin);
    OneMatch(existing, m.end);
    var begins, ends := MatchIndices(existing, m.begin, 0), MatchIndices(existing, m.end, 0);
    if |begins| == 1 && |ends| == 1 {
      assert begins == [begins[0]] && ends == [ends[0]];
      assert OccursOnlyAt(existing, m.begin, begins[0]) && OccursOnlyAt(existing, m.end, ends[0]);
    }
  }

  /** Whatever the file was, writing twice is writing the second time only. */
  lemma WriteLastWriterWins(contents: Option<string>, first: string, second: string, m: Markers)
    requires AreMarkers(m) && Write(contents, first, m).Ok?
    ensures Write(Some(Write(contents, first, m).value), second, m) == Write(contents, second, m)
  {
    match contents
    case None => SpliceIntoRendered(first, second, m);
    case Some(existing) => SpliceLastWriterWins(existing, first, second, m);
  }

  lemma PushedParts(before: string, newline: string, body: string, after: string, m: Markers)
    ensures before + m.begin + newline + body + m.end + after == Assemble(before, newline + body, after, m)
  {
    var head, tail := before + m.begin, m.end + after;
    assert head + newline + body == head + (newline + body);
    assert head + (newline + body) + m.end + after == head + ((newline + body) + tail);
    assert head + ((newline + body) + tail) == before + (m.begin + ((newline + body) + tail));
  }

  class GuideFile {
    var contents: Option<string>

    constructor (contents: Option<string>)
      ensures this.contents == contents
    {
      this.contents := contents;
    }

    static method Splice(existing: string, generated: string, m: Markers) returns (spliced: Result<string, Refusal>)
      requires AreMarkers(m)
      ensures spliced == SpliceMarked(existing, generated, m)
    {
      var body := SectionBody(generated, m);
      if body.Err? {
        return Err(body.error);
      }
      var begins := MatchIndices(existing, m.begin, 0);
      var ends := MatchIndices(existing, m.end, 0);
      if begins == [] && ends == [] {
        return Err(NoMarkers);
      }
      if |begins| != 1 || |ends| != 1 {
        return Err(NotOnePair);
      }
      var begin, end := begins[0], ends[0];
      if end < begin + |m.begin| {
        return Err(EndBeforeBegin);
      }
      assert begin in begins && end in ends;
      var out := existing[..begin];
      out := out + m.begin;
      out := out + "\n";
      out := out + body.value;
      out := out + m.end;
      out := out + existing[end + |m.end|..];
      PushedParts(existing[..begin], "\n", body.value, existing[end + |m.end|..], m);
      return Ok(out);
    }

    /** A refused write leaves the file as it was. */
    method WriteMarkedSection(generated: string, m: Markers) returns (outcome: Result<Wrote, Refusal>)
      requires AreMarkers(m)
      modifies this
      ensures match Write(old(contents), generated, m)
              case Ok(text) =>
                contents == Some(text) && outcome == Ok(if old(contents).None? then Created else Updated)
              case Err(refusal) => contents == old(contents) && outcome == Err(refusal)
    {
      if contents.None? {
        var rendered := RenderMarked(generated, m);
        if rendered.Err? {
          return Err(rendered.error);
        }
        contents := Some(rendered.value);
        return Ok(Created);
      }
      var spliced := Splice(contents.value, generated, m);
      if spliced.Err? {
        return Err(spliced.error);
      }
      contents := Some(spliced.value);
      return Ok(Updated);
    }
  }
}
