/** Quoting of a database path as one POSIX shell word, and the recogniser that
    `setup` uses to find the words it wrote earlier (`src/setup.rs`).

    The reference is an independent reader of shell input: token recognition as
    in section 2.3 of the POSIX.1-2017 Shell Command Language, with the backslash
    and single-quote rules of sections 2.2.1 and 2.2.2. */
module ShellWord {
  import opened Base

  // ----- What the shell reads -------------------------------------------------

  datatype Token = Word(text: string) | Operator(symbol: char)

  /** `NeedsExpansion` marks input that is not decided by quoting alone: a double
      quote, a dollar sign or a backquote outside single quotes. */
  datatype Reading = Tokens(tokens: seq<Token>) | Unterminated | NeedsExpansion

  datatype Mode = Between | InWord(text: string) | InQuotes(text: string)
  {
    function Text(): string {
      if Between? then "" else text
    }

    function Finished(): seq<Token> {
      if InWord? then [Word(text)] else []
    }
  }

  function Emit(first: seq<Token>, rest: Reading): Reading {
    if rest.Tokens? then Tokens(first + rest.tokens) else rest
  }

  predicate IsOperator(c: char) {
    c in "|&;<>()\n"
  }

  function AfterLine(s: string): (r: string)
    ensures |r| <= |s|
  {
    if s == "" || s[0] == '\n' then s else AfterLine(s[1..])
  }

  function Read(s: string, mode: Mode): Reading
    decreases |s|
  {
    if s == "" then
      if mode.InQuotes? then Unterminated else Tokens(mode.Finished())
    else if mode.InQuotes? then
      Read(s[1..], if s[0] == '\'' then InWord(mode.text) else InQuotes(mode.text + [s[0]]))
    else if s[0] == '\'' then
      Read(s[1..], InQuotes(mode.Text()))
    else if s[0] == '\\' then
      if |s| == 1 then Unterminated
      else if s[1] == '\n' then Read(s[2..], mode)
      else Read(s[2..], InWord(mode.Text() + [s[1]]))
    else if s[0] in "\"$`" then
      NeedsExpansion
    else if s[0] in " \t" then
      Emit(mode.Finished(), Read(s[1..], Between))
    else if IsOperator(s[0]) then
      Emit(mode.Finished() + [Operator(s[0])], Read(s[1..], Between))
    else if s[0] == '#' && mode.Between? then
      Read(AfterLine(s[1..]), Between)
    else
      Read(s[1..], InWord(mode.Text() + [s[0]]))
  }

  function Tokenise(s: string): Reading {
    Read(s, Between)
  }

  // ----- What setup writes ----------------------------------------------------

  const CLOSE_ESCAPE_REOPEN := "'\\''"

  /** `value.replace('\'', r"'\''")` */
  function Escape(value: string): string {
    if value == "" then ""
    else (if value[0] == '\'' then CLOSE_ESCAPE_REOPEN else [value[0]]) + Escape(value[1..])
  }

  function ShellQuote(value: string): string {
    "'" + Escape(value) + "'"
  }

  /** `inner.replace(r"'\''", "'")`: leftmost matches, not overlapping. */
  function Unescape(inner: string): string {
    if inner == "" then ""
    else if StartsWith(inner, CLOSE_ESCAPE_REOPEN) then "'" + Unescape(inner[4..])
    else [inner[0]] + Unescape(inner[1..])
  }

  predicate IsBare(c: char) {
    !IsWhitespace(c) && c !in ";|&$()<>'\"\\`*?[]{}"
  }

  predicate IsOneShellWord(word: string) {
    if StartsWith(word, "'") then
      && EndsWith(word[1..], "'")
      && ShellQuote(Unescape(word[1..|word| - 1])) == word
    else
      word != "" && forall i :: 0 <= i < |word| ==> IsBare(word[i])
  }

  // ----- Reading back what was written ----------------------------------------

  /** Inside quotes, the escaped text of `value` followed by the closing quote
      leaves the reader in an unfinished word that has gained exactly `value`. */
  lemma {:induction false} EscapedTextIsLiteral(value: string, rest: string, seen: string)
    ensures Read(Escape(value) + "'" + rest, InQuotes(seen)) == Read(rest, InWord(seen + value))
    decreases |value|
  {
    var input := Escape(value) + "'" + rest;
    if value == "" {
      assert input[1..] == rest && seen + value == seen;
    } else {
      var tail := Escape(value[1..]) + "'" + rest;
      assert seen + [value[0]] + value[1..] == seen + value;
      EscapedTextIsLiteral(value[1..], rest, seen + [value[0]]);
      if value[0] == '\'' {
        assert input == CLOSE_ESCAPE_REOPEN + tail;
        var closed, escaped := "\\''" + tail, "'" + tail;
        assert input[1..] == closed && closed[2..] == escaped && escaped[1..] == tail;
        assert Read(input, InQuotes(seen)) == Read(closed, InWord(seen));
        assert Read(closed, InWord(seen)) == Read(escaped, InWord(seen + ['\'']));
      } else {
        assert input == [value[0]] + tail;
        assert input[1..] == tail;
      }
    }
  }

  /** Wherever it stands outside quotes, a quoted value is literal text: the
      reader comes out with `value` appended to the word it was building. */
  lemma QuotedTextInContext(value: string, rest: string, mode: Mode)
    requires !mode.InQuotes?
    ensures Read(ShellQuote(value) + rest, mode) == Read(rest, InWord(mode.Text() + value))
  {
    EscapedTextIsLiteral(value, rest, mode.Text());
    assert (ShellQuote(value) + rest)[1..] == Escape(value) + "'" + rest;
  }

  lemma QuotedIsOneWord(value: string)
    ensures Tokenise(ShellQuote(value)) == Tokens([Word(value)])
  {
    QuotedTextInContext(value, "", Between);
    assert ShellQuote(value) + "" == ShellQuote(value) && "" + value == value;
  }

  lemma {:induction false} UnescapeEscape(value: string)
    ensures Unescape(Escape(value)) == value
    decreases |value|
  {
    if value != "" {
      UnescapeEscape(value[1..]);
      var tail := Escape(value[1..]);
      if value[0] == '\'' {
        assert Escape(value) == CLOSE_ESCAPE_REOPEN + tail;
        assert (CLOSE_ESCAPE_REOPEN + tail)[4..] == tail;
      } else {
        assert Escape(value)[1..] == tail;
      }
    }
  }

  lemma ShellQuoteInjective(a: string, b: string)
    ensures ShellQuote(a) == ShellQuote(b) ==> a == b
  {
    QuotedIsOneWord(a);
    QuotedIsOneWord(b);
  }

  /** The quoted branch of the recogniser accepts the image of `ShellQuote`, and
      nothing else. */
  lemma QuotedBranchIsExact(word: string)
    requires StartsWith(word, "'")
    ensures IsOneShellWord(word) <==> exists value :: word == ShellQuote(value)
  {
    if IsOneShellWord(word) {
      assert word == ShellQuote(Unescape(word[1..|word| - 1]));
    }
    forall value | word == ShellQuote(value)
      ensures IsOneShellWord(word)
    {
      UnescapeEscape(value);
      assert word[1..|word| - 1] == Escape(value);
    }
  }

  /** Plain text read inside a word stays literal. */
  lemma {:induction false} BareTextInContext(text: string, rest: string, seen: string)
    requires forall i :: 0 <= i < |text| ==> IsBare(text[i])
    ensures Read(text + rest, InWord(seen)) == Read(rest, InWord(seen + text))
    decreases |text|
  {
    if text == "" {
      assert text + rest == rest && seen + text == seen;
    } else {
      assert (text + rest)[1..] == text[1..] + rest;
      assert seen + [text[0]] + text[1..] == seen + text;
      BareTextInContext(text[1..], rest, seen + [text[0]]);
    }
  }

  lemma BareWordInContext(word: string, rest: string)
    requires word != "" && word[0] != '#'
    requires forall i :: 0 <= i < |word| ==> IsBare(word[i])
    ensures Read(word + rest, Between) == Read(rest, InWord(word))
  {
    assert (word + rest)[1..] == word[1..] + rest;
    BareTextInContext(word[1..], rest, [word[0]]);
    assert [word[0]] + word[1..] == word && "" + [word[0]] == [word[0]];
  }

  lemma {:induction false} CommentVanishes(text: string)
    requires '\n' !in text
    ensures AfterLine(text) == ""
    decreases |text|
  {
    if text != "" {
      CommentVanishes(text[1..]);
    }
  }

  /** What the recogniser accepts is one shell word, with one exception: a bare
      word that starts with a number sign, which the shell reads as a comment. */
  lemma RecognisedIsOneWord(word: string)
    requires IsOneShellWord(word)
    ensures word[0] != '#' <==> exists text :: Tokenise(word) == Tokens([Word(text)])
  {
    if StartsWith(word, "'") {
      var value := Unescape(word[1..|word| - 1]);
      QuotedIsOneWord(value);
    } else if word[0] == '#' {
      CommentVanishes(word[1..]);
      assert Tokenise(word) == Read("", Between) == Tokens([]);
    } else {
      BareWordInContext(word, "");
      assert word + "" == word;
      assert Tokenise(word) == Tokens([Word(word)]);
    }
  }

  lemma CommentIsRecognised()
    ensures IsOneShellWord("#a") && Tokenise("#a") == Tokens([])
  {
    assert "#a"[1..] == "a";
    CommentVanishes("a");
  }

  /** Which characters a bare word may hold: those that a shell reads as themselves, but
      no pattern or brace characters, and none that Unicode takes for white space. */
  lemma BareCharacterIff(c: char)
    ensures IsBare(c) <==>
      && Read([c], InWord("")) == Tokens([Word([c])])
      && !IsWhitespace(c) && c !in {'*', '?', '[', ']', '{', '}'}
  {
    ReadOne(c);
  }

  /** The characters that a shell does not read as themselves inside a word. */
  lemma ReadOne(c: char)
    ensures Read([c], InWord("")) == Tokens([Word([c])]) <==>
      c !in {'\'', '\\', '"', '$', '`', ' ', '\t', '|', '&', ';', '<', '>', '(', ')', '\n'}
  {
    if c in {'\'', '\\', '"', '$', '`'} {
      QuotesOrExpands(c);
    } else if c in {' ', '\t', '|', '&', ';', '<', '>', '(', ')', '\n'} {
      EndsTheWord(c);
    } else {
      ReadsItself(c);
    }
  }

  lemma QuotesOrExpands(c: char)
    requires c in {'\'', '\\', '"', '$', '`'}
    ensures !Read([c], InWord("")).Tokens?
  {
    assert [c][1..] == "";
  }

  lemma EndsTheWord(c: char)
    requires c in {' ', '\t', '|', '&', ';', '<', '>', '(', ')', '\n'}
    ensures Read([c], InWord("")) != Tokens([Word([c])])
  {
    assert [c][1..] == "" && Read("", Between) == Tokens([]);
    var finished := InWord("").Finished();
    assert finished == [Word("")];
    var more := if IsOperator(c) then [Operator(c)] else [];
    assert Read([c], InWord("")) == Emit(finished + more, Read("", Between));
    assert (finished + more + [])[0] == Word("") && [Word([c])][0] == Word([c]);
    assert |[c]| == 1;
  }

  lemma ReadsItself(c: char)
    requires c !in {'\'', '\\', '"', '$', '`', ' ', '\t', '|', '&', ';', '<', '>', '(', ')', '\n'}
    ensures Read([c], InWord("")) == Tokens([Word([c])])
  {
    assert [c][1..] == "" && "" + [c] == [c];
    assert Read("", InWord([c])) == Tokens([Word([c])]);
  }
}
