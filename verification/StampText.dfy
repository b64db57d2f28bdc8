/** The text of a snapshot's `built_at` stamp (`src/cli/backup.rs`, inside
    `run_snapshot`): the date-time of section 5.6 of RFC 3339, in UTC. */
module StampText {
  import opened Sequences
  import opened CivilDate

  function Digit(n: nat): char
    requires n < 10
  {
    ('0' as int + n) as char
  }

  /** `{n:0w}`: at least `w` digits. */
  function Padded(n: nat, w: nat): string
    decreases n + w
  {
    if n < 10 && w <= 1 then [Digit(n)]
    else Padded(n / 10, if w == 0 then 0 else w - 1) + [Digit(n % 10)]
  }

  function TextOf(s: Stamp): string
    requires s.date.y >= 0 && s.date.m >= 0 && s.date.d >= 0
  {
    Padded(s.date.y, 4) + ("-" + (Padded(s.date.m, 2) + ("-" + (Padded(s.date.d, 2) + ("T" + TimeOf(s))))))
  }

  function TimeOf(s: Stamp): string {
    Padded(s.hours, 2) + (":" + (Padded(s.minutes, 2) + (":" + (Padded(s.seconds, 2) + "Z"))))
  }

  // ----- Fields ---------------------------------------------------------------

  lemma TwoDigits(n: nat)
    requires n < 100
    ensures Padded(n, 2) == [Digit(n / 10), Digit(n % 10)]
  {
    assert Padded(n / 10, 1) == [Digit(n / 10)];
  }

  lemma FourDigits(n: nat)
    requires n < 10000
    ensures Padded(n, 4) == Padded(n / 100, 2) + [Digit(n / 10 % 10), Digit(n % 10)]
    ensures |Padded(n, 4)| == 4
  {
    assert n / 10 / 10 == n / 100;
    TwoDigits(n / 100);
    assert Padded(n / 10, 3) == Padded(n / 100, 2) + [Digit(n / 10 % 10)];
  }

  lemma {:induction false} AtLeastOneDigit(n: nat, w: nat)
    ensures Padded(n, w) != ""
  {}

  /** A year after 9999 takes a fifth digit. */
  lemma MoreDigits(n: nat)
    requires n >= 10000
    ensures |Padded(n, 4)| > 4
  {
    AtLeastOneDigit(n / 10 / 10 / 10 / 10, 0);
    assert Padded(n / 10 / 10 / 10, 1) == Padded(n / 10 / 10 / 10 / 10, 0) + [Digit(n / 10 / 10 / 10 % 10)];
    assert Padded(n / 10 / 10, 2) == Padded(n / 10 / 10 / 10, 1) + [Digit(n / 10 / 10 % 10)];
    assert Padded(n / 10, 3) == Padded(n / 10 / 10, 2) + [Digit(n / 10 % 10)];
  }

  lemma TwoDigitOrder(a: nat, b: nat, restOfA: string, restOfB: string)
    requires a < 100 && b < 100
    ensures Less(Padded(a, 2) + restOfA, Padded(b, 2) + restOfB) <==> a < b || (a == b && Less(restOfA, restOfB))
  {
    TwoDigits(a);
    TwoDigits(b);
    LessByParts(Padded(a, 2), Padded(b, 2), restOfA, restOfB);
    TwoCharacters(Digit(a / 10), Digit(a % 10), Digit(b / 10), Digit(b % 10));
  }

  lemma TwoCharacters(a: char, b: char, c: char, d: char)
    ensures Less([a, b], [c, d]) <==> a < c || (a == c && b < d)
  {
    assert [a, b][1..] == [b] && [c, d][1..] == [d];
    assert Less([b], [d]) <==> b < d by { assert [b][1..] == "" && [d][1..] == ""; }
  }

  lemma YearOrder(a: nat, b: nat, restOfA: string, restOfB: string)
    requires a < 10000 && b < 10000
    ensures Less(Padded(a, 4) + restOfA, Padded(b, 4) + restOfB) <==> a < b || (a == b && Less(restOfA, restOfB))
  {
    var lowA, lowB := [Digit(a / 10 % 10), Digit(a % 10)], [Digit(b / 10 % 10), Digit(b % 10)];
    FourDigits(a);
    FourDigits(b);
    LessByParts(Padded(a, 4), Padded(b, 4), restOfA, restOfB);
    TwoDigitOrder(a / 100, b / 100, lowA, lowB);
    LowDigitOrder(a, b);
    Hundreds(a, b);
    SameDigits(a, b);
  }

  lemma LowDigitOrder(a: nat, b: nat)
    ensures Less([Digit(a / 10 % 10), Digit(a % 10)], [Digit(b / 10 % 10), Digit(b % 10)]) <==>
      a / 10 % 10 < b / 10 % 10 || (a / 10 % 10 == b / 10 % 10 && a % 10 < b % 10)
  {
    TwoCharacters(Digit(a / 10 % 10), Digit(a % 10), Digit(b / 10 % 10), Digit(b % 10));
  }

  lemma SameDigits(a: nat, b: nat)
    requires a < 10000 && b < 10000
    ensures Padded(a, 4) == Padded(b, 4) <==> a == b
  {
    FourDigits(a);
    FourDigits(b);
    TwoDigits(a / 100);
    TwoDigits(b / 100);
    var textA, textB := Padded(a, 4), Padded(b, 4);
    assert textA == textB ==> textA[0] == textB[0] && textA[1] == textB[1];
    assert textA == textB ==> textA[2] == textB[2] && textA[3] == textB[3];
    Hundreds(a, b);
    Hundreds(b, a);
  }

  lemma Hundreds(a: nat, b: nat)
    ensures a < b <==>
      || a / 100 < b / 100
      || (a / 100 == b / 100 && a / 10 % 10 < b / 10 % 10)
      || (a / 100 == b / 100 && a / 10 % 10 == b / 10 % 10 && a % 10 < b % 10)
  {
    assert a == 100 * (a / 100) + 10 * (a / 10 % 10) + a % 10;
    assert b == 100 * (b / 100) + 10 * (b / 10 % 10) + b % 10;
  }

  lemma SameSeparator(c: string, restOfA: string, restOfB: string)
    ensures Less(c + restOfA, c + restOfB) <==> Less(restOfA, restOfB)
  {
    LessByParts(c, c, restOfA, restOfB);
    LessIsTotal(c, c);
  }

  // ----- Stamps ---------------------------------------------------------------

  predicate IsStamp(s: Stamp) {
    s.date.y >= 0 && IsDate(s.date) && s.hours < 24 && s.minutes < 60 && s.seconds < 60
  }

  /** The text has the twenty characters of RFC 3339 if and only if the year has four
      digits. */
  lemma TextIsRfc3339Iff(s: Stamp)
    requires IsStamp(s)
    ensures |TextOf(s)| == 20 <==> s.date.y < 10000
    ensures |TextOf(s)| >= 20
  {
    TwoDigits(s.date.m);
    TwoDigits(s.date.d);
    TwoDigits(s.hours);
    TwoDigits(s.minutes);
    TwoDigits(s.seconds);
    if s.date.y < 10000 {
      FourDigits(s.date.y);
    } else {
      MoreDigits(s.date.y);
    }
  }

  // ----- Reading the text back ------------------------------------------------

  predicate AreDigits(text: string) {
    forall i :: 0 <= i < |text| ==> '0' <= text[i] <= '9'
  }

  /** The decimal number that the digits spell. */
  function Number(digits: string): int {
    if digits == "" then 0
    else 10 * Number(digits[..|digits| - 1]) + (digits[|digits| - 1] as int - '0' as int)
  }

  lemma {:induction false} PaddedIsRead(n: nat, w: nat)
    ensures Padded(n, w) != "" && AreDigits(Padded(n, w)) && Number(Padded(n, w)) == n
    decreases n + w
  {
    if !(n < 10 && w <= 1) {
      var high := Padded(n / 10, if w == 0 then 0 else w - 1);
      PaddedIsRead(n / 10, if w == 0 then 0 else w - 1);
      assert Padded(n, w)[..|high|] == high;
    } else {
      assert [Digit(n)][..0] == "";
    }
  }

  /** The field of `text` from `lo` to `hi` is the number `n` in digits. */
  predicate Spells(text: string, lo: nat, hi: nat, n: int) {
    lo < hi <= |text| && AreDigits(text[lo..hi]) && Number(text[lo..hi]) == n
  }

  /** Year, month, day, hours, minutes and seconds where RFC 3339 has them, after as many
      more places as the year has more than four digits. */
  predicate IsTextOf(text: string, s: Stamp) {
    var k := |text| - 20;
    && k >= 0
    && Spells(text, 0, k + 4, s.date.y) && text[k + 4] == '-'
    && Spells(text, k + 5, k + 7, s.date.m) && text[k + 7] == '-'
    && Spells(text, k + 8, k + 10, s.date.d) && text[k + 10] == 'T'
    && Spells(text, k + 11, k + 13, s.hours) && text[k + 13] == ':'
    && Spells(text, k + 14, k + 16, s.minutes) && text[k + 16] == ':'
    && Spells(text, k + 17, k + 19, s.seconds) && text[k + 19] == 'Z'
  }

  /** A field, the separator after it, and the rest of the text. */
  lemma FieldIsRead(before: string, n: nat, w: nat, separator: char, rest: string)
    ensures var text, field := before + (Padded(n, w) + ([separator] + rest)), |before| + |Padded(n, w)|;
      && Spells(text, |before|, field, n) && text[field] == separator
      && text == before + Padded(n, w) + [separator] + rest
  {
    PaddedIsRead(n, w);
    var text := before + (Padded(n, w) + ([separator] + rest));
    assert text[|before|..|before| + |Padded(n, w)|] == Padded(n, w);
  }

  lemma TwoDigitField(before: string, n: nat, separator: char, rest: string) returns (head: string)
    requires n < 100
    ensures var text := before + (Padded(n, 2) + ([separator] + rest));
      && |text| > |before| + 2 && Spells(text, |before|, |before| + 2, n) && text[|before| + 2] == separator
      && text == head + rest && |head| == |before| + 3
  {
    FieldIsRead(before, n, 2, separator, rest);
    TwoDigits(n);
    head := before + Padded(n, 2) + [separator];
  }

  lemma TextIsRead(s: Stamp)
    requires IsStamp(s)
    ensures IsTextOf(TextOf(s), s)
  {
    var text := TextOf(s);
    var year := Padded(s.date.y, 4);
    var time := TimeOf(s);
    var days := Padded(s.date.d, 2) + ("T" + time);
    var months := Padded(s.date.m, 2) + ("-" + days);
    FieldIsRead("", s.date.y, 4, '-', months);
    assert text == "" + (year + ("-" + months)) == year + "-" + months;
    var head := TwoDigitField(year + "-", s.date.m, '-', days);
    head := TwoDigitField(head, s.date.d, 'T', time);
    var seconds := Padded(s.seconds, 2) + ("Z" + "");
    assert seconds == Padded(s.seconds, 2) + "Z";
    head := TwoDigitField(head, s.hours, ':', Padded(s.minutes, 2) + (":" + seconds));
    head := TwoDigitField(head, s.minutes, ':', seconds);
    head := TwoDigitField(head, s.seconds, 'Z', "");
    assert |text| == |year| + 16;
    FourPlaces(s.date.y);
  }

  lemma FourPlaces(n: nat)
    ensures |Padded(n, 4)| >= 4
  {
    if n < 10000 {
      FourDigits(n);
    } else {
      MoreDigits(n);
    }
  }

  predicate TimeBefore(a: Stamp, b: Stamp) {
    a.hours < b.hours || (a.hours == b.hours &&
      (a.minutes < b.minutes || (a.minutes == b.minutes && a.seconds < b.seconds)))
  }

  lemma TimeTextOrder(a: Stamp, b: Stamp)
    requires IsStamp(a) && IsStamp(b)
    ensures Less(TimeOf(a), TimeOf(b)) <==> TimeBefore(a, b)
  {
    var secondsA, secondsB := Padded(a.seconds, 2) + "Z", Padded(b.seconds, 2) + "Z";
    var minutesA, minutesB := Padded(a.minutes, 2) + (":" + secondsA), Padded(b.minutes, 2) + (":" + secondsB);
    TwoDigitOrder(a.hours, b.hours, ":" + minutesA, ":" + minutesB);
    SameSeparator(":", minutesA, minutesB);
    TwoDigitOrder(a.minutes, b.minutes, ":" + secondsA, ":" + secondsB);
    SameSeparator(":", secondsA, secondsB);
    TwoDigitOrder(a.seconds, b.seconds, "Z", "Z");
    LessIsTotal("Z", "Z");
  }

  /** Up to the year 9999 stamps sort as text as they sort in time. */
  lemma TextOrder(a: Stamp, b: Stamp)
    requires IsStamp(a) && IsStamp(b) && a.date.y < 10000 && b.date.y < 10000
    ensures Less(TextOf(a), TextOf(b)) <==> StampBefore(a, b)
  {
    var timeA, timeB := "T" + TimeOf(a), "T" + TimeOf(b);
    var daysA, daysB := Padded(a.date.d, 2) + timeA, Padded(b.date.d, 2) + timeB;
    var monthsA, monthsB := Padded(a.date.m, 2) + ("-" + daysA), Padded(b.date.m, 2) + ("-" + daysB);
    YearOrder(a.date.y, b.date.y, "-" + monthsA, "-" + monthsB);
    SameSeparator("-", monthsA, monthsB);
    TwoDigitOrder(a.date.m, b.date.m, "-" + daysA, "-" + daysB);
    SameSeparator("-", daysA, daysB);
    TwoDigitOrder(a.date.d, b.date.d, timeA, timeB);
    SameSeparator("T", TimeOf(a), TimeOf(b));
    TimeTextOrder(a, b);
  }

  lemma BuiltAtIsStamp(secs: nat)
    ensures IsStamp(BuiltAt(secs))
  {
    BuiltAtIsOrdered(secs, secs);
    YearsAreNotNegative(secs / 86400);
  }

  lemma {:induction false} YearsAreNotNegative(days: nat)
    ensures Calendar(days).y >= 1970
    decreases days
  {
    if days > 0 {
      YearsAreNotNegative(days - 1);
    }
  }

  lemma StampOrderIsTotal(a: nat, b: nat)
    ensures StampBefore(BuiltAt(a), BuiltAt(b)) <==> a < b
  {
    BuiltAtIsOrdered(a, b);
    BuiltAtIsOrdered(b, a);
    OneIsBefore(BuiltAt(a), BuiltAt(b));
  }

  lemma OneIsBefore(x: Stamp, y: Stamp)
    ensures !(StampBefore(x, y) && StampBefore(y, x)) && !StampBefore(x, x)
  {}

  /** The text of every instant spells its stamp, in twenty characters if and only if the
      year has four digits, and until the end of the year 9999 the
      texts of two instants are ordered as the instants are. */
  lemma BuiltAtText(a: nat, b: nat)
    ensures IsStamp(BuiltAt(a)) && IsStamp(BuiltAt(b))
    ensures IsTextOf(TextOf(BuiltAt(a)), BuiltAt(a))
    ensures |TextOf(BuiltAt(a))| == 20 <==> BuiltAt(a).date.y < 10000
    ensures BuiltAt(a).date.y < 10000 && BuiltAt(b).date.y < 10000 ==>
      (Less(TextOf(BuiltAt(a)), TextOf(BuiltAt(b))) <==> a < b)
  {
    BuiltAtIsStamp(a);
    BuiltAtIsStamp(b);
    TextIsRfc3339Iff(BuiltAt(a));
    TextIsRead(BuiltAt(a));
    if BuiltAt(a).date.y < 10000 && BuiltAt(b).date.y < 10000 {
      TextOrder(BuiltAt(a), BuiltAt(b));
      StampOrderIsTotal(a, b);
    }
  }
}
