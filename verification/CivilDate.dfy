/** The `built_at` stamp of a snapshot: seconds since the epoch to a UTC date and
    time (`src/cli/backup.rs`, inside `run_snapshot`). The reference is the
    Gregorian calendar itself, one day after another from 1970-01-01. */
module CivilDate {

  datatype Date = Date(y: int, m: int, d: int)

  // ----- The calendar ---------------------------------------------------------

  predicate IsLeap(y: int) {
    y % 4 == 0 && (y % 100 != 0 || y % 400 == 0)
  }

  function DaysInMonth(y: int, m: int): int {
    if m == 2 then (if IsLeap(y) then 29 else 28)
    else if m == 4 || m == 6 || m == 9 || m == 11 then 30 else 31
  }

  predicate IsDate(date: Date) {
    1 <= date.m <= 12 && 1 <= date.d <= DaysInMonth(date.y, date.m)
  }

  function NextDay(date: Date): Date {
    if date.d < DaysInMonth(date.y, date.m) then Date(date.y, date.m, date.d + 1)
    else if date.m < 12 then Date(date.y, date.m + 1, 1)
    else Date(date.y + 1, 1, 1)
  }

  const EPOCH := Date(1970, 1, 1)

  /** The calendar date `n` days after the epoch. */
  function Calendar(n: nat): Date {
    if n == 0 then EPOCH else NextDay(Calendar(n - 1))
  }

  predicate Before(a: Date, b: Date) {
    a.y < b.y || (a.y == b.y && (a.m < b.m || (a.m == b.m && a.d < b.d)))
  }

  // ----- The arithmetic of the source -----------------------------------------

  function YearOfEra(doe: int): int {
    (doe - doe / 1460 + doe / 36524 - doe / 146096) / 365
  }

  /** Month and day from the day `doy` of a year that starts on 1 March of `y`. */
  function FromDayOfYear(y: int, doy: int): Date {
    var mp := (5 * doy + 2) / 153;
    var d := doy - (153 * mp + 2) / 5 + 1;
    var m := if mp < 10 then mp + 3 else mp - 9;
    Date(if m <= 2 then y + 1 else y, m, d)
  }

  /** Days since the epoch to a date. `z` is never negative here, so the division
      is the same truncating or rounding down. */
  function FromDays(days: nat): Date {
    var z := days + 719468;
    var era := (if z >= 0 then z else z - 146096) / 146097;
    var doe := z - era * 146097;
    var yoe := YearOfEra(doe);
    var y := yoe + era * 400;
    var doy := doe - (365 * yoe + yoe / 4 - yoe / 100);
    FromDayOfYear(y, doy)
  }

  // ----- Years of an era ------------------------------------------------------

  lemma MultipleIsFar(n: int, d: int)
    requires n > 0
    ensures d >= 1 ==> n * d >= n
    ensures d <= -1 ==> n * d <= -n
  {}

  lemma Quotient(x: int, n: int, q: int, r: int)
    requires n > 0 && x == n * q + r && 0 <= r < n
    ensures x / n == q
  {
    var d := x / n - q;
    MultipleIsFar(n, d);
    assert n * d == n * (x / n) - n * q;
  }

  /** A day of the era as century `c`, four-year cycle `q`, year `t`, day `k`. */
  predicate IsDayOfEra(c: int, q: int, t: int, k: int) {
    && 0 <= c < 4 && 0 <= q < 25 && 0 <= t < 4
    && (0 <= k < 365 || (k == 365 && t == 3 && (q < 24 || c == 3)))
  }

  lemma CenturyCorrection(c: int, q: int, t: int, k: int)
    requires IsDayOfEra(c, q, t, k)
    ensures var doe := 36524 * c + 1461 * q + 365 * t + k;
      0 <= doe < 146097 && doe / 36524 - doe / 146096 == c
  {
    var doe := 36524 * c + 1461 * q + 365 * t + k;
    if doe == 146096 {
      Quotient(doe, 36524, 4, 0);
      Quotient(doe, 146096, 1, 0);
    } else {
      Quotient(doe, 36524, c, 1461 * q + 365 * t + k);
      Quotient(doe, 146096, 0, doe);
    }
  }

  /** The formula yields the year the parts spell out. */
  lemma YearOfEraByParts(c: int, q: int, t: int, k: int)
    requires IsDayOfEra(c, q, t, k)
    ensures var doe := 36524 * c + 1461 * q + 365 * t + k;
      0 <= doe < 146097 && YearOfEra(doe) == 100 * c + 4 * q + t
  {
    CenturyCorrection(c, q, t, k);
    var doe := 36524 * c + 1461 * q + 365 * t + k;
    var rest := 24 * c + q + 365 * t + k;
    var late := if rest >= 1460 then 1 else 0;
    assert doe == 1460 * (25 * c + q + late) + (rest - 1460 * late);
    Quotient(doe, 1460, 25 * c + q + late, rest - 1460 * late);
    Quotient(doe - doe / 1460 + c, 365, 100 * c + 4 * q + t, k - late);
  }

  /** Every day of the era has such parts. */
  lemma PartsOfDay(doe: nat) returns (c: int, q: int, t: int, k: int)
    requires doe < 146097
    ensures IsDayOfEra(c, q, t, k) && doe == 36524 * c + 1461 * q + 365 * t + k
  {
    c := if doe / 36524 == 4 then 3 else doe / 36524;
    var inCentury := doe - 36524 * c;
    q := inCentury / 1461;
    var inCycle := inCentury - 1461 * q;
    t := if inCycle / 365 == 4 then 3 else inCycle / 365;
    k := inCycle - 365 * t;
  }

  lemma DayOfYearByParts(c: int, q: int, t: int, k: int)
    requires IsDayOfEra(c, q, t, k)
    ensures var yoe := 100 * c + 4 * q + t;
      36524 * c + 1461 * q + 365 * t + k - (365 * yoe + yoe / 4 - yoe / 100) == k
  {
    Quotient(100 * c + 4 * q + t, 4, 25 * c + q, t);
    Quotient(100 * c + 4 * q + t, 100, c, 4 * q + t);
  }

  lemma DayOfEraOf(days: nat, era: int, doe: int, yoe: int, doy: int)
    requires days + 719468 == 146097 * era + doe && 0 <= doe < 146097
    requires yoe == YearOfEra(doe) && doy == doe - (365 * yoe + yoe / 4 - yoe / 100)
    ensures FromDays(days) == FromDayOfYear(yoe + era * 400, doy)
  {
    Quotient(days + 719468, 146097, era, doe);
  }

  lemma FromDaysByParts(days: nat, era: int, c: int, q: int, t: int, k: int)
    requires IsDayOfEra(c, q, t, k)
    requires days + 719468 == 146097 * era + 36524 * c + 1461 * q + 365 * t + k
    ensures FromDays(days) == FromDayOfYear(400 * era + 100 * c + 4 * q + t, k)
  {
    var doe, yoe := 36524 * c + 1461 * q + 365 * t + k, 100 * c + 4 * q + t;
    YearOfEraByParts(c, q, t, k);
    DayOfYearByParts(c, q, t, k);
    DayOfEraOf(days, era, doe, yoe, k);
  }

  lemma LeapByParts(era: int, c: int, q: int, t: int)
    requires 0 <= c < 4 && 0 <= q < 25 && 0 <= t < 4
    ensures IsLeap(400 * era + 100 * c + 4 * q + t + 1) <==> t == 3 && (q < 24 || c == 3)
  {
    var y := 400 * era + 100 * c + 4 * q + t + 1;
    if t < 3 {
      Quotient(y, 4, 100 * era + 25 * c + q, t + 1);
      assert y % 4 == t + 1;
    } else {
      Quotient(y, 4, 100 * era + 25 * c + q + 1, 0);
      if q < 24 {
        Quotient(y, 100, 4 * era + c, 4 * q + 4);
        assert y % 100 == 4 * q + 4;
      } else {
        Quotient(y, 100, 4 * era + c + 1, 0);
        if c < 3 {
          Quotient(y, 400, era, 100 * c + 100);
          assert y % 400 == 100 * c + 100;
        } else {
          Quotient(y, 400, era + 1, 0);
        }
      }
    }
  }

  // ----- Months of a year that starts in March --------------------------------

  function MarchYearLength(y: int): int {
    if IsLeap(y + 1) then 366 else 365
  }

  /** First day of the shifted month `mp`. */
  function MonthStart(mp: int): int {
    (153 * mp + 2) / 5
  }

  lemma MonthOfDay(doy: int)
    requires 0 <= doy < 366
    ensures var mp := (5 * doy + 2) / 153;
      0 <= mp < 12 && MonthStart(mp) <= doy && (mp < 11 ==> doy < MonthStart(mp + 1))
  {}

  lemma MonthLengths(y: int, mp: int)
    requires 0 <= mp < 12
    ensures mp < 11 ==> var m := if mp < 10 then mp + 3 else mp - 9;
      MonthStart(mp + 1) - MonthStart(mp) == DaysInMonth(y, m)
    ensures MonthStart(11) + DaysInMonth(y + 1, 2) == MarchYearLength(y)
  {}

  /** Within a month the day advances; at its end the next month begins. */
  lemma ShiftedMonthAdvances(doy: int)
    requires 0 <= doy < 365
    ensures var mp, mp' := (5 * doy + 2) / 153, (5 * doy + 7) / 153;
      mp' == if mp < 11 && doy + 1 == MonthStart(mp + 1) then mp + 1 else mp
  {}

  lemma NextDayInYear(y: int, doy: int)
    requires 0 <= doy && doy + 1 < MarchYearLength(y)
    ensures FromDayOfYear(y, doy + 1) == NextDay(FromDayOfYear(y, doy))
  {
    var mp := (5 * doy + 2) / 153;
    MonthOfDay(doy);
    ShiftedMonthAdvances(doy);
    MonthLengths(y, mp);
    MonthLengths(y + 1, mp);
  }

  lemma NextDayOverYear(y: int)
    ensures FromDayOfYear(y + 1, 0) == NextDay(FromDayOfYear(y, MarchYearLength(y) - 1))
  {
    MonthOfDay(MarchYearLength(y) - 1);
  }

  // ----- The date arithmetic is the calendar ----------------------------------

  lemma NextDayOfEra(era: int, c: int, q: int, t: int, k: int)
    requires IsDayOfEra(c, q, t, k)
    requires k + 1 < MarchYearLength(400 * era + 100 * c + 4 * q + t)
    ensures IsDayOfEra(c, q, t, k + 1)
  {
    LeapByParts(era, c, q, t);
  }

  lemma NextDayByParts(days: nat, era: int, c: int, q: int, t: int, k: int)
    requires IsDayOfEra(c, q, t, k)
    requires days + 719468 == 146097 * era + 36524 * c + 1461 * q + 365 * t + k
    requires k + 1 < MarchYearLength(400 * era + 100 * c + 4 * q + t)
    ensures FromDays(days + 1) == FromDayOfYear(400 * era + 100 * c + 4 * q + t, k + 1)
  {
    NextDayOfEra(era, c, q, t, k);
    FromDaysByParts(days + 1, era, c, q, t, k + 1);
  }

  lemma SuccessorInYear(days: nat, era: int, c: int, q: int, t: int, k: int)
    requires IsDayOfEra(c, q, t, k)
    requires days + 719468 == 146097 * era + 36524 * c + 1461 * q + 365 * t + k
    requires k + 1 < MarchYearLength(400 * era + 100 * c + 4 * q + t)
    ensures FromDays(days + 1) == NextDay(FromDays(days))
  {
    NextDayByParts(days, era, c, q, t, k);
    NextDayInYear(400 * era + 100 * c + 4 * q + t, k);
    FromDaysByParts(days, era, c, q, t, k);
  }

  /** The parts of the first day of the year after the one in century `c`, cycle
      `q`, year `t`. */
  lemma FirstDayOfNextYear(days: nat, era: int, c: int, q: int, t: int)
    requires 0 <= c < 4 && 0 <= q < 25 && 0 <= t < 4
    requires days + 719468 == 146097 * era + 36524 * c + 1461 * q + 365 * t
      + if t == 3 && (q < 24 || c == 3) then 366 else 365
    ensures FromDays(days) == FromDayOfYear(400 * era + 100 * c + 4 * q + t + 1, 0)
  {
    if t < 3 {
      FromDaysByParts(days, era, c, q, t + 1, 0);
    } else if q < 24 {
      FromDaysByParts(days, era, c, q + 1, 0, 0);
    } else if c < 3 {
      FromDaysByParts(days, era, c + 1, 0, 0, 0);
    } else {
      FromDaysByParts(days, era + 1, 0, 0, 0, 0);
    }
  }

  lemma SuccessorOverYear(days: nat, era: int, c: int, q: int, t: int, k: int)
    requires IsDayOfEra(c, q, t, k)
    requires days + 719468 == 146097 * era + 36524 * c + 1461 * q + 365 * t + k
    requires k + 1 == MarchYearLength(400 * era + 100 * c + 4 * q + t)
    ensures FromDays(days + 1) == NextDay(FromDays(days))
  {
    LeapByParts(era, c, q, t);
    FromDaysByParts(days, era, c, q, t, k);
    FirstDayOfNextYear(days + 1, era, c, q, t);
    NextDayOverYear(400 * era + 100 * c + 4 * q + t);
  }

  lemma DayIsInItsYear(era: int, c: int, q: int, t: int, k: int)
    requires IsDayOfEra(c, q, t, k)
    ensures 0 <= k < MarchYearLength(400 * era + 100 * c + 4 * q + t)
  {
    LeapByParts(era, c, q, t);
  }

  lemma PartsOfDays(days: nat) returns (era: int, c: int, q: int, t: int, k: int)
    ensures IsDayOfEra(c, q, t, k)
    ensures days + 719468 == 146097 * era + 36524 * c + 1461 * q + 365 * t + k
    ensures 0 <= k < MarchYearLength(400 * era + 100 * c + 4 * q + t)
  {
    era := (days + 719468) / 146097;
    c, q, t, k := PartsOfDay((days + 719468) % 146097);
    DayIsInItsYear(era, c, q, t, k);
  }

  /** One more day is the next day of the calendar. */
  lemma FromDaysSuccessor(days: nat)
    ensures FromDays(days + 1) == NextDay(FromDays(days))
  {
    var era, c, q, t, k := PartsOfDays(days);
    if k + 1 < MarchYearLength(400 * era + 100 * c + 4 * q + t) {
      SuccessorInYear(days, era, c, q, t, k);
    } else {
      SuccessorOverYear(days, era, c, q, t, k);
    }
  }

  lemma EpochIsDayZero()
    ensures FromDays(0) == EPOCH
  {
    FromDaysByParts(0, 4, 3, 17, 1, 306);
  }

  /** Any assignment of dates to days that starts at the epoch and advances one day
      at a time is the calendar. */
  lemma {:induction false} CalendarIsUnique(date: nat -> Date, days: nat)
    requires date(0) == EPOCH
    requires forall n: nat :: date(n + 1) == NextDay(date(n))
    ensures date(days) == Calendar(days) && IsDate(Calendar(days))
  {
    if days != 0 {
      CalendarIsUnique(date, days - 1);
      assert date(days - 1 + 1) == NextDay(date(days - 1));
    }
  }

  lemma {:induction false} CalendarIncreases(a: nat, b: nat)
    requires a < b
    ensures Before(Calendar(a), Calendar(b))
    decreases b
  {
    if a < b - 1 {
      CalendarIncreases(a, b - 1);
    }
  }

  /** For every day count, the arithmetic gives the date found by counting days on
      the calendar from 1970-01-01. */
  lemma FromDaysIsCalendar(days: nat)
    ensures FromDays(days) == Calendar(days) && IsDate(FromDays(days))
  {
    EpochIsDayZero();
    forall n: nat
      ensures FromDays(n + 1) == NextDay(FromDays(n))
    {
      FromDaysSuccessor(n);
    }
    CalendarIsUnique(FromDays, days);
  }

  /** Later days have later dates, so the map is injective. */
  lemma FromDaysIncreases(a: nat, b: nat)
    requires a < b
    ensures Before(FromDays(a), FromDays(b))
  {
    FromDaysIsCalendar(a);
    FromDaysIsCalendar(b);
    CalendarIncreases(a, b);
  }

  /** No unsigned subtraction in the chain goes below zero, and for every count of
      seconds in 64 bits the signed day number fits. */
  lemma NoUnderflow(days: nat)
    ensures
      var z := days + 719468;
      var era := z / 146097;
      var doe := z - era * 146097;
      var yoe := YearOfEra(doe);
      var doy := doe - (365 * yoe + yoe / 4 - yoe / 100);
      var mp := (5 * doy + 2) / 153;
      && 0 <= doe && 0 <= doe - doe / 1460 && 0 <= doe - doe / 1460 + doe / 36524 - doe / 146096
      && 0 <= yoe && 0 <= 365 * yoe + yoe / 4 - yoe / 100
      && 0 <= doy && 0 <= doy - (153 * mp + 2) / 5 && (mp >= 10 ==> 0 <= mp - 9)
    ensures days <= 0xFFFF_FFFF_FFFF_FFFF / 86400 ==> days + 719468 < 0x8000_0000_0000_0000
  {
    var era, c, q, t, k := PartsOfDays(days);
    var doe := 36524 * c + 1461 * q + 365 * t + k;
    YearOfEraByParts(c, q, t, k);
    Quotient(days + 719468, 146097, era, doe);
    assert days + 719468 - era * 146097 == doe && YearOfEra(doe) == 100 * c + 4 * q + t;
    DayOfYearByParts(c, q, t, k);
    MonthOfDay(k);
  }

  // ----- The whole stamp ------------------------------------------------------

  datatype Stamp = Stamp(date: Date, hours: nat, minutes: nat, seconds: nat)

  function BuiltAt(secs: nat): Stamp {
    var days := secs / 86400;
    var time := secs % 86400;
    Stamp(FromDays(days), time / 3600, time % 3600 / 60, time % 60)
  }

  predicate StampBefore(a: Stamp, b: Stamp) {
    || Before(a.date, b.date)
    || (a.date == b.date &&
        (a.hours < b.hours || (a.hours == b.hours &&
          (a.minutes < b.minutes || (a.minutes == b.minutes && a.seconds < b.seconds)))))
  }

  /** Time of day as seconds, split and put together again. */
  lemma TimeOfDay(time: nat)
    requires time < 86400
    ensures time / 3600 < 24 && time % 3600 / 60 < 60
    ensures time == 3600 * (time / 3600) + 60 * (time % 3600 / 60) + time % 60
  {}

  lemma LaterThatDay(x: nat, y: nat)
    requires x < y < 86400
    ensures
      || x / 3600 < y / 3600
      || (x / 3600 == y / 3600 && x % 3600 / 60 < y % 3600 / 60)
      || (x / 3600 == y / 3600 && x % 3600 / 60 == y % 3600 / 60 && x % 60 < y % 60)
  {
    TimeOfDay(x);
    TimeOfDay(y);
  }

  /** The stamp is a calendar date with a time of day, and stamps are ordered as the
      instants are. */
  lemma BuiltAtIsOrdered(a: nat, b: nat)
    ensures var s := BuiltAt(a);
      && s.date == Calendar(a / 86400) && IsDate(s.date)
      && s.hours < 24 && s.minutes < 60 && s.seconds < 60
      && a == 86400 * (a / 86400) + 3600 * s.hours + 60 * s.minutes + s.seconds
    ensures a < b ==> StampBefore(BuiltAt(a), BuiltAt(b))
  {
    FromDaysIsCalendar(a / 86400);
    TimeOfDay(a % 86400);
    if a / 86400 < b / 86400 {
      FromDaysIncreases(a / 86400, b / 86400);
    } else if a < b {
      LaterThatDay(a % 86400, b % 86400);
    }
  }
}
