/** The civil calendar of the admission script: day counts to Gregorian dates and back,
    and the month interval that names and dates a quota counter. */
module Calendar {
  import opened Arith

  const SECONDS_PER_DAY := 86400

  datatype Date = Date(year: int, month: int, day: int)
  datatype Month = Month(year: int, month: int)

  // ----- the Gregorian calendar itself (month lengths and leap rule of RFC 3339, section 5.7 and Appendix C)

  predicate IsLeap(y: int) {
    y % 4 == 0 && (y % 100 != 0 || y % 400 == 0)
  }

  function DaysInMonth(y: int, m: int): int {
    if m == 2 then (if IsLeap(y) then 29 else 28)
    else if m == 4 || m == 6 || m == 9 || m == 11 then 30
    else 31
  }

  predicate ValidMonth(m: Month) {
    1 <= m.month <= 12
  }

  predicate ValidDate(d: Date) {
    1 <= d.month <= 12 && 1 <= d.day <= DaysInMonth(d.year, d.month)
  }

  function NextMonth(m: Month): Month {
    if m.month + 1 > 12 then Month(m.year + 1, 1) else Month(m.year, m.month + 1)
  }

  function NextDate(d: Date): Date {
    if d.day < DaysInMonth(d.year, d.month) then Date(d.year, d.month, d.day + 1)
    else var n := NextMonth(Month(d.year, d.month)); Date(n.year, n.month, 1)
  }

  function PreviousDate(d: Date): Date {
    if d.day > 1 then Date(d.year, d.month, d.day - 1)
    else if d.month > 1 then Date(d.year, d.month - 1, DaysInMonth(d.year, d.month - 1))
    else Date(d.year - 1, 12, 31)
  }

  /** The date `n` days after 1970-01-01, found by walking the calendar one day at a time. */
  function GregorianDate(n: int): (d: Date)
    ensures ValidDate(d)
    decreases if n < 0 then -n else n
  {
    if n == 0 then Date(1970, 1, 1)
    else if n > 0 then NextDate(GregorianDate(n - 1))
    else PreviousDate(GregorianDate(n + 1))
  }

  // ----- the script's integer conversions

  function YearOfEra(doe: int): int {
    (doe - doe / 1460 + doe / 36524 - doe / 146096) / 365
  }

  function CivilFromDays(days: int): Date {
    var z := days + 719468;
    var era := z / 146097;
    CivilInEra(era, z - era * 146097)
  }

  function CivilInEra(era: int, doe: int): Date {
    var yoe := YearOfEra(doe);
    var y := yoe + era * 400;
    var doy := doe - (365 * yoe + yoe / 4 - yoe / 100);
    var mp := (5 * doy + 2) / 153;
    var d := doy - (153 * mp + 2) / 5 + 1;
    var m := if mp >= 10 then mp - 9 else mp + 3;
    Date(if m <= 2 then y + 1 else y, m, d)
  }

  function DaysFromCivil(d: Date): int {
    var y := if d.month <= 2 then d.year - 1 else d.year;
    var mp := if d.month <= 2 then d.month + 9 else d.month - 3;
    var doy := (153 * mp + 2) / 5 + d.day - 1;
    DaysToMarch(y) + doy
  }

  /** Days from the epoch to the first of March of year y: the script's era part. */
  function DaysToMarch(y: int): int {
    var era := y / 400;
    var yoe := y - era * 400;
    era * 146097 + (yoe * 365 + yoe / 4 - yoe / 100) - 719468
  }

  // ----- the conversions are mutually inverse

  /** The script's year-of-era formula inverts the first-day-of-year count. */
  lemma YearOfEraInverts(yoe: int, doy: int)
    requires 0 <= yoe < 400
    requires 0 <= doy <= (if IsLeap(yoe + 1) then 365 else 364)
    ensures YearOfEra(365 * yoe + yoe / 4 - yoe / 100 + doy) == yoe
    ensures 0 <= 365 * yoe + yoe / 4 - yoe / 100 + doy < 146097
  {
    var c, q, r := yoe / 100, yoe % 100 / 4, yoe % 4;
    assert yoe == 100 * c + 4 * q + r;
    var doe := 36524 * c + 1461 * q + 365 * r + doy;
    assert doe == 365 * yoe + yoe / 4 - yoe / 100 + doy;
    CenturyPart(c, q, r, doy);
    FourYearPart(c, q, r, doy);
  }

  lemma CenturyPart(c: int, q: int, r: int, doy: int)
    requires 0 <= c < 4 && 0 <= q < 25 && 0 <= r < 4
    requires 0 <= doy <= (if IsLeap(100 * c + 4 * q + r + 1) then 365 else 364)
    ensures var doe := 36524 * c + 1461 * q + 365 * r + doy;
            && (doe / 36524 == if doe == 146096 then 4 else c)
            && (doe / 146096 == if doe == 146096 then 1 else 0)
            && 0 <= doe <= 146096
  {
  }

  lemma FourYearPart(c: int, q: int, r: int, doy: int)
    requires 0 <= c < 4 && 0 <= q < 25 && 0 <= r < 4
    requires 0 <= doy <= (if IsLeap(100 * c + 4 * q + r + 1) then 365 else 364)
    ensures var doe := 36524 * c + 1461 * q + 365 * r + doy;
            (doe - doe / 1460 + c) / 365 == 100 * c + 4 * q + r
  {
  }

  /** Position of a day inside the March-based year that the conversions use. */
  lemma MonthOfYearInverts(mp: int, day: int)
    requires 0 <= mp <= 11
    requires 1 <= day <= (if mp == 11 then 29 else DaysInMonth(1, if mp >= 10 then mp - 9 else mp + 3))
    ensures var doy := (153 * mp + 2) / 5 + day - 1;
            (5 * doy + 2) / 153 == mp && 0 <= doy <= 365 && (doy == 365 <==> mp == 11 && day == 29)
  {
  }

  lemma LeapIsPeriodic(y: int)
    ensures IsLeap(y + 1) == IsLeap(y - y / 400 * 400 + 1)
  {
    var era := y / 400;
    ModuloShift(y - era * 400 + 1, 100 * era, 4);
    ModuloShift(y - era * 400 + 1, 4 * era, 100);
    ModuloShift(y - era * 400 + 1, era, 400);
  }

  /** Decoding a day of an era built from year of era, month position and day. */
  lemma CivilInEraOfParts(era: int, yoe: int, mp: int, day: int, doy: int, doe: int)
    requires 0 <= yoe < 400 && 0 <= mp <= 11
    requires 1 <= day <= (if mp == 11 then 29 else DaysInMonth(1, if mp >= 10 then mp - 9 else mp + 3))
    requires mp == 11 && day == 29 ==> IsLeap(yoe + 1)
    requires doy == (153 * mp + 2) / 5 + day - 1 && doe == 365 * yoe + yoe / 4 - yoe / 100 + doy
    ensures 0 <= doe < 146097
    ensures var m := if mp >= 10 then mp - 9 else mp + 3;
            CivilInEra(era, doe) == Date(era * 400 + yoe + (if m <= 2 then 1 else 0), m, day)
  {
    MonthOfYearInverts(mp, day);
    YearOfEraInverts(yoe, doy);
  }

  lemma CivilInEraIsCivil(era: int, doe: int, days: int)
    requires 0 <= doe < 146097 && days == era * 146097 + doe - 719468
    ensures CivilFromDays(days) == CivilInEra(era, doe)
  {
    QuotientIsUnique(era * 146097 + doe, 146097, era, doe);
  }

  /** Converting a real date to a day count and back gives the date again. */
  lemma DateRoundTrip(d: Date)
    requires ValidDate(d)
    ensures CivilFromDays(DaysFromCivil(d)) == d
  {
    var y := if d.month <= 2 then d.year - 1 else d.year;
    LeapIsPeriodic(y);
    RoundTripInEra(d, y, y / 400, y - y / 400 * 400, if d.month <= 2 then d.month + 9 else d.month - 3);
  }

  lemma RoundTripInEra(d: Date, y: int, era: int, yoe: int, mp: int)
    requires 1 <= d.month <= 12 && 1 <= d.day <= (if d.month == 2 then 29 else DaysInMonth(1, d.month))
    requires y == (if d.month <= 2 then d.year - 1 else d.year)
    requires y == era * 400 + yoe && 0 <= yoe < 400
    requires mp == (if d.month <= 2 then d.month + 9 else d.month - 3)
    requires mp == 11 && d.day == 29 ==> IsLeap(yoe + 1)
    ensures CivilFromDays(DaysFromCivil(d)) == d
  {
    var doy := (153 * mp + 2) / 5 + d.day - 1;
    var doe := 365 * yoe + yoe / 4 - yoe / 100 + doy;
    var days := era * 146097 + doe - 719468;
    assert DaysFromCivil(d) == days by { QuotientIsUnique(y, 400, era, yoe); }
    CivilInEraOfParts(era, yoe, mp, d.day, doy, doe);
    CivilInEraIsCivil(era, doe, days);
  }

  /** The day after a date has the next day count, across month, year and century ends. */
  lemma NextDateIsNextDay(d: Date)
    requires ValidDate(d)
    ensures ValidDate(NextDate(d)) && DaysFromCivil(NextDate(d)) == DaysFromCivil(d) + 1
  {
    if d.day < DaysInMonth(d.year, d.month) {
      DayWithinMonth(d.year, d.month, d.day);
      DayWithinMonth(d.year, d.month, d.day + 1);
    } else if d.month == 2 {
      MarchFollowsFebruary(d.year);
    } else {
      MonthFollowsMonth(d.year, d.month);
    }
  }

  lemma DayWithinMonth(y: int, m: int, day: int)
    ensures DaysFromCivil(Date(y, m, day)) == DaysFromCivil(Date(y, m, 1)) + day - 1
  {
  }

  lemma MonthFollowsMonth(y: int, m: int)
    requires 1 <= m <= 12 && m != 2
    ensures var n := NextMonth(Month(y, m));
            DaysFromCivil(Date(n.year, n.month, 1)) == DaysFromCivil(Date(y, m, 1)) + DaysInMonth(y, m)
  {
  }

  lemma MarchFollowsFebruary(year: int)
    ensures DaysFromCivil(Date(year, 3, 1)) == DaysFromCivil(Date(year, 2, 1)) + DaysInMonth(year, 2)
  {
    MarchYearLength(year - 1);
  }

  lemma MarchYearLength(y: int)
    ensures DaysToMarch(y + 1) == DaysToMarch(y) + 365 + (if IsLeap(y + 1) then 1 else 0)
  {
    var era := y / 400;
    var yoe := y - era * 400;
    LeapIsPeriodic(y);
    if yoe == 399 {
      QuotientIsUnique(y + 1, 400, era + 1, 0);
    } else {
      QuotientIsUnique(y + 1, 400, era, yoe + 1);
      YearOfEraStep(yoe);
    }
  }

  lemma YearOfEraStep(yoe: int)
    requires 0 <= yoe < 399
    ensures (yoe + 1) / 4 - yoe / 4 - ((yoe + 1) / 100 - yoe / 100) == if IsLeap(yoe + 1) then 1 else 0
  {
  }

  lemma PreviousDateIsInverse(d: Date)
    requires ValidDate(d)
    ensures ValidDate(PreviousDate(d)) && NextDate(PreviousDate(d)) == d
  {
  }

  /** The day count of the n-th date of the calendar walk is n. */
  lemma {:induction false} WalkCountsDays(n: int)
    ensures DaysFromCivil(GregorianDate(n)) == n
    decreases if n < 0 then -n else n
  {
    if n > 0 {
      WalkCountsDays(n - 1);
      NextDateHasDay(GregorianDate(n - 1), GregorianDate(n), n);
    } else if n < 0 {
      WalkCountsDays(n + 1);
      PreviousDateHasDay(GregorianDate(n + 1), GregorianDate(n), n);
    }
  }

  lemma NextDateHasDay(d: Date, e: Date, n: int)
    requires ValidDate(d) && e == NextDate(d) && DaysFromCivil(d) == n - 1
    ensures DaysFromCivil(e) == n
  {
    NextDateIsNextDay(d);
  }

  lemma PreviousDateHasDay(d: Date, e: Date, n: int)
    requires ValidDate(d) && e == PreviousDate(d) && DaysFromCivil(d) == n + 1
    ensures DaysFromCivil(e) == n
  {
    PreviousDateIsInverse(d);
    NextDateIsNextDay(e);
  }

  /** For every integer day, the script's date is the one found by walking the Gregorian
      calendar from 1970-01-01, and converting it back gives the day again. */
  lemma CivilIsGregorian(n: int)
    ensures CivilFromDays(n) == GregorianDate(n)
    ensures ValidDate(CivilFromDays(n))
    ensures DaysFromCivil(CivilFromDays(n)) == n
  {
    WalkCountsDays(n);
    DateRoundTrip(GregorianDate(n));
  }

  /** Consecutive days are consecutive Gregorian dates, starting from 1970-01-01. */
  lemma ConsecutiveDays(n: int)
    ensures CivilFromDays(n + 1) == NextDate(CivilFromDays(n))
    ensures CivilFromDays(0) == Date(1970, 1, 1)
  {
    CivilIsGregorian(n);
    CivilIsGregorian(n + 1);
    CivilIsGregorian(0);
    if n < 0 { PreviousDateIsInverse(GregorianDate(n + 1)); }
  }

  // ----- the month that names a quota counter

  function MonthOf(nowS: int): Month {
    var d := CivilFromDays(nowS / SECONDS_PER_DAY);
    Month(d.year, d.month)
  }

  function MonthStartS(m: Month): int {
    DaysFromCivil(Date(m.year, m.month, 1)) * SECONDS_PER_DAY
  }

  /** Epoch second of the first instant of the following month. */
  function MonthEndS(m: Month): int {
    MonthStartS(NextMonth(m))
  }

  /** `month_window_seconds`: the real length of the month. */
  function MonthWindowSeconds(m: Month): int {
    DaysInMonth(m.year, m.month) * SECONDS_PER_DAY
  }

  lemma MonthLength(m: Month)
    requires ValidMonth(m)
    ensures ValidMonth(NextMonth(m))
    ensures MonthEndS(m) - MonthStartS(m) == MonthWindowSeconds(m)
    ensures MonthStartS(m) < MonthEndS(m)
  {
    if m.month == 2 {
      MarchFollowsFebruary(m.year);
    } else {
      MonthFollowsMonth(m.year, m.month);
    }
  }

  lemma DayOfSecond(nowS: int, first: int, end: int)
    ensures first * SECONDS_PER_DAY <= nowS < end * SECONDS_PER_DAY <==> first <= nowS / SECONDS_PER_DAY < end
  {
  }

  /** The date of any day of a month is that month's date. */
  lemma DateInMonth(days: int, m: Month, first: int)
    requires ValidMonth(m) && first == DaysFromCivil(Date(m.year, m.month, 1))
    requires first <= days < first + DaysInMonth(m.year, m.month)
    ensures CivilFromDays(days) == Date(m.year, m.month, days - first + 1)
  {
    var d := Date(m.year, m.month, days - first + 1);
    assert DaysFromCivil(d) == days by { DayWithinMonth(m.year, m.month, d.day); }
    DateOfDay(d, days);
  }

  lemma DateOfDay(d: Date, days: int)
    requires ValidDate(d) && DaysFromCivil(d) == days
    ensures CivilFromDays(days) == d
  {
    DateRoundTrip(d);
  }

  /** A day belongs to exactly the month that its date names. */
  lemma MonthOfDay(days: int, m: Month, d: Date, first: int)
    requires ValidMonth(m) && first == DaysFromCivil(Date(m.year, m.month, 1))
    requires d == CivilFromDays(days)
    ensures Month(d.year, d.month) == m <==> first <= days < first + DaysInMonth(m.year, m.month)
  {
    CivilIsGregorian(days);
    if first <= days < first + DaysInMonth(m.year, m.month) {
      DateInMonth(days, m, first);
    }
    if Month(d.year, d.month) == m {
      DayWithinMonth(m.year, m.month, d.day);
      assert d == Date(m.year, m.month, d.day);
    }
  }

  /** A second belongs to exactly the month whose interval contains it. */
  lemma MonthInterval(nowS: int, m: Month)
    requires ValidMonth(m)
    ensures MonthOf(nowS) == m <==> MonthStartS(m) <= nowS < MonthEndS(m)
  {
    var first := DaysFromCivil(Date(m.year, m.month, 1));
    MonthOfDay(nowS / SECONDS_PER_DAY, m, CivilFromDays(nowS / SECONDS_PER_DAY), first);
    MonthLength(m);
    DayOfSecond(nowS, first, first + DaysInMonth(m.year, m.month));
  }

  /** The month of the clock contains the clock. */
  lemma MonthContainsNow(nowS: int)
    ensures ValidMonth(MonthOf(nowS))
    ensures MonthStartS(MonthOf(nowS)) <= nowS < MonthEndS(MonthOf(nowS))
  {
    CivilIsGregorian(nowS / SECONDS_PER_DAY);
    MonthInterval(nowS, MonthOf(nowS));
  }

  /** A month lasts from a moment in it until its end. */
  lemma MonthLasts(nowS: int, later: int, m: Month, end: int)
    requires ValidMonth(m) && MonthStartS(m) <= nowS <= later && end == MonthEndS(m)
    ensures MonthOf(later) == m <==> later < end
  {
    MonthInterval(later, m);
  }

  /** Months never run backwards while the clock does not. */
  lemma MonthsAreOrdered(earlier: int, later: int)
    requires earlier <= later
    ensures MonthOf(earlier) == MonthOf(later) || MonthEndS(MonthOf(earlier)) <= MonthStartS(MonthOf(later))
  {
    MonthContainsNow(earlier);
    MonthContainsNow(later);
    var e, l := MonthOf(earlier), MonthOf(later);
    if MonthStartS(l) < MonthEndS(e) {
      MonthInterval(MonthStartS(l), l);
      MonthLength(l);
      if MonthStartS(l) < MonthStartS(e) {
        MonthInterval(earlier, l);
      } else {
        MonthInterval(MonthStartS(l), e);
      }
    }
  }

  // ----- the rollup job's own month end (`month_end_seconds`)

  /** Days from 0001-01-01 to the first of January of year y, by counting leap years. */
  function DaysBeforeYear(y: int): int {
    (y - 1) * 365 + (y - 1) / 4 - (y - 1) / 100 + (y - 1) / 400
  }

  function DaysBeforeMonth(y: int, m: int): int
    requires 1 <= m <= 12
    decreases m
  {
    if m == 1 then 0 else DaysBeforeMonth(y, m - 1) + DaysInMonth(y, m - 1)
  }

  /** Epoch seconds of midnight UTC on the first of a month, by the proleptic Gregorian ordinal
      that the standard library's datetime uses. */
  function FirstOfMonthTimestamp(y: int, m: int): int
    requires 1 <= m <= 12
  {
    (DaysBeforeYear(y) + DaysBeforeMonth(y, m) - DaysBeforeYear(1970)) * SECONDS_PER_DAY
  }

  /** Month 0, which an overlong year can parse to, ends where January begins. */
  function MonthEndSeconds(year: int, month: int): int
    requires 0 <= month <= 12
  {
    if month == 12 then FirstOfMonthTimestamp(year + 1, 1) else FirstOfMonthTimestamp(year, month + 1)
  }

  lemma OrdinalOfJanuary(y: int)
    ensures FirstOfMonthTimestamp(y, 1) == MonthStartS(Month(y, 1))
  {
    var p := y - 1;
    var era := p / 400;
    var yoe := p - era * 400;
    assert p / 4 == 100 * era + yoe / 4;
    assert p / 100 == 4 * era + yoe / 100;
  }

  lemma {:induction false} OrdinalOfMonth(y: int, m: int)
    requires 1 <= m <= 12
    ensures FirstOfMonthTimestamp(y, m) == MonthStartS(Month(y, m))
    decreases m
  {
    if m == 1 {
      OrdinalOfJanuary(y);
    } else {
      OrdinalOfMonth(y, m - 1);
      MonthLength(Month(y, m - 1));
    }
  }

  /** The script and the rollup job agree on where a month ends. */
  lemma MonthEndsAgree(m: Month)
    requires ValidMonth(m)
    ensures MonthEndSeconds(m.year, m.month) == MonthEndS(m)
  {
    OrdinalOfMonth(NextMonth(m).year, NextMonth(m).month);
  }
}
