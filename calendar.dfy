/**
 * The date arithmetic of `DateUtils`: instants are milliseconds since 1970-01-01T00:00Z
 * (Joda `DateTime`s in a UTC zone), days are the instants at their midnight, and calendar
 * fields come from the proleptic Gregorian calendar.
 */
module Calendar {

  const MS_PER_DAY: int := 86400000

  /** `getTimeInMillisStartOfDay` / `getDateTimeStartOfDay`: the midnight that starts the instant's day. */
  function StartOfDay(millis: int): (r: int)
    ensures r <= millis < r + MS_PER_DAY
    ensures r % MS_PER_DAY == 0
  {
    millis - millis % MS_PER_DAY
  }

  /** The day number of an instant (days since 1970-01-01). */
  function DayIndex(millis: int): int
  {
    millis / MS_PER_DAY
  }

  /** The day number of a day's midnight is that day. */
  lemma DayIndexOfDay(k: int)
    ensures DayIndex(k * MS_PER_DAY) == k
  {
  }

  lemma StartOfDayIdempotent(millis: int)
    ensures StartOfDay(StartOfDay(millis)) == StartOfDay(millis)
    ensures DayIndex(StartOfDay(millis)) == DayIndex(millis)
    ensures StartOfDay(millis) == DayIndex(millis) * MS_PER_DAY
  {
  }

  /** Two instants fall on the same day exactly when their days start at the same midnight. */
  lemma SameDay(m1: int, m2: int)
    ensures StartOfDay(m1) == StartOfDay(m2) <==> DayIndex(m1) == DayIndex(m2)
  {
  }

  /**
   * `getNumDaysBetweenDates(start: DateTime, end: DateTime)`: `Days.daysBetween`, the
   * number of whole days from `start` to `end`, negative when `end` is earlier.
   */
  function NumDaysBetween(start: int, end: int): (r: int)
  {
    if end >= start then (end - start) / MS_PER_DAY else -((start - end) / MS_PER_DAY)
  }

  /** The count is the elapsed time in whole days, rounded toward zero, and swaps sign with the arguments. */
  lemma NumDaysBetweenSpec(start: int, end: int)
    ensures var r := NumDaysBetween(start, end);
      && (end >= start ==> 0 <= r * MS_PER_DAY <= end - start < (r + 1) * MS_PER_DAY)
      && (end < start ==> 0 <= -r * MS_PER_DAY <= start - end < (-r + 1) * MS_PER_DAY)
    ensures NumDaysBetween(end, start) == -NumDaysBetween(start, end)
  {
  }

  /**
   * `getNumDaysBetweenDates(dateInMillis1, dateInMillis2)`: both instants are first moved to
   * the start of their day, so the count is the difference of their day numbers.
   */
  function NumDaysBetweenMillis(dateInMillis1: int, dateInMillis2: int): (r: int)
    ensures r == DayIndex(dateInMillis2) - DayIndex(dateInMillis1)
  {
    NumDaysBetween(StartOfDay(dateInMillis1), StartOfDay(dateInMillis2))
  }

  /** `getDateAfterNumDays`: the instant `plusDays` whole days after the base. */
  function DateAfterNumDays(base: int, plusDays: int): int
  {
    base + plusDays * MS_PER_DAY
  }

  /** Moving by some days and counting the days back gives the same number; a midnight stays a midnight. */
  lemma DateAfterNumDaysSpec(base: int, plusDays: int)
    ensures NumDaysBetween(base, DateAfterNumDays(base, plusDays)) == plusDays
    ensures DayIndex(DateAfterNumDays(base, plusDays)) == DayIndex(base) + plusDays
    ensures StartOfDay(base) == base ==> StartOfDay(DateAfterNumDays(base, plusDays)) == DateAfterNumDays(base, plusDays)
  {
  }

  /** `compareTwoDates`: whether the first instant is at or after the second. */
  function CompareTwoDates(firstDateInMillis: int, secondDateInMillis: int): bool
  {
    firstDateInMillis >= secondDateInMillis
  }

  /**
   * The comparison agrees with the calendar: an instant on a later day is later, and an
   * instant that is the same or later never falls on an earlier day.
   */
  lemma CompareTwoDatesDays(a: int, b: int)
    ensures DayIndex(a) > DayIndex(b) ==> CompareTwoDates(a, b)
    ensures CompareTwoDates(a, b) ==> DayIndex(a) >= DayIndex(b)
  {
  }

  // ---------------------------------------------------------------------------
  // Days of the week

  /** Joda's `dayOfWeek` of a day number: 1 is Monday, 7 is Sunday; 1970-01-01 was a Thursday. */
  function DayOfWeek(day: int): (w: int)
    ensures 1 <= w <= 7
  {
    (day + 3) % 7 + 1
  }

  /** The day of the week advances by one each day and repeats every seven days. */
  lemma DayOfWeekStep(day: int, k: int)
    ensures DayOfWeek(day + 7 * k) == DayOfWeek(day)
    ensures DayOfWeek(day + 1) == DayOfWeek(day) % 7 + 1
  {
    var q, r := (day + 3) / 7, (day + 3) % 7;
    Residue7(day + 3 + 7 * k, q + k, r);
    if r < 6 {
      Residue7(day + 4, q, r + 1);
    } else {
      Residue7(day + 4, q + 1, 0);
    }
  }

  lemma Residue7(x: int, q: int, r: int)
    requires x == 7 * q + r && 0 <= r < 7
    ensures x % 7 == r
  {
  }

  /** `getFirstDayOfWeekDateFromStartDate(dow, startDate)`. */
  function FirstDayOfWeekFrom(dow: int, startDate: int): int
  {
    var start := StartOfDay(startDate);
    var diffDow := dow - DayOfWeek(DayIndex(start));
    DateAfterNumDays(start, if diffDow <= 0 then diffDow + 7 else diffDow)
  }

  /**
   * For a day of the week 1..7 the result is the midnight of the first such day strictly
   * after the start date's day: between one and seven days later, and seven days later
   * exactly when the start date already falls on `dow`.
   */
  lemma FirstDayOfWeekFromSpec(dow: int, startDate: int)
    requires 1 <= dow <= 7
    ensures var r := FirstDayOfWeekFrom(dow, startDate);
      && StartOfDay(r) == r
      && DayOfWeek(DayIndex(r)) == dow
      && 1 <= DayIndex(r) - DayIndex(startDate) <= 7
      && (DayIndex(r) - DayIndex(startDate) == 7 <==> DayOfWeek(DayIndex(startDate)) == dow)
      && forall e :: DayIndex(startDate) < e < DayIndex(r) ==> DayOfWeek(e) != dow
  {
    var start := StartOfDay(startDate);
    StartOfDayIdempotent(startDate);
    var day := DayIndex(startDate);
    var diffDow := dow - DayOfWeek(day);
    var n := if diffDow <= 0 then diffDow + 7 else diffDow;
    DateAfterNumDaysSpec(start, n);
    assert DayIndex(FirstDayOfWeekFrom(dow, startDate)) == day + n;
    forall e | day < e < day + n ensures DayOfWeek(e) != dow {
    }
  }

  // ---------------------------------------------------------------------------
  // The proleptic Gregorian calendar of Joda's ISO chronology, on day numbers
  // (days since 1970-01-01), after H. Hinnant's days_from_civil / civil_from_days.

  /** A calendar date: year, month 1..12, day of month. */
  datatype Civil = Civil(year: int, month: int, day: int)

  /**
   * The day number of day `d` of month `m` of year `y`. A day past the month's end
   * counts on into the following months, as the lenient `java.util.Date` setters do.
   */
  function FromCivil(y: int, m: int, d: int): int
    requires 1 <= m <= 12
  {
    var y' := if m <= 2 then y - 1 else y;
    var era := y' / 400;
    var yoe := y' % 400;
    var doy := (153 * ((m + 9) % 12) + 2) / 5 + d - 1;
    era * 146097 + DayOfEra(yoe, doy) - 719468
  }

  datatype YearOfEra = YearOfEra(yoe: int, doy: int)

  /** Days from the start of an era (a March 1) to day `doy` of its year `yoe`. */
  function DayOfEra(yoe: int, doy: int): int
  {
    365 * yoe + yoe / 4 - yoe / 100 + doy
  }

  /** March-based year `yoe` of an era ends with a February 29. */
  predicate LongYearOfEra(yoe: int) { (yoe + 1) % 4 == 0 && ((yoe + 1) % 100 != 0 || yoe == 399) }

  /** Year of era and day of year of day `doe` of an era: whole centuries first. */
  function SplitEra(doe: int): (r: YearOfEra)
    requires 0 <= doe < 146097
    ensures 0 <= r.yoe < 400 && 0 <= r.doy <= 365
    ensures doe == DayOfEra(r.yoe, r.doy)
    ensures r.doy == 365 ==> LongYearOfEra(r.yoe)
  {
    var c := if doe / 36524 < 3 then doe / 36524 else 3;
    SplitCentury(c, doe - 36524 * c)
  }

  /** Then whole four-year cycles of the century, then whole years of the cycle. */
  function SplitCentury(c: int, r1: int): (r: YearOfEra)
    requires 0 <= c <= 3 && 0 <= r1 <= 36524 && (r1 == 36524 ==> c == 3)
    ensures 0 <= r.yoe < 400 && 0 <= r.doy <= 365
    ensures 36524 * c + r1 == DayOfEra(r.yoe, r.doy)
    ensures r.doy == 365 ==> LongYearOfEra(r.yoe)
  {
    var q := r1 / 1461;
    var r2 := r1 - 1461 * q;
    var y := if r2 / 365 < 3 then r2 / 365 else 3;
    CycleSplit(c, r1, q, r2, y);
    YearOfEra(100 * c + 4 * q + y, r2 - 365 * y)
  }

  /** The cycles and years of a century's day `r1` add up again. */
  lemma CycleSplit(c: int, r1: int, q: int, r2: int, y: int)
    requires 0 <= c <= 3 && 0 <= r1 <= 36524 && (r1 == 36524 ==> c == 3)
    requires q == r1 / 1461 && r2 == r1 - 1461 * q && y == if r2 / 365 < 3 then r2 / 365 else 3
    ensures var yoe := 100 * c + 4 * q + y; var doy := r2 - 365 * y;
      && 0 <= yoe < 400 && 0 <= doy <= 365
      && 36524 * c + r1 == DayOfEra(yoe, doy)
      && (doy == 365 ==> LongYearOfEra(yoe))
  {
    assert 0 <= q <= 24;
    YearOfCentury(c, q, y);
  }

  /** Year `y` of cycle `q` of century `c` of an era, read back as centuries and cycles. */
  lemma YearOfCentury(c: int, q: int, y: int)
    requires 0 <= c <= 3 && 0 <= q <= 24 && 0 <= y <= 3
    ensures var yoe := 100 * c + 4 * q + y; yoe / 4 == 25 * c + q && yoe / 100 == c
  {
  }

  /** The date of day `doy` (from March 1) of year `yoe` of era `era`. */
  function CivilOfEra(era: int, s: YearOfEra): (r: Civil)
    requires 0 <= s.doy <= 365
    ensures 1 <= r.month <= 12
  {
    var mp := (5 * s.doy + 2) / 153;
    var d := s.doy - (153 * mp + 2) / 5 + 1;
    var m := if mp < 10 then mp + 3 else mp - 9;
    var y := s.yoe + era * 400;
    Civil(if m <= 2 then y + 1 else y, m, d)
  }

  /** The calendar date of day number `z`. */
  function CivilOf(z: int): (r: Civil)
    ensures 1 <= r.month <= 12
  {
    var z' := z + 719468;
    CivilOfEra(z' / 146097, SplitEra(z' % 146097))
  }

  lemma MonthOfDay(doy: int)
    requires 0 <= doy <= 365
    ensures var mp := (5 * doy + 2) / 153;
      && 0 <= mp <= 11
      && var m := if mp < 10 then mp + 3 else mp - 9;
      && (m + 9) % 12 == mp
  {
  }

  lemma YearOfEraSplit(y: int, era: int, yoe: int)
    requires 0 <= yoe < 400 && y == yoe + era * 400
    ensures y / 400 == era && y % 400 == yoe
  {
  }

  /** The fields of a date, read back as a year, March-based month and day of year. */
  lemma CivilOfEraFields(era: int, s: YearOfEra)
    requires 0 <= s.doy <= 365
    ensures var c := CivilOfEra(era, s);
      && (153 * ((c.month + 9) % 12) + 2) / 5 + c.day - 1 == s.doy
      && (if c.month <= 2 then c.year - 1 else c.year) == s.yoe + era * 400
  {
    MonthOfDay(s.doy);
  }

  /** Every day number is the day number of its own date. */
  lemma FromCivilOf(z: int)
    ensures var c := CivilOf(z); FromCivil(c.year, c.month, c.day) == z
  {
    var z' := z + 719468;
    var era := z' / 146097;
    var s := SplitEra(z' % 146097);
    EraOfDayNumber(z);
    CivilOfEraFields(era, s);
    FromCivilOfFields(CivilOfEra(era, s), era, s);
  }

  /** A day number, split into its era and the year and day of that era, adds up again. */
  lemma EraOfDayNumber(z: int)
    ensures var z' := z + 719468; var s := SplitEra(z' % 146097);
      z == (z' / 146097) * 146097 + DayOfEra(s.yoe, s.doy) - 719468
  {
    var z' := z + 719468;
    assert z' == (z' / 146097) * 146097 + z' % 146097;
  }

  /** `FromCivil` of a date whose fields are the era, year of era and day of year given. */
  lemma FromCivilOfFields(c: Civil, era: int, s: YearOfEra)
    requires 1 <= c.month <= 12 && 0 <= s.yoe < 400
    requires (153 * ((c.month + 9) % 12) + 2) / 5 + c.day - 1 == s.doy
    requires (if c.month <= 2 then c.year - 1 else c.year) == s.yoe + era * 400
    ensures FromCivil(c.year, c.month, c.day) == era * 146097 + DayOfEra(s.yoe, s.doy) - 719468
  {
    YearOfEraSplit(s.yoe + era * 400, era, s.yoe);
  }

  /** Gregorian leap years. */
  predicate IsLeapYear(y: int) { y % 4 == 0 && (y % 100 != 0 || y % 400 == 0) }

  function DaysInMonth(y: int, m: int): int
    requires 1 <= m <= 12
  {
    if m == 2 then (if IsLeapYear(y) then 29 else 28)
    else if m == 4 || m == 6 || m == 9 || m == 11 then 30
    else 31
  }

  lemma SplitEraParts(doe: int, c: int, q: int, y: int, doy: int)
    requires 0 <= c <= 3 && 0 <= q <= 24 && 0 <= y <= 3 && 0 <= doy
    requires doy <= 364 || (doy == 365 && y == 3 && (q < 24 || c == 3))
    requires doe == 36524 * c + 1461 * q + 365 * y + doy
    ensures 0 <= doe < 146097 && SplitEra(doe) == YearOfEra(100 * c + 4 * q + y, doy)
  {
    var r1 := 1461 * q + 365 * y + doy;
    if c < 3 {
      DivIs(doe, 36524, c);
    } else {
      DivAtLeast(doe, 36524, 3);
    }
    assert (if doe / 36524 < 3 then doe / 36524 else 3) == c;
    assert SplitEra(doe) == SplitCentury(c, r1);
    SplitCenturyParts(c, q, y, doy);
  }

  lemma SplitCenturyParts(c: int, q: int, y: int, doy: int)
    requires 0 <= c <= 3 && 0 <= q <= 24 && 0 <= y <= 3 && 0 <= doy
    requires doy <= 364 || (doy == 365 && y == 3 && (q < 24 || c == 3))
    ensures SplitCentury(c, 1461 * q + 365 * y + doy) == YearOfEra(100 * c + 4 * q + y, doy)
  {
    var r2 := 365 * y + doy;
    if y < 3 {
      DivIs(r2, 365, y);
    } else {
      DivAtLeast(r2, 365, 3);
    }
    DivIs(1461 * q + r2, 1461, q);
  }

  lemma DivIs(x: int, k: int, q: int)
    requires (k == 365 || k == 1461 || k == 36524) && k * q <= x < k * q + k
    ensures x / k == q
  {
  }

  lemma DivAtLeast(x: int, k: int, q: int)
    requires (k == 365 || k == 36524) && k * q <= x
    ensures x / k >= q
  {
  }

  /** The centuries, four-year cycles and years of a year of era. */
  lemma YearOfEraDigits(yoe: int)
    requires 0 <= yoe < 400
    ensures var c := yoe / 100; var q := (yoe % 100) / 4; var y := yoe % 4;
      && 0 <= c <= 3 && 0 <= q <= 24 && 0 <= y <= 3
      && yoe == 100 * c + 4 * q + y && yoe / 4 == 25 * c + q
  {
  }

  lemma SplitEraOf(yoe: int, doy: int)
    requires 0 <= yoe < 400 && 0 <= doy && (doy <= 364 || (doy == 365 && LongYearOfEra(yoe)))
    ensures 0 <= DayOfEra(yoe, doy) < 146097
    ensures SplitEra(DayOfEra(yoe, doy)) == YearOfEra(yoe, doy)
  {
    YearOfEraDigits(yoe);
    var c := yoe / 100;
    var q := (yoe % 100) / 4;
    var y := yoe % 4;
    assert DayOfEra(yoe, doy) == 36524 * c + 1461 * q + 365 * y + doy;
    SplitEraParts(DayOfEra(yoe, doy), c, q, y, doy);
  }

  lemma MonthOfDayInverse(mp: int, d: int, len: int)
    requires 0 <= mp <= 11 && 1 <= d <= len
    requires len == (if mp == 11 then 29 else if mp == 1 || mp == 3 || mp == 6 || mp == 8 then 30 else 31)
    ensures var doy := (153 * mp + 2) / 5 + d - 1; (5 * doy + 2) / 153 == mp
  {
  }

  lemma CivilOfEraDay(z: int, era: int, doe: int)
    requires 0 <= doe < 146097 && z == era * 146097 + doe - 719468
    ensures CivilOf(z) == CivilOfEra(era, SplitEra(doe))
  {
    EraDivMod(z + 719468, era, doe);
  }

  lemma EraDivMod(x: int, q: int, r: int)
    requires x == q * 146097 + r && 0 <= r < 146097
    ensures x / 146097 == q && x % 146097 == r
  {
  }

  lemma CivilOfEraMonth(era: int, yoe: int, mp: int, d: int, len: int)
    requires 0 <= mp <= 11 && 1 <= d <= len
    requires len == (if mp == 11 then 29 else if mp == 1 || mp == 3 || mp == 6 || mp == 8 then 30 else 31)
    ensures var m := if mp < 10 then mp + 3 else mp - 9;
      CivilOfEra(era, YearOfEra(yoe, (153 * mp + 2) / 5 + d - 1))
        == Civil(if m <= 2 then yoe + era * 400 + 1 else yoe + era * 400, m, d)
  {
    MonthOfDayInverse(mp, d, len);
  }

  /** The March-based month index of month `m`, and back. */
  lemma MonthIndex(m: int)
    requires 1 <= m <= 12
    ensures var mp := (m + 9) % 12;
      && 0 <= mp <= 11 && (if mp < 10 then mp + 3 else mp - 9) == m && (mp == 11 <==> m == 2)
      && ((mp == 1 || mp == 3 || mp == 6 || mp == 8) <==> (m == 4 || m == 6 || m == 9 || m == 11))
  {
  }

  lemma YearOfEraOf(y: int)
    ensures 0 <= y % 400 < 400 && y == y % 400 + (y / 400) * 400
  {
  }

  lemma LeapDayYear(y: int, era: int, yoe: int)
    requires 0 <= yoe < 400 && y == yoe + 1 + era * 400 && IsLeapYear(y)
    ensures LongYearOfEra(yoe)
  {
    var r := if yoe == 399 then 0 else yoe + 1;
    assert y == (if yoe == 399 then era + 1 else era) * 400 + r;
    ResidueOfEra(y, if yoe == 399 then era + 1 else era, r);
  }

  /** Day `d` of March-based month `mp` is a day of the year, the 366th only for February 29. */
  lemma DayOfYearRange(mp: int, d: int, len: int)
    requires 0 <= mp <= 11 && 1 <= d <= len
    requires len == (if mp == 11 then 29 else if mp == 1 || mp == 3 || mp == 6 || mp == 8 then 30 else 31)
    ensures var doy := (153 * mp + 2) / 5 + d - 1;
      0 <= doy && (doy <= 364 || (doy == 365 && mp == 11 && d == 29))
  {
  }

  /** The date of day `doy` of year `yoe` of era `era`, reached through the era's day `doe`. */
  lemma CivilOfEraSplit(era: int, doe: int, yoe: int, mp: int, d: int, len: int)
    requires 0 <= mp <= 11 && 1 <= d <= len
    requires len == (if mp == 11 then 29 else if mp == 1 || mp == 3 || mp == 6 || mp == 8 then 30 else 31)
    requires 0 <= doe < 146097 && SplitEra(doe) == YearOfEra(yoe, (153 * mp + 2) / 5 + d - 1)
    ensures var m := if mp < 10 then mp + 3 else mp - 9;
      CivilOfEra(era, SplitEra(doe)) == Civil(if m <= 2 then yoe + era * 400 + 1 else yoe + era * 400, m, d)
  {
    CivilOfEraMonth(era, yoe, mp, d, len);
  }

  /** A valid date is the date of its own day number. */
  lemma CivilOfFromCivil(y: int, m: int, d: int)
    requires 1 <= m <= 12 && 1 <= d <= DaysInMonth(y, m)
    ensures CivilOf(FromCivil(y, m, d)) == Civil(y, m, d)
  {
    var y' := if m <= 2 then y - 1 else y;
    var era := y' / 400;
    var yoe := y' % 400;
    YearOfEraOf(y');
    MonthIndex(m);
    var mp := (m + 9) % 12;
    var len := if mp == 11 then 29 else DaysInMonth(y, m);
    if m == 2 && d == 29 {
      LeapDayYear(y, era, yoe);
    }
    var doy := (153 * mp + 2) / 5 + d - 1;
    DayOfYearRange(mp, d, len);
    SplitEraOf(yoe, doy);
    var doe := DayOfEra(yoe, doy);
    assert (if m <= 2 then yoe + era * 400 + 1 else yoe + era * 400) == y;
    CivilOfEraSplit(era, doe, yoe, mp, d, len);
    assert FromCivil(y, m, d) == era * 146097 + doe - 719468;
    CivilOfEraDay(FromCivil(y, m, d), era, doe);
  }

  lemma LongYearLeap(era: int, yoe: int)
    requires 0 <= yoe < 400 && LongYearOfEra(yoe)
    ensures IsLeapYear(yoe + era * 400 + 1)
  {
    var y := yoe + era * 400 + 1;
    var r := if yoe == 399 then 0 else yoe + 1;
    assert y == (if yoe == 399 then era + 1 else era) * 400 + r;
    ResidueOfEra(y, if yoe == 399 then era + 1 else era, r);
  }

  lemma ResidueOfEra(y: int, q: int, r: int)
    requires 0 <= r < 400 && y == q * 400 + r
    ensures y % 4 == r % 4 && y % 100 == r % 100 && y % 400 == r
  {
    ModShift4(y, q * 100, r);
    ModShift100(y, q * 4, r);
  }

  lemma ModShift4(y: int, k: int, r: int)
    requires y == 4 * k + r
    ensures y % 4 == r % 4
  {
    assert y == 4 * (k + r / 4) + r % 4;
  }

  lemma ModShift100(y: int, k: int, r: int)
    requires y == 100 * k + r
    ensures y % 100 == r % 100
  {
    assert y == 100 * (k + r / 100) + r % 100;
  }

  lemma CivilOfEraValid(era: int, s: YearOfEra)
    requires 0 <= s.yoe < 400 && 0 <= s.doy <= 365 && (s.doy == 365 ==> LongYearOfEra(s.yoe))
    ensures var c := CivilOfEra(era, s); 1 <= c.day <= DaysInMonth(c.year, c.month)
  {
    MonthOfDay(s.doy);
    if s.doy == 365 {
      LongYearLeap(era, s.yoe);
    }
  }

  /** The date of a day number is a valid date: its day lies within its month. */
  lemma CivilOfValid(z: int)
    ensures var c := CivilOf(z); 1 <= c.day <= DaysInMonth(c.year, c.month)
  {
    var z' := z + 719468;
    CivilOfEraValid(z' / 146097, SplitEra(z' % 146097));
  }

  /** The calendar date of an instant. */
  function DateOf(millis: int): Civil
  {
    CivilOf(DayIndex(millis))
  }

  /** The instant at the midnight that starts a (possibly rolled-over) date. */
  function InstantOf(y: int, m: int, d: int): (r: int)
    requires 1 <= m <= 12
    ensures StartOfDay(r) == r
  {
    FromCivil(y, m, d) * MS_PER_DAY
  }

  /** The instant of a valid date reads back as that date. */
  lemma DateOfInstantOf(y: int, m: int, d: int)
    requires 1 <= m <= 12 && 1 <= d <= DaysInMonth(y, m)
    ensures DateOf(InstantOf(y, m, d)) == Civil(y, m, d)
  {
    DayIndexOfDay(FromCivil(y, m, d));
    CivilOfFromCivil(y, m, d);
  }
}
