/**
 * `DateUtils.parseDateFromString`: a natural-language date phrase resolved against the
 * current instant. The phrase is lower-cased and stripped of a few leading words, then
 * tried, in order, as a count of days or weeks, as one of four date templates, as a date
 * noun and as a weekday name; the first rule that applies decides the result.
 */
module DateParser {
  import opened Common
  import opened Text
  import opened NumberWords
  import opened Calendar

  /**
   * The exceptions the parser lets escape: `IllegalArgumentException` when no rule applies,
   * `NumberFormatException` from `Integer.parseInt` / `Double.parseDouble`, and the
   * `IndexOutOfBoundsException` of `convertEnglishWordsToDecimal` on a text with no number.
   */
  datatype ParseError = NotADate | BadNumber | IndexOutOfRange

  /** The `DateTime` returned (as its instant in milliseconds), or the exception thrown. */
  datatype ParseResult = Date(millis: int) | Failure(error: ParseError)

  /** An intermediate value of a rule, or the exception that ends it. */
  datatype Read<T> = Read(value: T) | Fail(error: ParseError)

  // ---------------------------------------------------------------------------
  // Java arithmetic

  const INT_MIN: int := -0x8000_0000
  const INT_MAX: int := 0x7fff_ffff

  /** `Int` multiplication and addition: the result taken modulo 2^32 into the signed range. */
  function Wrap32(i: int): (r: int)
    ensures INT_MIN <= r <= INT_MAX
    ensures INT_MIN <= i <= INT_MAX ==> r == i
    ensures (r - i) % 0x1_0000_0000 == 0
  {
    (i - INT_MIN) % 0x1_0000_0000 + INT_MIN
  }

  /** `Double.toInt()` of a whole number: values beyond the `Int` range saturate. */
  function Clamp32(i: int): (r: int)
    ensures INT_MIN <= r <= INT_MAX
    ensures INT_MIN <= i <= INT_MAX ==> r == i
    ensures i > INT_MAX ==> r == INT_MAX
    ensures i < INT_MIN ==> r == INT_MIN
  {
    if i < INT_MIN then INT_MIN else if i > INT_MAX then INT_MAX else i
  }

  /** `Math.ceil` on an exact value. */
  function Ceil(x: real): (r: int)
    ensures r as real - 1.0 < x <= r as real
  {
    -((-x).Floor)
  }

  /** `Integer.parseInt`: `ParseInt`, and a `NumberFormatException` for a value outside `Int`. */
  function ParseInt32(s: string): (r: Option<int>)
    ensures r.Some? ==> INT_MIN <= r.value <= INT_MAX && ParseInt(s) == r
    ensures ParseInt(s).Some? && INT_MIN <= ParseInt(s).value <= INT_MAX ==> r == ParseInt(s)
  {
    match ParseInt(s)
    case Some(v) => if INT_MIN <= v <= INT_MAX then Some(v) else None
    case None => None
  }

  function Pow10(n: nat): (r: nat)
    ensures r >= 1
  {
    if n == 0 then 1 else 10 * Pow10(n - 1)
  }

  /** The index of the first `e` or `E`, or the length. */
  function ExponentMark(s: string): (k: nat)
    ensures k <= |s| && (k < |s| ==> s[k] == 'e' || s[k] == 'E')
    ensures forall i :: 0 <= i < k ==> s[i] != 'e' && s[i] != 'E'
  {
    if s == [] then 0
    else if s[0] == 'e' || s[0] == 'E' then 0
    else 1 + ExponentMark(s[1..])
  }

  /** The value of a decimal numeral `int.frac` (either part may be empty, not both). */
  function DecimalValue(intPart: string, frac: string): real
    requires AllDigits(intPart) && AllDigits(frac)
  {
    AllDigitsAppend(intPart, frac);
    (DigitsValue(intPart + frac) as real) / (Pow10(|frac|) as real)
  }

  /**
   * `Double.parseDouble` on decimal numerals, with the value taken exactly: surrounding
   * characters `<= ' '` are ignored, then an optional sign, digits with at most one '.',
   * at least one digit, and an optional exponent `e`/`E`, optional sign and digits.
   */
  function ParseDouble(text: string): Option<real>
  {
    var s := Trim(text);
    if s != [] && s[0] == '-' then
      match ParseUnsigned(s[1..]) case Some(m) => Some(-m) case None => None
    else if s != [] && s[0] == '+' then ParseUnsigned(s[1..])
    else ParseUnsigned(s)
  }

  /** A numeral without sign: a mantissa, then an optional exponent. */
  function ParseUnsigned(body: string): Option<real>
  {
    var k := ExponentMark(body);
    var exponent := if k < |body| then ParseInt(body[k + 1..]) else Some(0);
    match ParseMantissa(body[..k])
    case None => None
    case Some(m) => if exponent.Some? then Some(Scale(m, exponent.value)) else None
  }

  /** Digits with at most one '.', at least one digit in all. */
  function ParseMantissa(mantissa: string): Option<real>
  {
    var dot := IndexOf(mantissa, ".");
    var intPart := if dot < 0 then mantissa else mantissa[..dot];
    var frac := if dot < 0 then "" else mantissa[dot + 1..];
    if AllDigits(intPart) && AllDigits(frac) && |intPart| + |frac| >= 1 then Some(DecimalValue(intPart, frac))
    else None
  }

  /** `m` times ten to the power `e`. */
  function Scale(m: real, e: int): (r: real)
    ensures e == 0 ==> r == m
  {
    if e >= 0 then m * (Pow10(e) as real) else m / (Pow10(-e) as real)
  }

  // ---------------------------------------------------------------------------
  // (0) Cleaning up the phrase

  const EXPIRES: string := "expires "
  const ON: string := "on "
  const IN: string := "in "
  const THE: string := "the "

  function DropPrefix(s: string, p: string): string
  {
    if StartsWith(s, p) then s[|p|..] else s
  }

  /** Lower-cased, then "expires ", "on ", "in " and "the " each removed once from the front, in that order. */
  function Clean(input: string): string
  {
    DropPrefix(DropPrefix(DropPrefix(DropPrefix(Lower(input), EXPIRES), ON), IN), THE)
  }

  // ---------------------------------------------------------------------------
  // (1) Counts of days and weeks

  predicate EndsWith(s: string, p: string) { |p| <= |s| && s[|s| - |p|..] == p }

  /** `X unit` or `X units` (the regex `X units?`): the text `X` in front. */
  function UnitPrefix(s: string, unit: string): (r: Option<string>)
    ensures r.Some? ==> |r.value| < |s|
  {
    if EndsWith(s, " " + unit) then Some(s[..|s| - |unit| - 1])
    else if EndsWith(s, " " + unit + "s") then Some(s[..|s| - |unit| - 2])
    else None
  }

  /** `\d+`: ASCII digits, at least one. */
  predicate Digits(p: string) { p != [] && AllDigits(p) }

  /** `\w+`: ASCII letters, digits and '_', at least one. */
  predicate Word(p: string) { p != [] && AllWordChars(p) }

  /** The characters the regex `.` does not match. */
  predicate IsLineTerminator(c: char)
  {
    c == '\n' || c == '\r' || c == '\U{0085}' || c == '\U{2028}' || c == '\U{2029}'
  }

  /** `\d+.\d+`: digits, any one character but a line terminator, digits. */
  predicate DigitsAnyDigits(p: string)
  {
    exists i :: 1 <= i < |p| - 1 && Digits(p[..i]) && !IsLineTerminator(p[i]) && Digits(p[i + 1..])
  }

  /** `\w+ point \w+` */
  predicate WordPointWord(p: string)
  {
    exists i :: 1 <= i && i + 7 < |p| && Word(p[..i]) && p[i..i + 7] == " point " && Word(p[i + 7..])
  }

  const AND_A_HALF: string := "and a half"
  const AND_A_1_2: string := "and a 1/2"

  /** `X and a half` or `X and a 1/2`: the text `X` in front. */
  function HalfPrefix(p: string): Option<string>
  {
    if EndsWith(p, " " + AND_A_HALF) then Some(p[..|p| - |AND_A_HALF| - 1])
    else if EndsWith(p, " " + AND_A_1_2) then Some(p[..|p| - |AND_A_1_2| - 1])
    else None
  }

  predicate DigitDays(s: string) { UnitPrefix(s, "day").Some? && Digits(UnitPrefix(s, "day").value) }

  predicate WordDays(s: string) { UnitPrefix(s, "day").Some? && Word(UnitPrefix(s, "day").value) }

  predicate DigitWeeks(s: string)
  {
    match UnitPrefix(s, "week")
    case None => false
    case Some(p) => Digits(p) || DigitsAnyDigits(p) || (HalfPrefix(p).Some? && Digits(HalfPrefix(p).value))
  }

  predicate WordWeeks(s: string)
  {
    match UnitPrefix(s, "week")
    case None => false
    case Some(p) => Word(p) || WordPointWord(p) || (HalfPrefix(p).Some? && Word(HalfPrefix(p).value))
  }

  /** `s.substring(0, s.indexOf(p))`, where every caller has already seen `p` in `s`. */
  function Before(s: string, p: string): string
  {
    var k := IndexOf(s, p);
    if k < 0 then s else s[..k]
  }

  /** The number text of a rule: as written, or converted from English words. */
  function NumberText(w: string, worded: bool): Read<string>
  {
    if !worded then Read(w)
    else if Convertible(w) then Read(WordsToDecimal(w))
    else Fail(IndexOutOfRange)
  }

  function IntOf(t: Read<string>): Read<int>
  {
    match t
    case Fail(e) => Fail(e)
    case Read(x) => match ParseInt32(x) case Some(v) => Read(v) case None => Fail(BadNumber)
  }

  function RealOf(t: Read<string>): Read<real>
  {
    match t
    case Fail(e) => Fail(e)
    case Read(x) => match ParseDouble(x) case Some(v) => Read(v) case None => Fail(BadNumber)
  }

  /** `today.plusDays(n)` */
  function DaysFrom(today: int, days: Read<int>): ParseResult
  {
    match days
    case Read(n) => Date(DateAfterNumDays(today, n))
    case Fail(e) => Failure(e)
  }

  /** `Math.ceil(weeks + 3.5).toInt()` for `weeks = n * 7` in `Int` arithmetic. */
  function HalfWeeksDays(n: int): int
  {
    Clamp32(Wrap32(n * 7) + 4)
  }

  /** `Math.ceil(x * 7).toInt()` */
  function WeeksDays(x: real): int
  {
    Clamp32(Ceil(x * 7.0))
  }

  function DayCount(s: string, today: int, worded: bool): ParseResult
  {
    DaysFrom(today, IntOf(NumberText(Trim(Before(s, "day")), worded)))
  }

  function WeekCount(s: string, today: int, worded: bool): ParseResult
  {
    var num := Before(s, "week");
    if Contains(num, AND_A_HALF) || Contains(num, AND_A_1_2) then
      match IntOf(NumberText(Trim(Before(num, "and a")), worded))
      case Read(n) => Date(DateAfterNumDays(today, HalfWeeksDays(n)))
      case Fail(e) => Failure(e)
    else
      match RealOf(NumberText(Trim(num), worded))
      case Read(x) => Date(DateAfterNumDays(today, WeeksDays(x)))
      case Fail(e) => Failure(e)
  }

  /** The rules of step (1), in order; `None` when none applies. */
  function CountRule(s: string, today: int): Option<ParseResult>
  {
    if DigitDays(s) then Some(DayCount(s, today, false))
    else if WordDays(s) then Some(DayCount(s, today, true))
    else if DigitWeeks(s) then Some(WeekCount(s, today, false))
    else if WordWeeks(s) then Some(WeekCount(s, today, true))
    else if s == "half a week" || s == "1/2 a week" then Some(Date(DateAfterNumDays(today, 4)))
    else None
  }

  // ---------------------------------------------------------------------------
  // (2) Date templates

  /** Whether `a b` is an ordinal suffix: st, nd, rd or th. */
  predicate IsOrdinalSuffix(a: char, b: char)
  {
    (a == 's' && b == 't') || (a == 'n' && b == 'd') || (a == 'r' && b == 'd') || (a == 't' && b == 'h')
  }

  /**
   * `replace("(?<=\\d)(st|nd|rd|th)".toRegex(), "")` from index `i` on: a suffix is removed
   * where the character before it, in the original string, is a digit.
   */
  function StripOrdinalsFrom(s: string, i: nat): string
    decreases |s| - i
  {
    if i >= |s| then ""
    else if 0 < i && i + 1 < |s| && IsDigit(s[i - 1]) && IsOrdinalSuffix(s[i], s[i + 1]) then StripOrdinalsFrom(s, i + 2)
    else [s[i]] + StripOrdinalsFrom(s, i + 1)
  }

  function StripOrdinals(s: string): string
  {
    StripOrdinalsFrom(s, 0)
  }

  /** English month names as `SimpleDateFormat` matches them, ignoring case. */
  const FULL_MONTHS: seq<string> := ["january", "february", "march", "april", "may", "june", "july",
    "august", "september", "october", "november", "december"]
  const SHORT_MONTHS: seq<string> := ["jan", "feb", "mar", "apr", "may", "jun", "jul", "aug", "sep",
    "oct", "nov", "dec"]

  /** The month number (1..12) whose name is `w`, or 0. */
  function MonthNumber(names: seq<string>, w: string): (m: int)
    ensures 0 <= m <= |names|
    ensures m > 0 ==> names[m - 1] == w
    ensures m == 0 ==> w !in names
  {
    if names == [] then 0
    else if names[|names| - 1] == w && MonthNumber(names[..|names| - 1], w) == 0 then |names|
    else MonthNumber(names[..|names| - 1], w)
  }

  /**
   * The month number (1..12) that a "MMMM" or "MMM" field reads from the word `w`, or 0: either
   * pattern tries the full names first and then the short ones.
   */
  function MonthOf(w: string): (m: int)
    ensures 0 <= m <= 12
    ensures m > 0 ==> FULL_MONTHS[m - 1] == w || SHORT_MONTHS[m - 1] == w
    ensures m == 0 ==> w !in FULL_MONTHS && w !in SHORT_MONTHS
  {
    var full := MonthNumber(FULL_MONTHS, w);
    if full > 0 then full else MonthNumber(SHORT_MONTHS, w)
  }

  /** "MMMM dd yyyy": a month name, a day valid in that month of that year, a year from 1 on. */
  function MonthDayYear(t: string): Option<int>
  {
    var pieces := Split(t, " ");
    if |pieces| == 3 && Digits(pieces[1]) && Digits(pieces[2]) then
      var m := MonthOf(pieces[0]);
      var d := DigitsValue(pieces[1]);
      var y := DigitsValue(pieces[2]);
      if 1 <= m <= 12 && y >= 1 && 1 <= d <= DaysInMonth(y, m) then Some(InstantOf(y, m, d)) else None
    else None
  }

  /**
   * "MMMM dd" / "MMM dd": a month name and a day valid in that month of 1970 (the year the
   * format falls back to), then moved to the current year.
   */
  function MonthDay(t: string, currentYear: int): Option<int>
  {
    var pieces := Split(t, " ");
    if |pieces| == 2 && Digits(pieces[1]) then
      var m := MonthOf(pieces[0]);
      var d := DigitsValue(pieces[1]);
      if 1 <= m <= 12 && 1 <= d <= DaysInMonth(1970, m) then Some(InstantOf(currentYear, m, d)) else None
    else None
  }

  /** "dd": a day 1..31 of the current month and year; a day past the month's end rolls over. */
  function DayOnly(t: string, currentYear: int, currentMonth: int): Option<int>
    requires 1 <= currentMonth <= 12
  {
    if Digits(t) && 1 <= DigitsValue(t) <= 31 then Some(InstantOf(currentYear, currentMonth, DigitsValue(t))) else None
  }

  /** `dateFormats[count].parse(...)` followed by the year and month setters. */
  function TryTemplate(count: int, t: string, now: Civil): Option<int>
    requires 1 <= now.month <= 12
  {
    if count == 0 then MonthDayYear(t)
    else if count == 1 || count == 2 then MonthDay(t, now.year)
    else if count == 3 then DayOnly(t, now.year, now.month)
    else None
  }

  /** The templates from `count` on; the first that parses wins. */
  function Templates(t: string, now: Civil, count: nat): Option<int>
    requires 1 <= now.month <= 12
    decreases 4 - count
  {
    if count >= 4 then None
    else match TryTemplate(count, t, now)
      case Some(millis) => Some(millis)
      case None => Templates(t, now, count + 1)
  }

  // ---------------------------------------------------------------------------
  // (3) Date nouns and (4) weekday names

  /** `dayOfWeek().asText.toLowerCase()` for Monday (1) to Sunday (7), in English. */
  const DOW_NAMES: seq<string> := ["monday", "tuesday", "wednesday", "thursday", "friday", "saturday", "sunday"]

  /** The first index from `i` whose weekday name is `s`, or -1. */
  function WeekdayFrom(s: string, i: nat): (k: int)
    requires i <= |DOW_NAMES|
    ensures k == -1 || (i <= k < |DOW_NAMES| && DOW_NAMES[k] == s)
    ensures k == -1 <==> forall j :: i <= j < |DOW_NAMES| ==> DOW_NAMES[j] != s
    decreases |DOW_NAMES| - i
  {
    if i == |DOW_NAMES| then -1
    else if DOW_NAMES[i] == s then i
    else WeekdayFrom(s, i + 1)
  }

  function NounOrWeekday(s: string, nowMillis: int): ParseResult
  {
    var today := StartOfDay(nowMillis);
    if s == "today" then Date(today)
    else if s == "tomorrow" then Date(DateAfterNumDays(today, 1))
    else if s == "yesterday" then Date(DateAfterNumDays(today, -1))
    else
      var k := WeekdayFrom(s, 0);
      if k >= 0 then Date(FirstDayOfWeekFrom(k + 1, nowMillis)) else Failure(NotADate)
  }

  // ---------------------------------------------------------------------------
  // The whole parser

  /** Steps (1) to (4) on a cleaned phrase. */
  function ParseCleaned(s: string, nowMillis: int): ParseResult
  {
    match CountRule(s, StartOfDay(nowMillis))
    case Some(r) => r
    case None =>
      var now := DateOf(nowMillis);
      match Templates(StripOrdinals(s), now, 0)
      case Some(millis) => Date(millis)
      case None => NounOrWeekday(s, nowMillis)
  }

  /** What `parseDateFromString(dateString)` returns or throws when the clock reads `nowMillis`. */
  function ParseDate(dateString: string, nowMillis: int): ParseResult
  {
    ParseCleaned(Clean(dateString), nowMillis)
  }

  /** A day count: `today.plusDays(Integer.parseInt(...))` of the text before "day". */
  method ReadDays(dateString: string, today: int, worded: bool) returns (result: ParseResult)
    ensures result == DayCount(dateString, today, worded)
  {
    var num := Trim(Before(dateString, "day"));
    if worded {
      if !Convertible(num) {
        return Failure(IndexOutOfRange);
      }
      num := ConvertEnglishWordsToDecimal(num);
    }
    match ParseInt32(num) {
      case None => return Failure(BadNumber);
      case Some(n) => return Date(DateAfterNumDays(today, n));
    }
  }

  /** A week count: the whole-and-a-half form, or a decimal number of weeks rounded up to days. */
  method ReadWeeks(dateString: string, today: int, worded: bool) returns (result: ParseResult)
    ensures result == WeekCount(dateString, today, worded)
  {
    var num := Before(dateString, "week");
    if Contains(num, AND_A_HALF) || Contains(num, AND_A_1_2) {
      num := Trim(Before(num, "and a"));
      if worded {
        if !Convertible(num) {
          return Failure(IndexOutOfRange);
        }
        num := ConvertEnglishWordsToDecimal(num);
      }
      match ParseInt32(num) {
        case None => return Failure(BadNumber);
        case Some(n) =>
          var weeks := Wrap32(n * 7);
          return Date(DateAfterNumDays(today, Clamp32(weeks + 4)));
      }
    }
    num := Trim(num);
    if worded {
      if !Convertible(num) {
        return Failure(IndexOutOfRange);
      }
      num := ConvertEnglishWordsToDecimal(num);
    }
    match ParseDouble(num) {
      case None => return Failure(BadNumber);
      case Some(x) => return Date(DateAfterNumDays(today, WeeksDays(x)));
    }
  }

  /** Step (1): the count rules in source order; `None` when none applies. */
  method ReadCount(dateString: string, today: int) returns (result: Option<ParseResult>)
    ensures result == CountRule(dateString, today)
  {
    if DigitDays(dateString) {
      var r := ReadDays(dateString, today, false);
      return Some(r);
    }
    if WordDays(dateString) {
      var r := ReadDays(dateString, today, true);
      return Some(r);
    }
    if DigitWeeks(dateString) {
      var r := ReadWeeks(dateString, today, false);
      return Some(r);
    }
    if WordWeeks(dateString) {
      var r := ReadWeeks(dateString, today, true);
      return Some(r);
    }
    if dateString == "half a week" || dateString == "1/2 a week" {
      return Some(Date(DateAfterNumDays(today, 4)));
    }
    return None;
  }

  /** Step (2): the `while (true)` loop that retries with the next template after each failure. */
  method ReadTemplates(stripped: string, now: Civil) returns (result: Option<int>)
    requires 1 <= now.month <= 12
    ensures result == Templates(stripped, now, 0)
  {
    var count := 0;
    while true
      invariant 0 <= count < 4
      invariant Templates(stripped, now, 0) == Templates(stripped, now, count)
      decreases 4 - count
    {
      var date := TryTemplate(count, stripped, now);
      if date.Some? {
        return date;
      }
      count := count + 1;
      if count == 4 {
        break;
      }
    }
    return None;
  }

  /** Steps (3) and (4): the date nouns, then the loop over the weekdays. */
  method ReadNounOrWeekday(dateString: string, nowMillis: int) returns (result: ParseResult)
    ensures result == NounOrWeekday(dateString, nowMillis)
  {
    var today := StartOfDay(nowMillis);
    if dateString == "today" {
      return Date(today);
    } else if dateString == "tomorrow" {
      return Date(DateAfterNumDays(today, 1));
    } else if dateString == "yesterday" {
      return Date(DateAfterNumDays(today, -1));
    }
    for i := 0 to |DOW_NAMES|
      invariant WeekdayFrom(dateString, 0) == WeekdayFrom(dateString, i)
    {
      if dateString == DOW_NAMES[i] {
        return Date(FirstDayOfWeekFrom(i + 1, nowMillis));
      }
    }
    return Failure(NotADate);
  }

  /** `parseDateFromString`: `dateString` is reassigned while cleaning, then each step is tried. */
  method ParseDateFromString(input: string, nowMillis: int) returns (result: ParseResult)
    ensures result == ParseDate(input, nowMillis)
  {
    var dateString := input;
    var today := StartOfDay(nowMillis);

    // (0)
    dateString := Lower(dateString);
    if StartsWith(dateString, EXPIRES) {
      dateString := dateString[|EXPIRES|..];
    }
    if StartsWith(dateString, ON) {
      dateString := dateString[|ON|..];
    }
    if StartsWith(dateString, IN) {
      dateString := dateString[|IN|..];
    }
    if StartsWith(dateString, THE) {
      dateString := dateString[|THE|..];
    }
    assert dateString == Clean(input);

    // (1)
    var counted := ReadCount(dateString, today);
    if counted.Some? {
      return counted.value;
    }

    // (2)
    var now := DateOf(nowMillis);
    var date := ReadTemplates(StripOrdinals(dateString), now);
    if date.Some? {
      return Date(date.value);
    }

    // (3), (4)
    result := ReadNounOrWeekday(dateString, nowMillis);
  }
}
