/**
 * `DateUtils.formatDate`: a date printed as `[DOW, ][MONTH ]DAY[, YEAR]`, the parts chosen by
 * three optional format components, with the English day and month names.
 */
module DateFormat {
  import opened Common
  import opened Text
  import opened Calendar

  /** `DateFormatComponents` */
  datatype Component = ShortDow | FullDow | ShortMonth | FullMonth | ShortYear | FullYear

  /** A `String`, or the `IllegalArgumentException` naming the parameter that got a component of the wrong kind. */
  datatype Formatted = Text(text: string) | BadArgument(parameter: string)

  const DOW_NAMES: seq<string> := ["Monday", "Tuesday", "Wednesday", "Thursday", "Friday", "Saturday", "Sunday"]
  const DOW_SHORT_NAMES: seq<string> := ["Mon", "Tue", "Wed", "Thu", "Fri", "Sat", "Sun"]
  const MONTH_NAMES: seq<string> := ["January", "February", "March", "April", "May", "June", "July",
    "August", "September", "October", "November", "December"]
  const MONTH_SHORT_NAMES: seq<string> := ["Jan", "Feb", "Mar", "Apr", "May", "Jun", "Jul", "Aug", "Sep",
    "Oct", "Nov", "Dec"]

  /** The elements a `DateTimeFormatterBuilder` is given. */
  datatype Element =
    | DayOfWeekShortText
    | DayOfWeekText
    | MonthOfYearShortText
    | MonthOfYearText
    | Literal(text: string)
    | DayOfMonth(minDigits: nat)
    | Year(minDigits: nat)

  function Zeros(n: nat): (r: string)
    ensures |r| == n && forall i :: 0 <= i < n ==> r[i] == '0'
  {
    if n == 0 then "" else Zeros(n - 1) + "0"
  }

  /** A decimal rendering padded with leading zeros to at least `minDigits` digits, the sign in front. */
  function PaddedInt(v: int, minDigits: nat): string
  {
    var digits := NatToString(if v < 0 then -v else v);
    var padded := (if |digits| < minDigits then Zeros(minDigits - |digits|) else "") + digits;
    if v < 0 then "-" + padded else padded
  }

  /** What one element prints for the date `c` falling on day of the week `dow`. */
  function PrintElement(e: Element, c: Civil, dow: int): string
    requires 1 <= c.month <= 12 && 1 <= dow <= 7
  {
    match e
    case DayOfWeekShortText => DOW_SHORT_NAMES[dow - 1]
    case DayOfWeekText => DOW_NAMES[dow - 1]
    case MonthOfYearShortText => MONTH_SHORT_NAMES[c.month - 1]
    case MonthOfYearText => MONTH_NAMES[c.month - 1]
    case Literal(t) => t
    case DayOfMonth(n) => PaddedInt(c.day, n)
    case Year(n) => PaddedInt(c.year, n)
  }

  /** `DateTimeFormatter.print`: the elements' texts, in order. */
  function Print(elements: seq<Element>, c: Civil, dow: int): string
    requires 1 <= c.month <= 12 && 1 <= dow <= 7
  {
    if elements == [] then ""
    else Print(elements[..|elements| - 1], c, dow) + PrintElement(elements[|elements| - 1], c, dow)
  }

  lemma PrintAppend(elements: seq<Element>, e: Element, c: Civil, dow: int)
    requires 1 <= c.month <= 12 && 1 <= dow <= 7
    ensures Print(elements + [e], c, dow) == Print(elements, c, dow) + PrintElement(e, c, dow)
  {
    assert (elements + [e])[..|elements|] == elements;
  }

  lemma PrintAppendPair(elements: seq<Element>, e1: Element, e2: Element, c: Civil, dow: int)
    requires 1 <= c.month <= 12 && 1 <= dow <= 7
    ensures Print(elements + [e1, e2], c, dow) == Print(elements, c, dow) + (PrintElement(e1, c, dow) + PrintElement(e2, c, dow))
  {
    var p1 := PrintElement(e1, c, dow);
    var p2 := PrintElement(e2, c, dow);
    PrintAppend(elements, e1, c, dow);
    assert elements + [e1, e2] == (elements + [e1]) + [e2];
    PrintAppend(elements + [e1], e2, c, dow);
    Associative(Print(elements, c, dow), p1, p2);
  }

  /** A positive number padded to one digit is its plain decimal rendering. */
  lemma PaddedPositive(v: int)
    requires v >= 1
    ensures PaddedInt(v, 1) == NatToString(v)
  {
  }

  // ---------------------------------------------------------------------------
  // The layout, as the documentation describes it

  function DowPart(part: Option<Component>, dow: int): string
    requires 1 <= dow <= 7
  {
    match part
    case Some(ShortDow) => DOW_SHORT_NAMES[dow - 1] + ", "
    case Some(FullDow) => DOW_NAMES[dow - 1] + ", "
    case _ => ""
  }

  function MonthPart(part: Option<Component>, month: int): string
    requires 1 <= month <= 12
  {
    match part
    case Some(ShortMonth) => MONTH_SHORT_NAMES[month - 1] + " "
    case Some(FullMonth) => MONTH_NAMES[month - 1] + " "
    case _ => ""
  }

  function YearPart(part: Option<Component>, year: int): string
  {
    match part
    case Some(ShortYear) => ", " + PaddedInt(year, 2)
    case Some(FullYear) => ", " + PaddedInt(year, 4)
    case _ => ""
  }

  predicate DowAllowed(c: Option<Component>) { c == None || c == Some(ShortDow) || c == Some(FullDow) }
  predicate MonthAllowed(c: Option<Component>) { c == None || c == Some(ShortMonth) || c == Some(FullMonth) }
  predicate YearAllowed(c: Option<Component>) { c == None || c == Some(ShortYear) || c == Some(FullYear) }

  /**
   * The result of `formatDate(date, includeDow, includeMonth, includeYear)`: the first argument
   * of the wrong kind is reported; otherwise the day-of-week text and ", ", the month text and
   * a space, the day of the month unpadded, and ", " and the year.
   */
  function FormatDateSpec(date: int, includeDow: Option<Component>, includeMonth: Option<Component>,
                          includeYear: Option<Component>): Formatted
  {
    var c := DateOf(date);
    if !DowAllowed(includeDow) then BadArgument("includeDow")
    else if !MonthAllowed(includeMonth) then BadArgument("includeMonth")
    else if !YearAllowed(includeYear) then BadArgument("includeYear")
    else Text(DowPart(includeDow, DayOfWeek(DayIndex(date))) + MonthPart(includeMonth, c.month)
              + NatToString(c.day) + YearPart(includeYear, c.year))
  }

  /** The first `when` of `formatDate`: the day-of-week text and ", ", or nothing; `false` for a wrong kind. */
  method AppendDow(builder: seq<Element>, includeDow: Option<Component>, c: Civil, dow: int)
    returns (b: seq<Element>, ok: bool)
    requires 1 <= c.month <= 12 && 1 <= dow <= 7
    ensures ok == DowAllowed(includeDow)
    ensures ok ==> Print(b, c, dow) == Print(builder, c, dow) + DowPart(includeDow, dow)
  {
    b := builder;
    match includeDow {
      case Some(ShortDow) =>
        PrintAppendPair(b, DayOfWeekShortText, Literal(", "), c, dow);
        b := b + [DayOfWeekShortText, Literal(", ")];
      case Some(FullDow) =>
        PrintAppendPair(b, DayOfWeekText, Literal(", "), c, dow);
        b := b + [DayOfWeekText, Literal(", ")];
      case None =>
      case _ => return b, false;
    }
    ok := true;
  }

  /** The second `when`: the month text and a space, or nothing; `false` for a wrong kind. */
  method AppendMonth(builder: seq<Element>, includeMonth: Option<Component>, c: Civil, dow: int)
    returns (b: seq<Element>, ok: bool)
    requires 1 <= c.month <= 12 && 1 <= dow <= 7
    ensures ok == MonthAllowed(includeMonth)
    ensures ok ==> Print(b, c, dow) == Print(builder, c, dow) + MonthPart(includeMonth, c.month)
  {
    b := builder;
    match includeMonth {
      case Some(ShortMonth) =>
        PrintAppendPair(b, MonthOfYearShortText, Literal(" "), c, dow);
        MonthElements(c, dow);
        b := b + [MonthOfYearShortText, Literal(" ")];
      case Some(FullMonth) =>
        PrintAppendPair(b, MonthOfYearText, Literal(" "), c, dow);
        MonthElements(c, dow);
        b := b + [MonthOfYearText, Literal(" ")];
      case None =>
      case _ => return b, false;
    }
    ok := true;
  }

  lemma MonthElements(c: Civil, dow: int)
    requires 1 <= c.month <= 12 && 1 <= dow <= 7
    ensures PrintElement(MonthOfYearShortText, c, dow) + PrintElement(Literal(" "), c, dow) == MonthPart(Some(ShortMonth), c.month)
    ensures PrintElement(MonthOfYearText, c, dow) + PrintElement(Literal(" "), c, dow) == MonthPart(Some(FullMonth), c.month)
  {
  }

  /** The third `when`: ", " and the year, or nothing; `false` for a wrong kind. */
  method AppendYear(builder: seq<Element>, includeYear: Option<Component>, c: Civil, dow: int)
    returns (b: seq<Element>, ok: bool)
    requires 1 <= c.month <= 12 && 1 <= dow <= 7
    ensures ok == YearAllowed(includeYear)
    ensures ok ==> Print(b, c, dow) == Print(builder, c, dow) + YearPart(includeYear, c.year)
  {
    b := builder;
    match includeYear {
      case Some(ShortYear) =>
        PrintAppendPair(b, Literal(", "), Year(2), c, dow);
        b := b + [Literal(", "), Year(2)];
      case Some(FullYear) =>
        PrintAppendPair(b, Literal(", "), Year(4), c, dow);
        b := b + [Literal(", "), Year(4)];
      case None =>
      case _ => return b, false;
    }
    ok := true;
  }

  /** `formatDate`: the builder is filled part by part and then prints the date. */
  method FormatDate(date: int, includeDow: Option<Component>, includeMonth: Option<Component>,
                    includeYear: Option<Component>) returns (r: Formatted)
    ensures r == FormatDateSpec(date, includeDow, includeMonth, includeYear)
  {
    var c := DateOf(date);
    var dow := DayOfWeek(DayIndex(date));
    CivilOfValid(DayIndex(date));
    var builder: seq<Element> := [];
    var ok;
    builder, ok := AppendDow(builder, includeDow, c, dow);
    if !ok {
      return BadArgument("includeDow");
    }
    assert Print(builder, c, dow) == DowPart(includeDow, dow);
    builder, ok := AppendMonth(builder, includeMonth, c, dow);
    if !ok {
      return BadArgument("includeMonth");
    }
    ghost var text := DowPart(includeDow, dow) + MonthPart(includeMonth, c.month);
    assert Print(builder, c, dow) == text;
    PrintAppend(builder, DayOfMonth(1), c, dow);
    PaddedPositive(c.day);
    builder := builder + [DayOfMonth(1)];
    text := text + NatToString(c.day);
    assert Print(builder, c, dow) == text;
    builder, ok := AppendYear(builder, includeYear, c, dow);
    if !ok {
      return BadArgument("includeYear");
    }
    text := text + YearPart(includeYear, c.year);
    assert Print(builder, c, dow) == text;
    r := Text(Print(builder, c, dow));
  }

  // ---------------------------------------------------------------------------
  // Properties

  /** An argument of the wrong kind is rejected, and only then. */
  lemma FormatDateRejects(date: int, includeDow: Option<Component>, includeMonth: Option<Component>,
                          includeYear: Option<Component>)
    ensures FormatDateSpec(date, includeDow, includeMonth, includeYear).BadArgument? <==>
      !DowAllowed(includeDow) || !MonthAllowed(includeMonth) || !YearAllowed(includeYear)
    ensures !DowAllowed(includeDow) ==> FormatDateSpec(date, includeDow, includeMonth, includeYear) == BadArgument("includeDow")
  {
  }

  /** With no component the text is the day of the month alone, unpadded; it reads back as a valid day. */
  lemma FormatDateDayOnly(date: int)
    ensures var r := FormatDateSpec(date, None, None, None);
      && r.Text?
      && r.text == NatToString(DateOf(date).day)
      && (|r.text| > 1 ==> r.text[0] != '0')
      && ParseInt(r.text) == Some(DateOf(date).day)
      && 1 <= DateOf(date).day <= DaysInMonth(DateOf(date).year, DateOf(date).month)
  {
    CivilOfValid(DayIndex(date));
    ParseIntToString(DateOf(date).day);
  }

  /** With every part, the text is the weekday, ", ", the month, a space, the day, ", " and the year. */
  lemma FormatDateFull(date: int)
    ensures var c := DateOf(date);
      FormatDateSpec(date, Some(FullDow), Some(FullMonth), Some(FullYear)) ==
        Text(DOW_NAMES[DayOfWeek(DayIndex(date)) - 1] + ", " + MONTH_NAMES[c.month - 1] + " "
             + NatToString(c.day) + ", " + PaddedInt(c.year, 4))
  {
    var c := DateOf(date);
    var dow := DayOfWeek(DayIndex(date));
    FullParts(dow, c.month, c.year);
    var name, month, day, year := DOW_NAMES[dow - 1], MONTH_NAMES[c.month - 1], NatToString(c.day), PaddedInt(c.year, 4);
    assert (name + ", ") + (month + " ") + day + (", " + year) == name + ", " + month + " " + day + ", " + year;
  }

  lemma FullParts(dow: int, month: int, year: int)
    requires 1 <= dow <= 7 && 1 <= month <= 12
    ensures DowPart(Some(FullDow), dow) == DOW_NAMES[dow - 1] + ", "
    ensures MonthPart(Some(FullMonth), month) == MONTH_NAMES[month - 1] + " "
    ensures YearPart(Some(FullYear), year) == ", " + PaddedInt(year, 4)
  {
  }

  /** A year is printed with at least the minimum number of digits and never cut short. */
  lemma PaddedIntSpec(v: int, minDigits: nat)
    ensures var s := PaddedInt(v, minDigits);
      var digits := if v < 0 then s[1..] else s;
      && (v < 0 <==> |s| > 0 && s[0] == '-')
      && |digits| >= minDigits
      && AllDigits(digits)
      && DigitsValue(digits) == (if v < 0 then -v else v)
  {
    var n := if v < 0 then -v else v;
    var digits := NatToString(n);
    NatToStringValue(n);
    var z := if |digits| < minDigits then Zeros(minDigits - |digits|) else "";
    ZerosValue(z, digits);
  }

  lemma {:induction false} ZerosValue(z: string, digits: string)
    requires forall i :: 0 <= i < |z| ==> z[i] == '0'
    requires AllDigits(digits)
    ensures AllDigits(z + digits) && DigitsValue(z + digits) == DigitsValue(digits)
    decreases |z|
  {
    if z != [] {
      ZerosValue(z[1..], digits);
      DigitsValueLeadingZero(z[1..] + digits);
      assert z == "0" + z[1..];
      assert z + digits == "0" + (z[1..] + digits);
    } else {
      assert z + digits == digits;
    }
  }

  lemma {:induction false} DigitsValueLeadingZero(s: string)
    requires AllDigits(s)
    ensures AllDigits("0" + s) && DigitsValue("0" + s) == DigitsValue(s)
    decreases |s|
  {
    if s != [] {
      DigitsValueLeadingZero(s[..|s| - 1]);
      assert ("0" + s)[..|s|] == "0" + s[..|s| - 1];
    }
  }
}
