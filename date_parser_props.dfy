/**
 * Properties of `parseDateFromString` (module `DateParser`): which phrases resolve to
 * which dates, in the words of the rules they go through.
 */
module ParserProperties {
  import opened Common
  import opened Text
  import opened NumberWords
  import opened Calendar
  import opened DateParser

  // ---------------------------------------------------------------------------
  // String facts the rules rely on

  predicate NoCapitals(s: string) { forall i :: 0 <= i < |s| ==> !('A' <= s[i] <= 'Z') }

  lemma LowerNoCapitals(s: string)
    requires NoCapitals(s)
    ensures Lower(s) == s
  {
    assert forall i :: 0 <= i < |s| ==> Lower(s)[i] == s[i];
  }

  lemma LowerCapital(c: char, rest: string)
    requires NoCapitals(rest)
    ensures Lower([c] + rest) == [LowerChar(c)] + rest
  {
    LowerAppend([c], rest);
    LowerNoCapitals(rest);
  }

  /** The phrase begins with none of the words the parser removes. */
  predicate NoLeadingWord(s: string)
  {
    !StartsWith(s, EXPIRES) && !StartsWith(s, ON) && !StartsWith(s, IN) && !StartsWith(s, THE)
  }

  lemma CleanKeeps(s: string)
    requires NoCapitals(s) && NoLeadingWord(s)
    ensures Clean(s) == s
  {
    LowerNoCapitals(s);
  }

  /** A string that starts with `w` does not start with a word whose first letter differs. */
  lemma StartsOther(s: string, w: string, p: string)
    requires StartsWith(s, w) && w != [] && p != [] && w[0] != p[0]
    ensures !StartsWith(s, p)
  {
    assert s[..|w|][0] == s[0];
  }

  /** A phrase whose first character starts none of the removed words keeps its front. */
  lemma OtherLeads(s: string)
    requires s != [] && s[0] != 'e' && s[0] != 'o' && s[0] != 'i' && s[0] != 't'
    ensures NoLeadingWord(s)
  {
    StartsOther(s, s[..1], EXPIRES);
    StartsOther(s, s[..1], ON);
    StartsOther(s, s[..1], IN);
    StartsOther(s, s[..1], THE);
  }

  lemma EndsWithAt(s: string, p: string, k: int)
    requires EndsWith(s, p) && 1 <= k <= |p|
    ensures s[|s| - k] == p[|p| - k]
  {
    assert s[|s| - |p|..][|p| - k] == s[|s| - k];
  }

  /**
   * `p`, which holds no space, is found right after `x` and a space when `x` does not
   * contain it.
   */
  lemma IndexPastSpace(x: string, p: string, r: string)
    requires p != [] && !Contains(x, p) && forall i :: 0 <= i < |p| ==> p[i] != ' '
    ensures IndexOf(x + " " + p + r, p) == |x| + 1
  {
    var s := x + " " + p + r;
    assert s[|x| + 1..|x| + 1 + |p|] == p;
    OccursAtContains(s, p, |x| + 1);
    forall j | 0 <= j <= |x| && j + |p| <= |s| ensures !OccursAt(s, p, j) {
      if j + |p| <= |x| {
        assert s[j..j + |p|] == x[j..j + |p|];
        assert !OccursAt(x, p, j);
      } else {
        assert s[j..j + |p|][|x| - j] == ' ';
      }
    }
  }

  /** `p` is found right after `x` and a space when neither holds the first character of `p`. */
  lemma IndexPastFirst(x: string, p: string, r: string)
    requires p != [] && p[0] != ' ' && forall i :: 0 <= i < |x| ==> x[i] != p[0]
    ensures IndexOf(x + " " + p + r, p) == |x| + 1
  {
    var s := x + " " + p + r;
    assert s[|x| + 1..|x| + 1 + |p|] == p;
    OccursAtContains(s, p, |x| + 1);
    var k := IndexOf(s, p);
    assert s[k..k + |p|][0] == s[k];
  }

  /** A trailing space is trimmed away from text whose ends are kept characters. */
  lemma TrimSpaceAfter(x: string)
    requires x != [] && !IsTrimmed(x[0]) && !IsTrimmed(x[|x| - 1])
    ensures Trim(x + " ") == x && Trim(x) == x
  {
    var s := x + " ";
    assert s[0] == x[0];
    assert s[..|s| - 1] == x;
    assert TrimStart(s) == s;
    assert TrimStart(x) == x;
    TrimUnchanged(x);
  }

  // ---------------------------------------------------------------------------
  // (0) Leading words

  /** The removed words, each present or not, in the order the parser removes them. */
  function Leading(withExpires: bool, withOn: bool, withIn: bool, withThe: bool): string
  {
    (if withExpires then EXPIRES else "") + ((if withOn then ON else "") + ((if withIn then IN else "") + (if withThe then THE else "")))
  }

  lemma DropPresent(w: string, rest: string)
    ensures DropPrefix(w + rest, w) == rest
  {
    assert (w + rest)[..|w|] == w;
  }

  /**
   * A phrase whose lower-cased form starts with any selection of "expires ", "on ", "in "
   * and "the ", in that order, is cleaned to the lower-cased rest, provided the rest starts
   * with none of them.
   */
  lemma CleanLeading(pre: string, t: string, withExpires: bool, withOn: bool, withIn: bool, withThe: bool)
    requires Lower(pre) == Leading(withExpires, withOn, withIn, withThe)
    requires NoLeadingWord(Lower(t))
    ensures Clean(pre + t) == Lower(t)
  {
    var r0 := Lower(t);
    var r3 := (if withThe then THE else "") + r0;
    var r2 := (if withIn then IN else "") + r3;
    var r1 := (if withOn then ON else "") + r2;
    var r := (if withExpires then EXPIRES else "") + r1;
    LowerAppend(pre, t);
    assert Lower(pre + t) == r by {
      var a, b, c, d := (if withExpires then EXPIRES else ""), (if withOn then ON else ""), (if withIn then IN else ""), (if withThe then THE else "");
      Associative(c, d, r0);
      Associative(b, c + d, r0);
      Associative(b, c, d + r0);
      Associative(a, b + (c + d), r0);
    }
    // each remainder starts with the next present word, or is the rest itself
    assert r3 == r0 || StartsWith(r3, THE);
    assert r2 == r3 || StartsWith(r2, IN);
    assert r1 == r2 || StartsWith(r1, ON);
    if withExpires { DropPresent(EXPIRES, r1); }
    else if r1 != r0 {
      if r1 != r2 { StartsOther(r1, ON, EXPIRES); }
      else if r2 != r3 { StartsOther(r1, IN, EXPIRES); }
      else { StartsOther(r1, THE, EXPIRES); }
    }
    assert DropPrefix(r, EXPIRES) == r1;
    if withOn { DropPresent(ON, r2); }
    else if r2 != r0 {
      if r2 != r3 { StartsOther(r2, IN, ON); }
      else { StartsOther(r2, THE, ON); }
    }
    assert DropPrefix(r1, ON) == r2;
    if withIn { DropPresent(IN, r3); }
    else if r3 != r0 { StartsOther(r3, THE, IN); }
    assert DropPrefix(r2, IN) == r3;
    if withThe { DropPresent(THE, r0); }
  }

  /** Such leading words do not change what the phrase resolves to. */
  lemma LeadingWordsIgnored(pre: string, t: string, nowMillis: int,
                            withExpires: bool, withOn: bool, withIn: bool, withThe: bool)
    requires Lower(pre) == Leading(withExpires, withOn, withIn, withThe)
    requires NoLeadingWord(Lower(t))
    ensures ParseDate(pre + t, nowMillis) == ParseDate(t, nowMillis)
  {
    CleanLeading(pre, t, withExpires, withOn, withIn, withThe);
    CleanLeading("", t, false, false, false, false);
    assert "" + t == t;
  }

  // ---------------------------------------------------------------------------
  // (1) Units

  /** A string does not end with `p` when the characters `k` from the end differ. */
  lemma NotEndsWith(s: string, p: string, k: int)
    requires 1 <= k <= |p| && k <= |s| && s[|s| - k] != p[|p| - k]
    ensures !EndsWith(s, p)
  {
    assert |p| > |s| || s[|s| - |p|..][|p| - k] == s[|s| - k];
  }

  lemma EndsWithSuffix(x: string, unit: string)
    ensures EndsWith(x + unit, unit) && (x + unit)[..|x|] == x
  {
    assert (x + unit)[|x + unit| - |unit|..] == unit;
  }

  /** The unit suffixes `UnitPrefix` looks for. */
  lemma UnitSuffixes()
    ensures " " + "day" == " day" && " " + "day" + "s" == " days"
    ensures " " + "week" == " week" && " " + "week" + "s" == " weeks"
  {
  }

  /** "X day" and "X days" have the day unit, with `X` in front, and not the week unit. */
  lemma DayUnit(x: string, unit: string)
    requires unit == " day" || unit == " days"
    ensures UnitPrefix(x + unit, "day") == Some(x)
    ensures UnitPrefix(x + unit, "week") == None
    ensures x + unit != "half a week" && x + unit != "1/2 a week"
  {
    UnitSuffixes();
    if unit == " day" {
      SingleDay(x);
    } else {
      PluralDays(x);
    }
  }

  lemma SingleDay(x: string)
    ensures UnitPrefix(x + " day", "day") == Some(x)
    ensures UnitPrefix(x + " day", "week") == None
    ensures x + " day" != "half a week" && x + " day" != "1/2 a week"
  {
    var s := x + " day";
    UnitSuffixes();
    EndsWithSuffix(x, " day");
    assert s[|s| - 1] == 'y';
    NotEndsWith(s, " week", 1);
    NotEndsWith(s, " weeks", 1);
    assert "half a week"[10] == 'k' && "1/2 a week"[9] == 'k';
  }

  lemma PluralDays(x: string)
    ensures UnitPrefix(x + " days", "day") == Some(x)
    ensures UnitPrefix(x + " days", "week") == None
    ensures x + " days" != "half a week" && x + " days" != "1/2 a week"
  {
    var s := x + " days";
    UnitSuffixes();
    EndsWithSuffix(x, " days");
    assert s[|s| - 1] == 's' && s[|s| - 2] == 'y';
    NotEndsWith(s, " day", 1);
    NotEndsWith(s, " week", 1);
    NotEndsWith(s, " weeks", 2);
    assert "half a week"[10] == 'k' && "1/2 a week"[9] == 'k';
  }

  /** "X week" and "X weeks" have the week unit, with `X` in front, and not the day unit. */
  lemma WeekUnit(x: string, unit: string)
    requires unit == " week" || unit == " weeks"
    ensures UnitPrefix(x + unit, "week") == Some(x)
    ensures UnitPrefix(x + unit, "day") == None
  {
    UnitSuffixes();
    if unit == " week" {
      SingleWeek(x);
    } else {
      PluralWeeks(x);
    }
  }

  lemma SingleWeek(x: string)
    ensures UnitPrefix(x + " week", "week") == Some(x)
    ensures UnitPrefix(x + " week", "day") == None
  {
    var s := x + " week";
    UnitSuffixes();
    EndsWithSuffix(x, " week");
    assert s[|s| - 1] == 'k';
    NotEndsWith(s, " day", 1);
    NotEndsWith(s, " days", 1);
  }

  lemma PluralWeeks(x: string)
    ensures UnitPrefix(x + " weeks", "week") == Some(x)
    ensures UnitPrefix(x + " weeks", "day") == None
  {
    var s := x + " weeks";
    UnitSuffixes();
    EndsWithSuffix(x, " weeks");
    assert s[|s| - 1] == 's' && s[|s| - 2] == 'k';
    NotEndsWith(s, " week", 1);
    NotEndsWith(s, " day", 1);
    NotEndsWith(s, " days", 2);
  }

  /**
   * A phrase that is a count is decided by the count rules alone. A proof step that unfolds
   * the dispatch for the rule and phrase lemmas, not a property of its own.
   */
  lemma CountDecides(s: string, nowMillis: int)
    requires CountRule(s, StartOfDay(nowMillis)).Some?
    ensures ParseCleaned(s, nowMillis) == CountRule(s, StartOfDay(nowMillis)).value
  {
  }

  // ---------------------------------------------------------------------------
  // (1) Day counts

  lemma DigitsAreWord(x: string)
    requires Digits(x)
    ensures Word(x)
  {
  }

  /**
   * "X day(s)", for an `X` without "day" in it, is a digit count when `X` is digits, a worded
   * count when `X` is one `\w` word, and no count at all otherwise.
   */
  lemma DaysRule(x: string, unit: string, today: int)
    requires unit == " day" || unit == " days"
    requires !Contains(x, "day")
    ensures CountRule(x + unit, today) ==
      if Digits(x) then Some(DaysFrom(today, IntOf(Read(x))))
      else if Word(x) then Some(DaysFrom(today, IntOf(NumberText(x, true))))
      else None
  {
    DayUnit(x, unit);
    if Word(x) {
      DayNumberText(x, unit);
      assert DayCount(x + unit, today, Word(x) && !Digits(x)) == DaysFrom(today, IntOf(NumberText(x, !Digits(x))));
    }
  }

  /** The number text of "X day(s)" is `X` when `X` is one word without "day". */
  lemma DayNumberText(x: string, unit: string)
    requires unit == " day" || unit == " days"
    requires !Contains(x, "day") && Word(x)
    ensures Trim(Before(x + unit, "day")) == x
  {
    assert x + unit == x + " " + "day" + unit[4..];
    IndexPastSpace(x, "day", unit[4..]);
    assert (x + unit)[..|x| + 1] == x + " ";
    TrimSpaceAfter(x);
  }

  lemma DigitsNoLetters(ds: string, p: string)
    requires AllDigits(ds) && p != [] && !IsDigit(p[0])
    ensures !Contains(ds, p) && forall i :: 0 <= i < |ds| ==> ds[i] != p[0]
  {
    FirstCharAbsent(ds, p);
  }

  /** A phrase led by digits, with no capital after them, is kept by the cleaning. */
  lemma CleanDigitsLed(ds: string, rest: string)
    requires Digits(ds) && NoCapitals(rest)
    ensures Clean(ds + rest) == ds + rest
  {
    var s := ds + rest;
    assert s[0] == ds[0];
    forall i | 0 <= i < |s|
      ensures !('A' <= s[i] <= 'Z')
    {
      if i < |ds| {
        assert s[i] == ds[i];
      } else {
        assert s[i] == rest[i - |ds|];
      }
    }
    OtherLeads(s);
    CleanKeeps(s);
  }

  lemma UnitsLower(unit: string)
    requires unit == " day" || unit == " days" || unit == " week" || unit == " weeks"
    ensures NoCapitals(unit)
  {
  }

  lemma HalfUnitsLower(half: string, unit: string)
    requires half == " " + AND_A_HALF || half == " " + AND_A_1_2
    requires unit == " week" || unit == " weeks"
    ensures NoCapitals(half + unit)
  {
    var t := half + unit;
    forall i | 0 <= i < |t|
      ensures !('A' <= t[i] <= 'Z')
    {
      if i < |half| {
        assert t[i] == half[i];
      } else {
        assert t[i] == unit[i - |half|];
      }
    }
  }

  /** "n day(s)": today's midnight moved `n` days on; a count beyond `Int` fails to parse. */
  lemma DigitDaysPhrase(n: nat, unit: string, nowMillis: int)
    requires unit == " day" || unit == " days"
    ensures ParseDate(NatToString(n) + unit, nowMillis) ==
      if n <= INT_MAX then Date(DateAfterNumDays(StartOfDay(nowMillis), n)) else Failure(BadNumber)
  {
    var ds := NatToString(n);
    var s := ds + unit;
    DigitsNoLetters(ds, "day");
    UnitsLower(unit);
    CleanDigitsLed(ds, unit);
    DaysRule(ds, unit, StartOfDay(nowMillis));
    ParseIntToString(n);
  }

  lemma TenDaysText()
    ensures "Ten days" == ['T'] + "en days" && "ten days" == [LowerChar('T')] + "en days"
    ensures NoCapitals("en days") && NoLeadingWord("ten days")
  {
    NoLeadingT("ten days");
  }

  lemma CleanTenDays()
    ensures Clean("Ten days") == "ten days"
  {
    TenDaysText();
    CleanCapitalisedAs("Ten days", "ten days", 'T', "en days");
  }

  lemma TenNumber()
    ensures IntOf(NumberText("ten", true)) == Read(10)
  {
    ExampleTen();
    TenDigits();
    IntOfWords("ten", "0010");
  }

  lemma TenDigits()
    ensures Digits("0010") && DigitsValue("0010") == 10
  {
    assert "0010"[..3] == "001" && "001"[..2] == "00" && "00"[..1] == "0";
  }

  /** A worded number converted to digits within `Int` range reads as their value. */
  lemma IntOfWords(w: string, t: string)
    requires Convertible(w) && WordsToDecimal(w) == t && Digits(t) && DigitsValue(t) <= INT_MAX
    ensures IntOf(NumberText(w, true)) == Read(DigitsValue(t))
  {
    assert IsDigit(t[0]);
    assert ParseInt(t) == Some(DigitsValue(t));
    assert ParseInt32(t) == Some(DigitsValue(t));
  }

  /** A worded number converted to digits reads as the real of their value. */
  lemma RealOfWords(w: string, t: string)
    requires Convertible(w) && WordsToDecimal(w) == t && Digits(t)
    ensures RealOf(NumberText(w, true)) == Read(DigitsValue(t) as real)
  {
    ParseDoubleDigits(t);
  }

  lemma TenDaysCount(today: int)
    ensures CountRule("ten days", today) == Some(Date(DateAfterNumDays(today, 10)))
  {
    FirstCharAbsent("ten", "day");
    assert "ten days" == "ten" + " days";
    DaysRule("ten", " days", today);
    TenWord();
    TenNumber();
  }

  lemma TenWord()
    ensures !Digits("ten") && Word("ten")
  {
    assert !IsDigit("ten"[0]);
  }

  /** "Ten days" is today's midnight moved ten days on. */
  lemma TenDaysPhrase(nowMillis: int)
    ensures ParseDate("Ten days", nowMillis) == Date(DateAfterNumDays(StartOfDay(nowMillis), 10))
  {
    CleanTenDays();
    TenDaysCount(StartOfDay(nowMillis));
    CountDecides("ten days", nowMillis);
  }

  // ---------------------------------------------------------------------------
  // (1) Week counts

  /** A text `x + " "` whose only space is the last character holds no `p` with an inner space. */
  lemma SpacedAbsent(x: string, p: string, k: int)
    requires AllWordChars(x) && 0 <= k < |p| - 1 && p[k] == ' '
    ensures !Contains(x + " ", p)
  {
    var s := x + " ";
    forall j | 0 <= j && j + |p| <= |s| ensures !OccursAt(s, p, j) {
      assert s[j..j + |p|][k] == x[j + k];
    }
  }

  /** A `\w` word ends with no "and a half" or "and a 1/2". */
  lemma WordNoHalf(x: string)
    requires AllWordChars(x)
    ensures HalfPrefix(x) == None
  {
    if |x| >= 11 { NotEndsWith(x, " " + AND_A_HALF, 11); }
    if |x| >= 10 { NotEndsWith(x, " " + AND_A_1_2, 10); }
  }

  /** A space followed by a non-digit rules out `\d+.\d+` for the whole text. */
  lemma NotDigitsAnyDigits(p: string, k: int)
    requires 0 <= k && k + 1 < |p| && p[k] == ' ' && !IsDigit(p[k + 1])
    ensures !DigitsAnyDigits(p)
  {
    forall i | 1 <= i < |p| - 1 ensures !(Digits(p[..i]) && Digits(p[i + 1..])) {
      if i < k {
        assert p[i + 1..][k - i - 1] == ' ';
      } else if i == k {
        assert p[i + 1..][0] == p[k + 1];
      } else {
        assert p[..i][k] == ' ';
      }
    }
  }

  /** The count of "X week(s)", for an `X` without "week" in it, is the text `X` and a space. */
  lemma WeekBefore(x: string, unit: string)
    requires unit == " week" || unit == " weeks"
    requires !Contains(x, "week")
    ensures Before(x + unit, "week") == x + " "
  {
    assert x + unit == x + " " + "week" + unit[5..];
    IndexPastSpace(x, "week", unit[5..]);
    assert (x + unit)[..|x| + 1] == x + " ";
  }

  /**
   * "X week(s)", for one `\w` word `X` without "week": `ceil(7x)` days on, where `x` is the
   * number `X` is (as written when it is digits, converted from English otherwise).
   */
  lemma WholeWeeksRule(x: string, unit: string, today: int)
    requires unit == " week" || unit == " weeks"
    requires Word(x) && !Contains(x, "week") && (Digits(x) || !DigitsAnyDigits(x))
    ensures CountRule(x + unit, today) ==
      Some(match RealOf(NumberText(x, !Digits(x)))
           case Read(v) => Date(DateAfterNumDays(today, WeeksDays(v)))
           case Fail(e) => Failure(e))
  {
    var s := x + unit;
    WeekUnit(x, unit);
    WordNoHalf(x);
    WeekBefore(x, unit);
    HalfWordsSpaced();
    SpacedAbsent(x, AND_A_HALF, 3);
    SpacedAbsent(x, AND_A_1_2, 3);
    assert IsWordChar(x[0]) && IsWordChar(x[|x| - 1]);
    TrimSpaceAfter(x);
    WeekCountWhole(s, x, today, !Digits(x));
    if Digits(x) {
      assert DigitWeeks(s);
    } else {
      assert !DigitWeeks(s) && WordWeeks(s);
    }
  }

  lemma HalfWordsSpaced()
    ensures |AND_A_HALF| == 10 && AND_A_HALF[3] == ' '
    ensures |AND_A_1_2| == 9 && AND_A_1_2[3] == ' '
  {
  }

  /** The week count of a phrase whose number text `X ` has no half in it. */
  lemma WeekCountWhole(s: string, x: string, today: int, worded: bool)
    requires Before(s, "week") == x + " " && Trim(x + " ") == x
    requires !Contains(x + " ", AND_A_HALF) && !Contains(x + " ", AND_A_1_2)
    ensures WeekCount(s, today, worded) ==
      match RealOf(NumberText(x, worded))
      case Read(v) => Date(DateAfterNumDays(today, WeeksDays(v)))
      case Fail(e) => Failure(e)
  {
  }

  /** `X and a half` / `X and a 1/2` leaves `X` in front. */
  lemma HalfPrefixOf(x: string, half: string)
    requires half == " " + AND_A_HALF || half == " " + AND_A_1_2
    ensures HalfPrefix(x + half) == Some(x)
  {
    EndsWithSuffix(x, half);
    if half == " " + AND_A_1_2 {
      NotEndsWith(x + half, " " + AND_A_HALF, 1);
    }
  }

  /**
   * The number text `Trim(substring(0, indexOf("and a")))` of "X and a half": all of `X`,
   * except that an `X` ending in "and" loses those three letters, because "and a" is first
   * found inside it ("thousand and a half" gives "thous").
   */
  function HalfNumberWord(x: string): string
  {
    if EndsWith(x, "and") then x[..|x| - 3] else x
  }

  /** Only a word ending in "and" is cut short. */
  lemma HalfNumberWordKeeps(x: string)
    requires x != [] && x[|x| - 1] != 'd'
    ensures HalfNumberWord(x) == x
  {
    NotEndsWith(x, "and", 1);
  }

  /**
   * "X and a half week(s)" and "X and a 1/2 week(s)", for one `\w` word `X` without "week":
   * `7n + 4` days on in `Int` arithmetic, where `n` is the whole number `HalfNumberWord(X)` is
   * (as written when `X` is digits, converted from English otherwise).
   */
  lemma HalfWeeksRule(x: string, half: string, unit: string, today: int)
    requires half == " " + AND_A_HALF || half == " " + AND_A_1_2
    requires unit == " week" || unit == " weeks"
    requires Word(x) && !Contains(x, "week")
    ensures CountRule(x + half + unit, today) ==
      Some(match IntOf(NumberText(HalfNumberWord(x), !Digits(x)))
           case Read(n) => Date(DateAfterNumDays(today, HalfWeeksDays(n)))
           case Fail(e) => Failure(e))
  {
    var p := x + half;
    var s := p + unit;
    WeekUnit(p, unit);
    HalfPrefixOf(x, half);
    if !Digits(x) {
      assert p[|x|] == ' ' && p[|x| + 1] == 'a';
      assert !Digits(p);
      NotDigitsAnyDigits(p, |x|);
    }
    assert DigitWeeks(s) == Digits(x) && (DigitWeeks(s) || WordWeeks(s));
    HalfNumber(x, half, unit);
  }

  /** The number text of "X and a half week(s)" is `HalfNumberWord(X)`. */
  lemma HalfNumber(x: string, half: string, unit: string)
    requires half == " " + AND_A_HALF || half == " " + AND_A_1_2
    requires unit == " week" || unit == " weeks"
    requires Word(x) && !Contains(x, "week")
    ensures var num := Before(x + half + unit, "week");
      (Contains(num, AND_A_HALF) || Contains(num, AND_A_1_2)) && Trim(Before(num, "and a")) == HalfNumberWord(x)
  {
    var p := x + half;
    assert forall i :: 0 <= i < |half| ==> half[i] != 'w';
    SpacedAppendAbsent(x, half, "week");
    WeekBefore(p, unit);
    HalfPresent(x, half);
    HalfBefore(x, half);
  }

  /** Appending a text that starts with a space and lacks the first letter of `p` adds no `p`. */
  lemma SpacedAppendAbsent(x: string, t: string, p: string)
    requires !Contains(x, p) && p != [] && forall i :: 0 <= i < |p| ==> p[i] != ' '
    requires t != [] && t[0] == ' ' && forall i :: 0 <= i < |t| ==> t[i] != p[0]
    ensures !Contains(x + t, p)
  {
    var s := x + t;
    forall j | 0 <= j && j + |p| <= |s| ensures !OccursAt(s, p, j) {
      if j + |p| <= |x| {
        assert s[j..j + |p|] == x[j..j + |p|];
        assert !OccursAt(x, p, j);
      } else if j < |x| {
        assert s[j..j + |p|][|x| - j] == s[|x|] == ' ';
      } else {
        assert s[j..j + |p|][0] == t[j - |x|];
      }
    }
  }

  lemma HalfPresent(x: string, half: string)
    requires half == " " + AND_A_HALF || half == " " + AND_A_1_2
    ensures Contains(x + half + " ", half[1..])
  {
    var num := x + half + " ";
    assert num == x + " " + half[1..] + " ";
    assert num[|x| + 1..|x| + 1 + |half[1..]|] == half[1..];
    OccursAtContains(num, half[1..], |x| + 1);
  }

  lemma HalfBefore(x: string, half: string)
    requires half == " " + AND_A_HALF || half == " " + AND_A_1_2
    requires Word(x)
    ensures Trim(Before(x + half + " ", "and a")) == HalfNumberWord(x)
  {
    var num := x + half + " ";
    var r := half[6..] + " ";
    assert num == x + " " + "and a" + r;
    AndAIndex(x, r);
    if EndsWith(x, "and") {
      assert num[..|x| - 3] == x[..|x| - 3];
      var w := x[..|x| - 3];
      assert forall i :: 0 <= i < |w| ==> IsWordChar(w[i]);
      TrimUnchanged(w);
    } else {
      assert num[..|x| + 1] == x + " ";
      TrimSpaceAfter(x);
    }
  }

  /** In "X and a…" the first "and a" is the one after `X`, or the end of an `X` ending in "and". */
  lemma AndAIndex(x: string, r: string)
    requires Word(x)
    ensures IndexOf(x + " " + "and a" + r, "and a") == if EndsWith(x, "and") then |x| - 3 else |x| + 1
  {
    var p := "and a";
    var s := x + " " + p + r;
    var k := if EndsWith(x, "and") then |x| - 3 else |x| + 1;
    AndAOccurs(x, r);
    OccursAtContains(s, p, k);
    forall j | 0 <= j < k && j + |p| <= |s| ensures !OccursAt(s, p, j) {
      NoAndABefore(x, r, j);
    }
  }

  /** "and a" occurs in "X and a…" after `X`, or at the end of an `X` ending in "and". */
  lemma AndAOccurs(x: string, r: string)
    requires Word(x)
    ensures var k := if EndsWith(x, "and") then |x| - 3 else |x| + 1;
      OccursAt(x + " " + "and a" + r, "and a", k)
  {
    var p := "and a";
    var s := x + " " + p + r;
    var k := if EndsWith(x, "and") then |x| - 3 else |x| + 1;
    if EndsWith(x, "and") {
      assert s[|x| - 3..|x|] == x[|x| - 3..];
      assert s[|x|..|x| + 2] == " a";
      assert s[k..k + 5] == s[|x| - 3..|x|] + s[|x|..|x| + 2];
    } else {
      assert s[k..k + 5] == p;
    }
  }

  /** No "and a" starts in "X and a…" before the one `AndAOccurs` names. */
  lemma NoAndABefore(x: string, r: string, j: int)
    requires Word(x)
    requires 0 <= j < (if EndsWith(x, "and") then |x| - 3 else |x| + 1)
    ensures !OccursAt(x + " " + "and a" + r, "and a", j)
  {
    var p := "and a";
    var s := x + " " + p + r;
    if j + 3 < |x| {
      assert s[j..j + 5][3] == x[j + 3] != ' ' == p[3];
    } else if j + 3 == |x| {
      assert !EndsWith(x, "and");
      assert s[j..j + 3] == x[|x| - 3..] != "and";
      assert s[j..j + 5][..3] == s[j..j + 3];
      assert p[..3] == "and";
    } else {
      assert |x| - j < 3 && p[0] != ' ' && p[1] != ' ' && p[2] != ' ';
      assert s[j..j + 5][|x| - j] == s[|x|] == ' ';
    }
  }

  /** A text that starts with a non-digit is not `\d+.\d+`. */
  lemma LeadingNonDigit(x: string)
    requires x != [] && !IsDigit(x[0])
    ensures !Digits(x) && !DigitsAnyDigits(x)
  {
    forall i | 1 <= i < |x| - 1 ensures !Digits(x[..i]) {
      assert x[..i][0] == x[0];
    }
  }

  /** `ceil` of a whole number is the number. */
  lemma CeilWhole(i: int)
    ensures Ceil(i as real) == i
  {
  }

  /** Whole weeks: seven days each, saturated at the `Int` range. */
  lemma WeeksDaysWhole(n: int)
    ensures WeeksDays(n as real) == Clamp32(7 * n)
  {
    assert (n as real) * 7.0 == (7 * n) as real;
    CeilWhole(7 * n);
  }

  /** While `7n + 4` fits an `Int`, the half-week rule adds `Math.ceil(7n + 3.5) == 7n + 4` days. */
  lemma HalfWeeksDaysValue(n: int)
    requires INT_MIN <= 7 * n && 7 * n + 4 <= INT_MAX
    ensures HalfWeeksDays(n) == 7 * n + 4 == Ceil((7 * n) as real + 3.5)
  {
  }

  /** `Double.parseDouble` of an unsigned numeral without exponent and surrounding blanks. */
  lemma ParseDoublePlain(t: string, ip: string, fp: string)
    requires Trim(t) == t && t != [] && t[0] != '-' && t[0] != '+' && ExponentMark(t) == |t|
    requires var dot := IndexOf(t, ".");
      && ip == (if dot < 0 then t else t[..dot]) && fp == (if dot < 0 then "" else t[dot + 1..])
    requires AllDigits(ip) && AllDigits(fp) && |ip| + |fp| >= 1
    ensures ParseDouble(t) == Some(DecimalValue(ip, fp))
  {
    assert t[..|t|] == t;
    assert ParseMantissa(t) == Some(DecimalValue(ip, fp));
    assert ParseUnsigned(t) == Some(DecimalValue(ip, fp));
  }

  /** `Double.parseDouble` of a digit string is its value. */
  lemma ParseDoubleDigits(d: string)
    requires Digits(d)
    ensures ParseDouble(d) == Some(DigitsValue(d) as real)
  {
    TrimUnchanged(d);
    var k := ExponentMark(d);
    assert k == |d| by {
      assert k < |d| ==> IsDigit(d[k]);
    }
    FirstCharAbsent(d, ".");
    ParseDoublePlain(d, d, "");
    DecimalValueWhole(d);
  }

  lemma DecimalValueWhole(d: string)
    requires AllDigits(d)
    ensures DecimalValue(d, "") == DigitsValue(d) as real
  {
    assert d + "" == d;
    assert Pow10(|""|) == 1;
  }

  /** The pieces `Double.parseDouble` sees in `digits.digits`. */
  lemma DecimalShape(ip: string, fp: string)
    requires Digits(ip) && Digits(fp)
    ensures var t := ip + "." + fp;
      && Trim(t) == t && t[0] != '-' && t[0] != '+' && ExponentMark(t) == |t|
      && IndexOf(t, ".") == |ip| && t[..|ip|] == ip && t[|ip| + 1..] == fp
  {
    var t := ip + "." + fp;
    assert t[0] == ip[0] && t[|t| - 1] == fp[|fp| - 1];
    TrimUnchanged(t);
    assert forall i :: 0 <= i < |t| ==> t[i] != 'e' && t[i] != 'E';
    assert t[|ip|..|ip| + 1] == ".";
    OccursAtContains(t, ".", |ip|);
    assert IndexOf(t, ".") == |ip| by {
      var r := IndexOf(t, ".");
      assert t[r..r + 1][0] == t[r];
    }
    assert t[..|ip|] == ip && t[|ip| + 1..] == fp;
  }

  /** `Double.parseDouble` of `digits.digits` is the decimal value. */
  lemma ParseDoubleDecimal(ip: string, fp: string)
    requires Digits(ip) && Digits(fp)
    ensures ParseDouble(ip + "." + fp) == Some(DecimalValue(ip, fp))
  {
    var t := ip + "." + fp;
    DecimalShape(ip, fp);
    ParseDoublePlain(t, ip, fp);
  }

  /** "n week(s)": seven days per week, saturated at the `Int` range. */
  lemma DigitWeeksPhrase(n: nat, unit: string, nowMillis: int)
    requires unit == " week" || unit == " weeks"
    ensures ParseDate(NatToString(n) + unit, nowMillis) ==
      Date(DateAfterNumDays(StartOfDay(nowMillis), Clamp32(7 * n)))
  {
    var ds := NatToString(n);
    var s := ds + unit;
    DigitsNoLetters(ds, "week");
    UnitsLower(unit);
    CleanDigitsLed(ds, unit);
    WholeWeeksRule(ds, unit, StartOfDay(nowMillis));
    ParseDoubleDigits(ds);
    NatToStringValue(n);
    WeeksDaysWhole(n);
    CountDecides(s, nowMillis);
  }

  /** "n and a half week(s)" / "n and a 1/2 week(s)": `7n + 4` days on in `Int` arithmetic. */
  lemma HalfWeeksPhrase(n: nat, half: string, unit: string, nowMillis: int)
    requires half == " " + AND_A_HALF || half == " " + AND_A_1_2
    requires unit == " week" || unit == " weeks"
    ensures ParseDate(NatToString(n) + half + unit, nowMillis) ==
      if n <= INT_MAX then Date(DateAfterNumDays(StartOfDay(nowMillis), HalfWeeksDays(n))) else Failure(BadNumber)
  {
    var ds := NatToString(n);
    var s := ds + half + unit;
    HalfUnitsLower(half, unit);
    assert s == ds + (half + unit);
    CleanDigitsLed(ds, half + unit);
    HalfDigitsCount(n, half, unit, StartOfDay(nowMillis));
    CountDecides(s, nowMillis);
  }

  /** The count rule's reading of "n and a half week(s)". */
  lemma HalfDigitsCount(n: nat, half: string, unit: string, today: int)
    requires half == " " + AND_A_HALF || half == " " + AND_A_1_2
    requires unit == " week" || unit == " weeks"
    ensures CountRule(NatToString(n) + half + unit, today) ==
      Some(if n <= INT_MAX then Date(DateAfterNumDays(today, HalfWeeksDays(n))) else Failure(BadNumber))
  {
    var ds := NatToString(n);
    DigitsNoLetters(ds, "week");
    HalfNumberWordKeeps(ds);
    HalfWeeksRule(ds, half, unit, today);
    ParseIntToString(n);
  }

  // ---------------------------------------------------------------------------
  // Phrases from the test list

  /** A capitalised phrase is cleaned to its lower-cased form when no removed word leads it. */
  lemma CleanCapitalised(c: char, rest: string)
    requires 'A' <= c <= 'Z' && NoCapitals(rest) && NoLeadingWord([LowerChar(c)] + rest)
    ensures Clean([c] + rest) == [LowerChar(c)] + rest
  {
    LowerCapital(c, rest);
  }

  /** `CleanCapitalised` for a literal input and output whose pieces are given. */
  lemma CleanCapitalisedAs(input: string, output: string, c: char, rest: string)
    requires 'A' <= c <= 'Z' && input == [c] + rest && output == [LowerChar(c)] + rest
    requires NoCapitals(rest) && NoLeadingWord(output)
    ensures Clean(input) == output
  {
    CleanCapitalised(c, rest);
  }

  /** "o" not followed by "n " leads with no removed word. */
  lemma NoLeadingO(s: string)
    requires |s| >= 3 && s[0] == 'o' && s[2] != ' '
    ensures NoLeadingWord(s)
  {
    StartsOther(s, s[..1], EXPIRES);
    StartsOther(s, s[..1], IN);
    StartsOther(s, s[..1], THE);
    assert s[..3][2] == s[2];
  }

  /** "t" not followed by "h" leads with no removed word. */
  lemma NoLeadingT(s: string)
    requires |s| >= 2 && s[0] == 't' && s[1] != 'h'
    ensures NoLeadingWord(s)
  {
    StartsOther(s, s[..1], EXPIRES);
    StartsOther(s, s[..1], ON);
    StartsOther(s, s[..1], IN);
    assert s[..2][1] == s[1];
  }

  lemma OneNumber()
    ensures IntOf(NumberText("one", true)) == Read(1)
  {
    ExampleOne();
    OneDigits();
    IntOfWords("one", "001");
  }

  lemma OneDigits()
    ensures Digits("001") && DigitsValue("001") == 1
  {
    assert "001"[..2] == "00" && "00"[..1] == "0";
  }

  lemma TwoNumber()
    ensures RealOf(NumberText("two", true)) == Read(2.0)
  {
    ExampleTwo();
    TwoDigits();
    RealOfWords("two", "002");
  }

  lemma TwoDigits()
    ensures Digits("002") && DigitsValue("002") == 2
  {
    assert "002"[..2] == "00" && "00"[..1] == "0";
  }

  lemma OneDayText()
    ensures "One day" == ['O'] + "ne day" && "one day" == [LowerChar('O')] + "ne day"
    ensures NoCapitals("ne day") && NoLeadingWord("one day")
  {
    NoLeadingO("one day");
  }

  lemma CleanOneDay()
    ensures Clean("One day") == "one day"
  {
    OneDayText();
    CleanCapitalisedAs("One day", "one day", 'O', "ne day");
  }

  lemma OneDayCount(today: int)
    ensures CountRule("one day", today) == Some(Date(DateAfterNumDays(today, 1)))
  {
    assert "one day" == "one" + " day";
    FirstCharAbsent("one", "day");
    DaysRule("one", " day", today);
    assert !Digits("one") && Word("one");
    OneNumber();
  }

  /** "One day" is tomorrow's midnight. */
  lemma OneDayPhrase(nowMillis: int)
    ensures ParseDate("One day", nowMillis) == Date(DateAfterNumDays(StartOfDay(nowMillis), 1))
  {
    CleanOneDay();
    OneDayCount(StartOfDay(nowMillis));
    CountDecides("one day", nowMillis);
  }

  lemma TwoWeeksText()
    ensures "Two weeks" == ['T'] + "wo weeks" && "two weeks" == [LowerChar('T')] + "wo weeks"
    ensures NoCapitals("wo weeks") && NoLeadingWord("two weeks")
  {
    NoLeadingT("two weeks");
  }

  lemma CleanTwoWeeks()
    ensures Clean("Two weeks") == "two weeks"
  {
    TwoWeeksText();
    CleanCapitalisedAs("Two weeks", "two weeks", 'T', "wo weeks");
  }

  lemma TwoWeeksCount(today: int)
    ensures CountRule("two weeks", today) == Some(Date(DateAfterNumDays(today, 14)))
  {
    assert "two weeks" == "two" + " weeks";
    LeadingNonDigit("two");
    assert Word("two");
    WholeWeeksRule("two", " weeks", today);
    TwoNumber();
    WeeksDaysWhole(2);
  }

  /** "Two weeks" is fourteen days on. */
  lemma TwoWeeksPhrase(nowMillis: int)
    ensures ParseDate("Two weeks", nowMillis) == Date(DateAfterNumDays(StartOfDay(nowMillis), 14))
  {
    CleanTwoWeeks();
    TwoWeeksCount(StartOfDay(nowMillis));
    CountDecides("two weeks", nowMillis);
  }

  lemma OneAndAHalfWeeksText()
    ensures "One and a half weeks" == ['O'] + "ne and a half weeks"
  {
  }

  lemma OneAndAHalfWeeksLower()
    ensures "one and a half weeks" == [LowerChar('O')] + "ne and a half weeks"
  {
  }

  lemma OneAndAHalfWeeksWords()
    ensures NoCapitals("ne and a half weeks") && NoLeadingWord("one and a half weeks")
  {
    NoLeadingO("one and a half weeks");
  }

  lemma CleanOneAndAHalfWeeks()
    ensures Clean("One and a half weeks") == "one and a half weeks"
  {
    OneAndAHalfWeeksText();
    OneAndAHalfWeeksLower();
    OneAndAHalfWeeksWords();
    CleanCapitalisedAs("One and a half weeks", "one and a half weeks", 'O', "ne and a half weeks");
  }

  lemma OneIsWord()
    ensures !Digits("one") && Word("one")
  {
    assert "one"[0] == 'o';
  }

  lemma OneAndAHalfWeeksCount(today: int)
    ensures CountRule("one and a half weeks", today) == Some(Date(DateAfterNumDays(today, 11)))
  {
    assert "one and a half weeks" == "one" + (" " + AND_A_HALF) + " weeks";
    OneIsWord();
    FirstCharAbsent("one", "week");
    HalfNumberWordKeeps("one");
    HalfWeeksRule("one", " " + AND_A_HALF, " weeks", today);
    OneNumber();
    HalfWeeksDaysValue(1);
  }

  lemma TwoIntNumber()
    ensures IntOf(NumberText("two", true)) == Read(2)
  {
    ExampleTwo();
    TwoDigits();
    IntOfWords("two", "002");
  }

  /** "two and a half weeks", whose number word holds a 'w', is eighteen days on. */
  lemma TwoAndAHalfWeeksCount(today: int)
    ensures CountRule("two and a half weeks", today) == Some(Date(DateAfterNumDays(today, 18)))
  {
    assert "two and a half weeks" == "two" + (" " + AND_A_HALF) + " weeks";
    LeadingNonDigit("two");
    assert Word("two");
    assert !Contains("two", "week");
    HalfNumberWordKeeps("two");
    HalfWeeksRule("two", " " + AND_A_HALF, " weeks", today);
    TwoIntNumber();
    HalfWeeksDaysValue(2);
  }

  /** "One and a half weeks" is eleven days on. */
  lemma OneAndAHalfWeeksPhrase(nowMillis: int)
    ensures ParseDate("One and a half weeks", nowMillis) == Date(DateAfterNumDays(StartOfDay(nowMillis), 11))
  {
    CleanOneAndAHalfWeeks();
    OneAndAHalfWeeksCount(StartOfDay(nowMillis));
    CountDecides("one and a half weeks", nowMillis);
  }

  lemma OnePointFiveValue()
    ensures ParseDouble("1.5") == Some(1.5)
  {
    assert "1.5" == "1" + "." + "5";
    ParseDoubleDecimal("1", "5");
    OnePointFiveDecimal();
  }

  lemma OnePointFiveDecimal()
    ensures DecimalValue("1", "5") == 1.5
  {
    Fifteen();
    assert Pow10(1) == 10;
  }

  lemma Fifteen()
    ensures DigitsValue("1" + "5") == 15
  {
    assert "1" + "5" == "15";
    assert "15"[..1] == "1";
  }

  lemma ZerosOnePointFiveValue()
    ensures ParseDouble("001.5") == Some(1.5)
  {
    assert "001.5" == "001" + "." + "5";
    ParseDoubleDecimal("001", "5");
    ZerosOnePointFiveDecimal();
  }

  lemma ZerosOnePointFiveDecimal()
    ensures DecimalValue("001", "5") == 1.5
  {
    ZerosFifteen();
    assert Pow10(1) == 10;
  }

  lemma ZerosFifteen()
    ensures DigitsValue("001" + "5") == 15
  {
    assert "001" + "5" == "0015";
    assert "0015"[..3] == "001" && "001"[..2] == "00" && "00"[..1] == "0";
  }

  lemma FractionWeeksCount(today: int)
    ensures CountRule("1.5 weeks", today) == Some(Date(DateAfterNumDays(today, 11)))
  {
    var x := "1.5";
    assert "1.5 weeks" == x + " weeks";
    assert Digits(x[..1]) && Digits(x[2..]) by {
      assert x[..1] == "1" && x[2..] == "5";
    }
    DecimalWeeksRule(x, 1, " weeks", today);
    OnePointFiveValue();
    OnePointFiveWeeks();
  }

  /** One and a half weeks are `ceil(10.5) == 11` days. */
  lemma OnePointFiveWeeks()
    ensures WeeksDays(1.5) == 11
  {
    assert 1.5 * 7.0 == 10.5;
  }

  /**
   * "D.D week(s)", `\d+.\d+` with any separator but a line terminator: the number text is
   * the whole `D.D`, read as a `Double`.
   */
  lemma DecimalWeeksRule(x: string, i: int, unit: string, today: int)
    requires unit == " week" || unit == " weeks"
    requires 1 <= i < |x| - 1 && Digits(x[..i]) && Digits(x[i + 1..])
    requires !IsLineTerminator(x[i])
    ensures CountRule(x + unit, today) ==
      Some(match RealOf(Read(x))
           case Read(v) => Date(DateAfterNumDays(today, WeeksDays(v)))
           case Fail(e) => Failure(e))
  {
    WeekUnit(x, unit);
    assert DigitsAnyDigits(x);
    assert DigitWeeks(x + unit);
    DecimalChars(x, i);
    DecimalNumberText(x, unit);
  }

  /** In `\d+.\d+` every character but the separator is a digit, the two ends included. */
  lemma DecimalChars(x: string, i: int)
    requires 1 <= i < |x| - 1 && Digits(x[..i]) && Digits(x[i + 1..])
    ensures IsDigit(x[0]) && IsDigit(x[|x| - 1])
    ensures forall j :: 0 <= j < |x| - 1 ==> IsDigit(x[j]) || IsDigit(x[j + 1])
  {
    assert x[0] == x[..i][0];
    assert x[|x| - 1] == x[i + 1..][|x| - i - 2];
    forall j | 0 <= j < |x| - 1 ensures IsDigit(x[j]) || IsDigit(x[j + 1]) {
      if j < i {
        assert x[j] == x[..i][j];
      } else {
        assert x[j + 1] == x[i + 1..][j - i];
      }
    }
  }

  /** A text with no two non-digits in a row holds no `p` that starts with two non-digits. */
  lemma NoNonDigitPair(t: string, p: string)
    requires |p| >= 2 && !IsDigit(p[0]) && !IsDigit(p[1])
    requires forall j :: 0 <= j < |t| - 1 ==> IsDigit(t[j]) || IsDigit(t[j + 1])
    ensures !Contains(t, p)
  {
    forall j | 0 <= j && j + |p| <= |t| ensures !OccursAt(t, p, j) {
      assert t[j..j + |p|][0] == t[j] && t[j..j + |p|][1] == t[j + 1];
    }
  }

  /** The number text of "D.D week(s)": `D.D` and a space, with no half in it. */
  lemma DecimalNumberText(x: string, unit: string)
    requires unit == " week" || unit == " weeks"
    requires x != [] && IsDigit(x[0]) && IsDigit(x[|x| - 1])
    requires forall j :: 0 <= j < |x| - 1 ==> IsDigit(x[j]) || IsDigit(x[j + 1])
    ensures var num := Before(x + unit, "week");
      && num == x + " " && Trim(num) == x
      && !Contains(num, AND_A_HALF) && !Contains(num, AND_A_1_2)
  {
    NoNonDigitPair(x, "week");
    WeekBefore(x, unit);
    var t := x + " ";
    assert forall j :: 0 <= j < |t| - 1 ==> IsDigit(t[j]) || IsDigit(t[j + 1]) by {
      forall j | 0 <= j < |t| - 1 ensures IsDigit(t[j]) || IsDigit(t[j + 1]) {
        if j < |x| - 1 {
          assert t[j] == x[j] && t[j + 1] == x[j + 1];
        } else {
          assert t[j] == x[|x| - 1];
        }
      }
    }
    NoNonDigitPair(t, AND_A_HALF);
    NoNonDigitPair(t, AND_A_1_2);
    TrimSpaceAfter(x);
  }

  /** "1.5 weeks" is `ceil(10.5) == 11` days on. */
  lemma FractionWeeksPhrase(nowMillis: int)
    ensures ParseDate("1.5 weeks", nowMillis) == Date(DateAfterNumDays(StartOfDay(nowMillis), 11))
  {
    OtherLeads("1.5 weeks");
    CleanKeeps("1.5 weeks");
    FractionWeeksCount(StartOfDay(nowMillis));
    CountDecides("1.5 weeks", nowMillis);
  }

  lemma OnePointFiveWords()
    ensures Word("one") && Word("five") && !IsDigit("one"[0])
    ensures !Contains("one", "week") && !Contains("five", "week")
    ensures "one point five weeks" == "one" + " point " + "five" + " weeks"
  {
    FirstCharAbsent("one", "week");
    FirstCharAbsent("five", "week");
  }

  lemma OnePointFiveWeeksCount(today: int)
    ensures CountRule("one point five weeks", today) == Some(Date(DateAfterNumDays(today, 11)))
  {
    OnePointFiveWords();
    WordPointWeeksRule("one", "five", " weeks", today);
    OnePointFiveJoin();
    OnePointFiveNumber();
    OnePointFiveWeeks();
  }

  lemma OnePointFiveJoin()
    ensures "one" + " point " + "five" == "one point five"
  {
  }

  lemma OnePointFiveNumber()
    ensures RealOf(NumberText("one point five", true)) == Read(1.5)
  {
    ExampleOnePointFive();
    ZerosOnePointFiveValue();
  }

  /**
   * "W point W week(s)", for two `\w` words without "week", the first not led by a digit:
   * the words are converted from English and the result is read as a `Double` number of
   * weeks, `ceil(7x)` days on.
   */
  lemma WordPointWeeksRule(a: string, b: string, unit: string, today: int)
    requires unit == " week" || unit == " weeks"
    requires Word(a) && Word(b) && !IsDigit(a[0])
    requires !Contains(a, "week") && !Contains(b, "week")
    ensures CountRule(a + " point " + b + unit, today) ==
      Some(match RealOf(NumberText(a + " point " + b, true))
           case Read(v) => Date(DateAfterNumDays(today, WeeksDays(v)))
           case Fail(e) => Failure(e))
  {
    var x := a + " point " + b;
    WeekUnit(x, unit);
    PointPhraseKind(a, b);
    PointPhraseSpaced(a, b);
    PointPhraseNoWeek(a, b);
    WeekBefore(x, unit);
    WordPointCount(x + unit, x, today);
  }

  /** "W point W" is `\w+ point \w+` and, led by a non-digit, neither `\d+` nor `\d+.\d+`. */
  lemma PointPhraseKind(a: string, b: string)
    requires Word(a) && Word(b) && !IsDigit(a[0])
    ensures var x := a + " point " + b;
      !Digits(x) && !DigitsAnyDigits(x) && WordPointWord(x)
  {
    var x := a + " point " + b;
    assert x[0] == a[0];
    LeadingNonDigit(x);
    PointPhraseShape(a, b);
  }

  /** "W point W" holds no half, is not followed by one, and is its own trim. */
  lemma PointPhraseSpaced(a: string, b: string)
    requires Word(a) && Word(b)
    ensures var x := a + " point " + b;
      && HalfPrefix(x) == None && Trim(x + " ") == x
      && !Contains(x + " ", AND_A_HALF) && !Contains(x + " ", AND_A_1_2)
  {
    var x := a + " point " + b;
    assert x[0] == a[0] && x[|x| - 1] == b[|b| - 1];
    PointPhraseNoHalf(a, b, AND_A_HALF);
    PointPhraseNoHalf(a, b, AND_A_1_2);
    HalfPrefixAbsent(x);
    TrimSpaceAfter(x);
  }

  /** The count rule that decides a `\w+ point \w+ week(s)` phrase: the worded week count. */
  lemma WordPointCount(s: string, x: string, today: int)
    requires UnitPrefix(s, "day") == None && UnitPrefix(s, "week") == Some(x)
    requires !Digits(x) && !DigitsAnyDigits(x) && HalfPrefix(x) == None && WordPointWord(x)
    requires Before(s, "week") == x + " " && Trim(x + " ") == x
    requires !Contains(x + " ", AND_A_HALF) && !Contains(x + " ", AND_A_1_2)
    ensures CountRule(s, today) ==
      Some(match RealOf(NumberText(x, true))
           case Read(v) => Date(DateAfterNumDays(today, WeeksDays(v)))
           case Fail(e) => Failure(e))
  {
    WeekCountWhole(s, x, today, true);
  }

  /** "W point W" is `\w+ point \w+`. */
  lemma PointPhraseShape(a: string, b: string)
    requires Word(a) && Word(b)
    ensures WordPointWord(a + " point " + b)
  {
    var x := a + " point " + b;
    assert x[..|a|] == a && x[|a|..|a| + 7] == " point " && x[|a| + 7..] == b;
  }

  /** "W point W " holds no phrase with spaces two apart whose first space follows a 'd'. */
  lemma PointPhraseNoHalf(a: string, b: string, p: string)
    requires AllWordChars(a) && AllWordChars(b)
    requires |p| > 5 && p[2] == 'd' && p[3] == ' ' && p[5] == ' '
    ensures !Contains(a + " point " + b + " ", p)
  {
    var t := a + " point " + b + " ";
    forall j | 0 <= j && j + |p| <= |t| ensures !OccursAt(t, p, j) {
      var w := t[j..j + |p|];
      assert w[2] == t[j + 2] && w[3] == t[j + 3] && w[5] == t[j + 5];
      if j + 3 < |a| {
        assert t[j + 3] == a[j + 3];
      } else if j + 3 == |a| {
        assert t[j + 5] == 'o';
      } else if j + 3 < |a| + 6 {
        assert t[j + 3] == " point "[j + 3 - |a|];
      } else if j + 3 == |a| + 6 {
        assert t[j + 2] == 't';
      } else {
        assert t[j + 3] == b[j + 3 - |a| - 7];
      }
    }
  }

  /** A text that does not hold a half with a space after it does not end with one. */
  lemma HalfPrefixAbsent(x: string)
    requires !Contains(x + " ", AND_A_HALF) && !Contains(x + " ", AND_A_1_2)
    ensures HalfPrefix(x) == None
  {
    var t := x + " ";
    if EndsWith(x, " " + AND_A_HALF) {
      assert t[|x| - 10..|x|] == x[|x| - 10..] == (" " + AND_A_HALF)[1..] == AND_A_HALF;
      OccursAtContains(t, AND_A_HALF, |x| - 10);
    }
    if EndsWith(x, " " + AND_A_1_2) {
      assert t[|x| - 9..|x|] == x[|x| - 9..] == (" " + AND_A_1_2)[1..] == AND_A_1_2;
      OccursAtContains(t, AND_A_1_2, |x| - 9);
    }
  }

  /** "W point W" holds "week" only where a word does. */
  lemma PointPhraseNoWeek(a: string, b: string)
    requires !Contains(a, "week") && !Contains(b, "week")
    ensures !Contains(a + " point " + b, "week")
  {
    var x := a + " point " + b;
    forall j | 0 <= j && j + 4 <= |x| ensures !OccursAt(x, "week", j) {
      PointPhraseNoWeekAt(a, b, j);
    }
  }

  /** No "week" starts at `j` in "W point W". */
  lemma PointPhraseNoWeekAt(a: string, b: string, j: int)
    requires !Contains(a, "week") && !Contains(b, "week")
    requires 0 <= j && j + 4 <= |a + " point " + b|
    ensures !OccursAt(a + " point " + b, "week", j)
  {
    var x := a + " point " + b;
    if j + 4 <= |a| {
      assert x[j..j + 4] == a[j..j + 4];
      assert !OccursAt(a, "week", j);
    } else if j < |a| {
      assert x[j..j + 4][|a| - j] == ' ';
    } else if j < |a| + 7 {
      var c := j - |a|;
      assert x == a + (" point " + b);
      assert x[j] == (" point " + b)[c] == " point "[c];
      assert " point "[c] in {' ', 'p', 'o', 'i', 'n', 't'};
      assert x[j..j + 4][0] == x[j] != "week"[0];
    } else {
      assert x[j..j + 4] == b[j - |a| - 7..j - |a| - 3];
      assert !OccursAt(b, "week", j - |a| - 7);
    }
  }

  lemma OnePointFiveWeeksText()
    ensures "One point five weeks" == ['O'] + "ne point five weeks"
  {
  }

  lemma OnePointFiveWeeksLower()
    ensures "one point five weeks" == [LowerChar('O')] + "ne point five weeks"
  {
  }

  lemma OnePointFiveWeeksWords()
    ensures NoCapitals("ne point five weeks") && NoLeadingWord("one point five weeks")
  {
    NoLeadingO("one point five weeks");
  }

  lemma CleanOnePointFiveWeeks()
    ensures Clean("One point five weeks") == "one point five weeks"
  {
    OnePointFiveWeeksText();
    OnePointFiveWeeksLower();
    OnePointFiveWeeksWords();
    CleanCapitalisedAs("One point five weeks", "one point five weeks", 'O', "ne point five weeks");
  }

  /** "One point five weeks" reads as 1.5 weeks: eleven days on. */
  lemma OnePointFiveWeeksPhrase(nowMillis: int)
    ensures ParseDate("One point five weeks", nowMillis) == Date(DateAfterNumDays(StartOfDay(nowMillis), 11))
  {
    CleanOnePointFiveWeeks();
    OnePointFiveWeeksCount(StartOfDay(nowMillis));
    CountDecides("one point five weeks", nowMillis);
  }

  /** "half a" and "1/2 a" match no week-count pattern of their own. */
  lemma HalfAWeekNoCount(p: string)
    requires p == "half a" || p == "1/2 a"
    ensures !Digits(p) && !Word(p) && !DigitsAnyDigits(p) && !WordPointWord(p) && HalfPrefix(p) == None
  {
    if p == "half a" {
      assert !IsWordChar(p[4]);
      LeadingNonDigit(p);
    } else {
      assert !IsWordChar(p[1]);
      forall i | 1 <= i < |p| - 1 ensures !(Digits(p[..i]) && Digits(p[i + 1..])) {
        if i == 1 {
          assert p[i + 1..][1] == ' ';
        } else {
          assert p[..i][1] == '/';
        }
      }
    }
  }

  /** The literals "half a week" and "1/2 a week" are four days on. */
  lemma HalfAWeekCount(p: string, today: int)
    requires p == "half a" || p == "1/2 a"
    ensures CountRule(p + " week", today) == Some(Date(DateAfterNumDays(today, 4)))
  {
    WeekUnit(p, " week");
    HalfAWeekNoCount(p);
    HalfAWeekJoin(p);
    HalfLiteralRule(p + " week", p, today);
  }

  lemma HalfAWeekJoin(p: string)
    requires p == "half a" || p == "1/2 a"
    ensures p + " week" == "half a week" || p + " week" == "1/2 a week"
  {
  }

  /** A phrase that is one of the two half-week literals and matches no other count rule. */
  lemma HalfLiteralRule(s: string, x: string, today: int)
    requires s == "half a week" || s == "1/2 a week"
    requires UnitPrefix(s, "day") == None && UnitPrefix(s, "week") == Some(x)
    requires !Digits(x) && !Word(x) && !DigitsAnyDigits(x) && !WordPointWord(x) && HalfPrefix(x) == None
    ensures CountRule(s, today) == Some(Date(DateAfterNumDays(today, 4)))
  {
  }

  lemma HalfAWeekText()
    ensures "Half a week" == ['H'] + "alf a week" && "half a week" == [LowerChar('H')] + "alf a week"
    ensures NoCapitals("alf a week") && NoLeadingWord("half a week")
  {
    OtherLeads("half a week");
  }

  lemma SlashHalfAWeekText()
    ensures NoCapitals("1/2 a week") && NoLeadingWord("1/2 a week")
  {
    OtherLeads("1/2 a week");
  }

  lemma CleanHalfAWeek()
    ensures Clean("Half a week") == "half a week" && Clean("1/2 a week") == "1/2 a week"
  {
    HalfAWeekText();
    CleanCapitalisedAs("Half a week", "half a week", 'H', "alf a week");
    SlashHalfAWeekText();
    CleanKeeps("1/2 a week");
  }

  /** "Half a week" and "1/2 a week" are four days on. */
  lemma HalfAWeekPhrase(nowMillis: int)
    ensures ParseDate("Half a week", nowMillis) == Date(DateAfterNumDays(StartOfDay(nowMillis), 4))
    ensures ParseDate("1/2 a week", nowMillis) == Date(DateAfterNumDays(StartOfDay(nowMillis), 4))
  {
    CleanHalfAWeek();
    assert "half a week" == "half a" + " week" && "1/2 a week" == "1/2 a" + " week";
    HalfAWeekCount("half a", StartOfDay(nowMillis));
    HalfAWeekCount("1/2 a", StartOfDay(nowMillis));
    CountDecides("half a week", nowMillis);
    CountDecides("1/2 a week", nowMillis);
  }

  // ---------------------------------------------------------------------------
  // (2) Ordinal suffixes

  /** No suffix is removed at index `k`: it does not start an ordinal suffix right after a digit. */
  predicate KeptAt(s: string, k: int)
    requires 0 <= k < |s|
  {
    !(0 < k && k + 1 < |s| && IsDigit(s[k - 1]) && IsOrdinalSuffix(s[k], s[k + 1]))
  }

  /** Over a stretch where nothing is removed, the characters are copied. */
  lemma {:induction false} StripRun(s: string, i: nat, j: nat)
    requires i <= j <= |s|
    requires forall k :: i <= k < j ==> KeptAt(s, k)
    ensures StripOrdinalsFrom(s, i) == s[i..j] + StripOrdinalsFrom(s, j)
    decreases j - i
  {
    if i < j {
      assert KeptAt(s, i);
      StripRun(s, i + 1, j);
      assert s[i..j] == [s[i]] + s[i + 1..j];
      Associative([s[i]], s[i + 1..j], StripOrdinalsFrom(s, j));
    } else {
      assert s[i..j] + StripOrdinalsFrom(s, j) == StripOrdinalsFrom(s, j);
    }
  }

  /** A string in which no lower-case letter follows a digit loses nothing. */
  lemma StripOrdinalsKeeps(s: string)
    requires forall k :: 0 < k < |s| && IsDigit(s[k - 1]) ==> !('a' <= s[k] <= 'z')
    ensures StripOrdinals(s) == s
  {
    StripRun(s, 0, |s|);
    assert s[0..|s|] == s;
    assert s + "" == s;
  }

  predicate NoDigit(s: string) { forall i :: 0 <= i < |s| ==> !IsDigit(s[i]) }

  predicate NoLetter(s: string) { forall i :: 0 <= i < |s| ==> !('a' <= s[i] <= 'z') }

  /** Text without digits, then text without letters, loses nothing. */
  lemma StripOrdinalsSplitKeeps(a: string, b: string)
    requires NoDigit(a) && NoLetter(b)
    ensures StripOrdinals(a + b) == a + b
  {
    var s := a + b;
    forall k | 0 < k < |s| && IsDigit(s[k - 1]) ensures !('a' <= s[k] <= 'z') {
      assert k - 1 >= |a|;
      assert s[k] == b[k - |a|];
    }
    StripOrdinalsKeeps(s);
  }

  /**
   * An ordinal suffix right after a number is removed: "st", "nd", "rd" or "th" after the
   * digits of `ds` goes, whatever the number.
   */
  lemma StripOrdinalAfter(pre: string, ds: string, suf: string, rest: string)
    requires NoDigit(pre) && Digits(ds) && NoLetter(rest)
    requires |suf| == 2 && IsOrdinalSuffix(suf[0], suf[1])
    ensures StripOrdinals(pre + ds + suf + rest) == pre + ds + rest
  {
    var s := pre + ds + suf + rest;
    var j := |pre| + |ds|;
    forall k | 0 <= k < j ensures KeptAt(s, k) {
      if 0 < k && IsDigit(s[k - 1]) {
        assert k - 1 >= |pre| && s[k] == ds[k - |pre|];
      }
    }
    StripRun(s, 0, j);
    assert s[j - 1] == ds[|ds| - 1] && s[j] == suf[0] && s[j + 1] == suf[1];
    forall k | j + 2 <= k < |s| ensures KeptAt(s, k) {
      assert s[k] == rest[k - j - 2];
    }
    StripRun(s, j + 2, |s|);
    assert s[0..j] == pre + ds && s[j + 2..|s|] == rest;
    assert pre + ds + rest + "" == pre + ds + rest;
  }

  // ---------------------------------------------------------------------------
  // (2) Date templates

  /**
   * A phrase that is no count but fits a template is decided by the templates. A proof step
   * that unfolds the dispatch for the template phrase lemmas, not a property of its own.
   */
  lemma TemplateDecides(s: string, nowMillis: int, millis: int)
    requires CountRule(s, StartOfDay(nowMillis)) == None
    requires Templates(StripOrdinals(s), DateOf(nowMillis), 0) == Some(millis)
    ensures ParseCleaned(s, nowMillis) == Date(millis)
  {
  }

  /** A phrase whose last character ends no unit ('y', 's' or 'k') is no count of days or weeks. */
  lemma LastCharNoCount(s: string, today: int)
    requires s != [] && s[|s| - 1] != 'y' && s[|s| - 1] != 's' && s[|s| - 1] != 'k'
    ensures CountRule(s, today) == None
  {
    UnitSuffixes();
    NotEndsWith(s, " day", 1);
    NotEndsWith(s, " days", 1);
    NotEndsWith(s, " week", 1);
    NotEndsWith(s, " weeks", 1);
    HalfLiteralsEnd();
    assert s != "half a week" && s != "1/2 a week";
    NoCountRule(s, today);
  }

  /** With neither unit suffix and neither half-week literal, no count rule applies. */
  lemma NoCountRule(s: string, today: int)
    requires UnitPrefix(s, "day") == None && UnitPrefix(s, "week") == None
    requires s != "half a week" && s != "1/2 a week"
    ensures CountRule(s, today) == None
  {
  }

  lemma HalfLiteralsSpaced()
    ensures |"half a week"| == 11 && "half a week"[4] == ' '
    ensures |"1/2 a week"| == 10 && "1/2 a week"[3] == ' '
  {
  }

  lemma HalfLiteralsEnd()
    ensures |"half a week"| == 11 && "half a week"[10] == 'k'
    ensures |"1/2 a week"| == 10 && "1/2 a week"[9] == 'k'
  {
  }

  lemma CleanLower(input: string)
    requires NoLeadingWord(Lower(input))
    ensures Clean(input) == Lower(input)
  {
    CleanLeading("", input, false, false, false, false);
    assert "" + input == input;
  }

  /** No two names of a month table are equal: their lengths or one of their first three letters differ. */
  lemma MonthNamesDistinct(names: seq<string>)
    requires names == FULL_MONTHS || names == SHORT_MONTHS
    ensures forall i, j :: 0 <= i < |names| && 0 <= j < |names| && names[i] == names[j] ==> i == j
  {
    forall i, j | 0 <= i < j < |names| ensures names[i] != names[j] {
      assert |names[i]| != |names[j]| || names[i][0] != names[j][0] || names[i][1] != names[j][1] || names[i][2] != names[j][2];
    }
  }

  /** Each month name of a table gives its own number. */
  lemma MonthNumberOf(names: seq<string>, m: int)
    requires names == FULL_MONTHS || names == SHORT_MONTHS
    requires 1 <= m <= 12
    ensures MonthNumber(names, names[m - 1]) == m
  {
    MonthNamesDistinct(names);
  }

  /** A short month name is a full one only for May. */
  lemma ShortNotFull(m: int)
    requires 1 <= m <= 12
    ensures MonthNumber(FULL_MONTHS, SHORT_MONTHS[m - 1]) == if m == 5 then 5 else 0
  {
    if m == 5 {
      MonthNumberOf(FULL_MONTHS, 5);
    } else {
      MonthNamesDistinct(SHORT_MONTHS);
      forall k | 0 <= k < 12 ensures FULL_MONTHS[k] != SHORT_MONTHS[m - 1] {
        if k == 4 {
          assert FULL_MONTHS[4] == SHORT_MONTHS[4];
        } else {
          assert |FULL_MONTHS[k]| != 3;
        }
      }
    }
  }

  /** Either table's name of a month reads as that month, under "MMMM" as under "MMM". */
  lemma MonthOfName(names: seq<string>, m: int)
    requires names == FULL_MONTHS || names == SHORT_MONTHS
    requires 1 <= m <= 12
    ensures MonthOf(names[m - 1]) == m
  {
    if names == FULL_MONTHS {
      MonthNumberOf(FULL_MONTHS, m);
    } else {
      ShortNotFull(m);
      MonthNumberOf(SHORT_MONTHS, m);
    }
  }

  /** A month name is a run of at least three lower-case letters. */
  lemma MonthNameShape(names: seq<string>, m: int)
    requires names == FULL_MONTHS || names == SHORT_MONTHS
    requires 1 <= m <= 12
    ensures var w := names[m - 1]; |w| >= 3 && forall i :: 0 <= i < |w| ==> 'a' <= w[i] <= 'z'
    ensures var w := names[m - 1]; w[0] != 'e' && w[0] != 'i' && w[0] != 't'
  {
  }

  /** A phrase that starts with a month name begins with none of the removed words. */
  lemma MonthLeads(names: seq<string>, m: int, rest: string)
    requires names == FULL_MONTHS || names == SHORT_MONTHS
    requires 1 <= m <= 12
    ensures NoLeadingWord(names[m - 1] + rest)
  {
    var w := names[m - 1];
    MonthNameShape(names, m);
    var s := w + rest;
    assert s[0] == w[0] && s[2] == w[2];
    if w[0] == 'o' {
      NoLeadingO(s);
    } else {
      OtherLeads(s);
    }
  }

  lemma NoSpace(w: string)
    requires forall i :: 0 <= i < |w| ==> w[i] != ' '
    ensures !Contains(w, " ") && Split(w, " ") == [w]
  {
    FirstCharAbsent(w, " ");
  }

  lemma SplitTwo(a: string, b: string)
    requires forall i :: 0 <= i < |a| ==> a[i] != ' '
    requires forall i :: 0 <= i < |b| ==> b[i] != ' '
    ensures Split(a + " " + b, " ") == [a, b]
  {
    NoSpace(a);
    NoSpace(b);
    SplitConcat(a, b, " ");
  }

  lemma SplitThree(a: string, b: string, c: string)
    requires forall i :: 0 <= i < |a| ==> a[i] != ' '
    requires forall i :: 0 <= i < |b| ==> b[i] != ' '
    requires forall i :: 0 <= i < |c| ==> c[i] != ' '
    ensures Split(a + " " + b + " " + c, " ") == [a, b, c]
  {
    NoSpace(a);
    SplitTwo(b, c);
    Associative(a + " ", b, " ");
    Associative(a + " ", b + " ", c);
    SplitConcat(a, b + " " + c, " ");
  }

  /**
   * "MMMM dd yyyy" with a full or short month name and a valid date of a Gregorian year
   * (from 1583 on) is the first template, and it wins.
   */
  lemma MonthDayYearTemplate(names: seq<string>, m: int, d: nat, y: nat, now: Civil)
    requires names == FULL_MONTHS || names == SHORT_MONTHS
    requires 1 <= now.month <= 12
    requires 1 <= m <= 12 && y >= 1583 && 1 <= d <= DaysInMonth(y, m)
    ensures Templates(names[m - 1] + " " + NatToString(d) + " " + NatToString(y), now, 0) == Some(InstantOf(y, m, d))
  {
    var name, ds, ys := names[m - 1], NatToString(d), NatToString(y);
    MonthNameShape(names, m);
    SplitThree(name, ds, ys);
    MonthOfName(names, m);
    NatToStringValue(d);
    NatToStringValue(y);
  }

  /**
   * "MMMM dd" / "MMM dd" with a day of that month in 1970: the second or third template
   * wins, in the current year.
   */
  lemma MonthDayTemplate(names: seq<string>, m: int, d: nat, now: Civil)
    requires names == FULL_MONTHS || names == SHORT_MONTHS
    requires 1 <= now.month <= 12
    requires 1 <= m <= 12 && 1 <= d <= DaysInMonth(1970, m)
    ensures Templates(names[m - 1] + " " + NatToString(d), now, 0) == Some(InstantOf(now.year, m, d))
  {
    var name, ds := names[m - 1], NatToString(d);
    MonthNameShape(names, m);
    SplitTwo(name, ds);
    MonthOfName(names, m);
    NatToStringValue(d);
  }

  /** "dd" with a day 1..31: the fourth template, in the current month and year. */
  lemma DayOnlyTemplate(d: nat, now: Civil)
    requires 1 <= now.month <= 12
    requires 1 <= d <= 31
    ensures Templates(NatToString(d), now, 0) == Some(InstantOf(now.year, now.month, d))
  {
    NoSpace(NatToString(d));
    NatToStringValue(d);
  }

  /** A day number is written bare or with an English ordinal suffix ("14", "14th"). */
  predicate OrdinalOrNone(suf: string)
  {
    suf == "" || (|suf| == 2 && IsOrdinalSuffix(suf[0], suf[1]))
  }

  /** The ordinal suffix, if any, after a day number is removed and nothing else. */
  lemma StripDayOrdinal(pre: string, ds: string, suf: string, rest: string)
    requires NoDigit(pre) && Digits(ds) && NoLetter(rest) && OrdinalOrNone(suf)
    ensures StripOrdinals(pre + ds + suf + rest) == pre + ds + rest
  {
    if suf == "" {
      assert pre + ds + suf + rest == pre + (ds + rest);
      assert NoLetter(ds + rest) by {
        forall i | 0 <= i < |ds + rest| ensures !('a' <= (ds + rest)[i] <= 'z') {
          if i < |ds| {
            assert (ds + rest)[i] == ds[i];
          } else {
            assert (ds + rest)[i] == rest[i - |ds|];
          }
        }
      }
      StripOrdinalsSplitKeeps(pre, ds + rest);
      assert pre + (ds + rest) == pre + ds + rest;
    } else {
      StripOrdinalAfter(pre, ds, suf, rest);
    }
  }

  /** A month name followed by a space has no digit. */
  lemma MonthNoDigit(names: seq<string>, m: int)
    requires names == FULL_MONTHS || names == SHORT_MONTHS
    requires 1 <= m <= 12
    ensures NoDigit(names[m - 1] + " ")
  {
    MonthNameShape(names, m);
    var w := names[m - 1];
    forall i | 0 <= i < |w + " "| ensures !IsDigit((w + " ")[i]) {
      if i < |w| {
        assert (w + " ")[i] == w[i];
      }
    }
  }

  /** A space and a number have no letter. */
  lemma NumberNoLetter(n: nat)
    ensures NoLetter(" " + NatToString(n))
  {
    var r := " " + NatToString(n);
    forall i | 0 <= i < |r| ensures !('a' <= r[i] <= 'z') {
      if i > 0 {
        assert r[i] == NatToString(n)[i - 1];
      }
    }
  }

  /** A phrase that is no count and starts with no removed word is decided by the templates. */
  lemma TemplatePhrase(input: string, nowMillis: int, millis: int)
    requires NoLeadingWord(Lower(input))
    requires CountRule(Lower(input), StartOfDay(nowMillis)) == None
    requires Templates(StripOrdinals(Lower(input)), DateOf(nowMillis), 0) == Some(millis)
    ensures ParseDate(input, nowMillis) == Date(millis)
  {
    CleanLower(input);
    TemplateDecides(Lower(input), nowMillis, millis);
  }

  /**
   * "October 14th 2019", "oct 14 2019": a full or short month name, a day valid in that month
   * of that year (with or without an ordinal suffix) and a Gregorian year (from 1583 on) give
   * midnight of that date, which reads back as the same date.
   */
  lemma MonthDayYearPhrase(input: string, names: seq<string>, m: int, d: nat, y: nat, suf: string, nowMillis: int)
    requires names == FULL_MONTHS || names == SHORT_MONTHS
    requires 1 <= m <= 12 && y >= 1583 && 1 <= d <= DaysInMonth(y, m)
    requires OrdinalOrNone(suf)
    requires Lower(input) == names[m - 1] + " " + NatToString(d) + suf + " " + NatToString(y)
    ensures ParseDate(input, nowMillis) == Date(InstantOf(y, m, d))
    ensures DateOf(InstantOf(y, m, d)) == Civil(y, m, d)
  {
    MonthDayYearShape(names, m, d, y, suf, StartOfDay(nowMillis));
    MonthDayYearTemplate(names, m, d, y, DateOf(nowMillis));
    TemplatePhrase(input, nowMillis, InstantOf(y, m, d));
    DateOfInstantOf(y, m, d);
  }

  /** The month-day-year text starts with no removed word, is no count and loses only its suffix. */
  lemma MonthDayYearShape(names: seq<string>, m: int, d: nat, y: nat, suf: string, today: int)
    requires names == FULL_MONTHS || names == SHORT_MONTHS
    requires 1 <= m <= 12 && OrdinalOrNone(suf)
    ensures var s := names[m - 1] + " " + NatToString(d) + suf + " " + NatToString(y);
      && NoLeadingWord(s) && CountRule(s, today) == None
      && StripOrdinals(s) == names[m - 1] + " " + NatToString(d) + " " + NatToString(y)
  {
    var name, ds, ys := names[m - 1], NatToString(d), NatToString(y);
    MonthLeads(names, m, " " + ds + suf + " " + ys);
    MonthNoDigit(names, m);
    NumberNoLetter(y);
    DateTextShape(name, ds, suf, ys, today);
  }

  /** The same facts about any name, day digits, suffix and year digits. */
  lemma DateTextShape(name: string, ds: string, suf: string, ys: string, today: int)
    requires NoLeadingWord(name + (" " + ds + suf + " " + ys))
    requires NoDigit(name + " ") && Digits(ds) && OrdinalOrNone(suf) && Digits(ys) && NoLetter(" " + ys)
    ensures var s := name + " " + ds + suf + " " + ys;
      && NoLeadingWord(s) && CountRule(s, today) == None
      && StripOrdinals(s) == name + " " + ds + " " + ys
  {
    var s := name + " " + ds + suf + " " + ys;
    Associative(name, " " + ds + suf + " ", ys);
    assert name + (" " + ds + suf + " " + ys) == s;
    EndsWithDigit(name + " " + ds + suf + " ", ys, today);
    Associative(name + " " + ds + suf, " ", ys);
    Associative(name + " " + ds, " ", ys);
    StripDayOrdinal(name + " ", ds, suf, " " + ys);
  }

  lemma EndsWithDigit(pre: string, ys: string, today: int)
    requires Digits(ys)
    ensures CountRule(pre + ys, today) == None
  {
    var s := pre + ys;
    assert s[|s| - 1] == ys[|ys| - 1];
    LastCharNoCount(s, today);
  }

  /** Text without digits, a day number and an optional suffix: no count, and only the suffix goes. */
  lemma DayTextShape(pre: string, ds: string, suf: string, today: int)
    requires NoDigit(pre) && Digits(ds) && OrdinalOrNone(suf)
    ensures CountRule(pre + ds + suf, today) == None
    ensures StripOrdinals(pre + ds + suf) == pre + ds
  {
    var s := pre + ds + suf;
    if suf == "" {
      assert s[|s| - 1] == ds[|ds| - 1];
    } else {
      assert s[|s| - 1] == suf[1];
    }
    LastCharNoCount(s, today);
    StripDayOrdinal(pre, ds, suf, "");
    assert s + "" == s && pre + ds + "" == pre + ds;
  }

  /**
   * "October 14th", "oct 14": a full or short month name and a day of that month (as in
   * 1970, so the 29th of February is refused in the model) give midnight of that day in the current year.
   */
  lemma MonthDayPhrase(input: string, names: seq<string>, m: int, d: nat, suf: string, nowMillis: int)
    requires names == FULL_MONTHS || names == SHORT_MONTHS
    requires 1 <= m <= 12 && 1 <= d <= DaysInMonth(1970, m)
    requires OrdinalOrNone(suf)
    requires Lower(input) == names[m - 1] + " " + NatToString(d) + suf
    ensures ParseDate(input, nowMillis) == Date(InstantOf(DateOf(nowMillis).year, m, d))
    ensures DateOf(InstantOf(DateOf(nowMillis).year, m, d)) == Civil(DateOf(nowMillis).year, m, d)
  {
    var name, ds := names[m - 1], NatToString(d);
    var year := DateOf(nowMillis).year;
    MonthLeads(names, m, " " + ds + suf);
    Associative(name, " " + ds, suf);
    Associative(name, " ", ds);
    MonthNoDigit(names, m);
    DayTextShape(name + " ", ds, suf, StartOfDay(nowMillis));
    MonthDayTemplate(names, m, d, DateOf(nowMillis));
    TemplatePhrase(input, nowMillis, InstantOf(year, m, d));
    assert DaysInMonth(1970, m) <= DaysInMonth(year, m);
    DateOfInstantOf(year, m, d);
  }

  /**
   * "1st", "20th", "14": a day number 1..31 gives that day of the current month and year;
   * a day past the month's end rolls over into the next month.
   */
  lemma DayOnlyPhrase(input: string, d: nat, suf: string, nowMillis: int)
    requires 1 <= d <= 31 && OrdinalOrNone(suf)
    requires Lower(input) == NatToString(d) + suf
    ensures var now := DateOf(nowMillis);
      ParseDate(input, nowMillis) == Date(InstantOf(now.year, now.month, d))
    ensures var now := DateOf(nowMillis);
      d <= DaysInMonth(now.year, now.month) ==> DateOf(InstantOf(now.year, now.month, d)) == Civil(now.year, now.month, d)
  {
    var ds := NatToString(d);
    var now := DateOf(nowMillis);
    OtherLeads(ds + suf);
    assert "" + ds + suf == ds + suf;
    DayTextShape("", ds, suf, StartOfDay(nowMillis));
    assert "" + ds == ds;
    DayOnlyTemplate(d, now);
    TemplatePhrase(input, nowMillis, InstantOf(now.year, now.month, d));
    if d <= DaysInMonth(now.year, now.month) {
      DateOfInstantOf(now.year, now.month, d);
    }
  }

  lemma OctoberText(rest: string)
    requires NoCapitals(rest)
    ensures Lower("O" + "ctober" + rest) == FULL_MONTHS[9] + rest
  {
    LowerCapital('O', "ctober" + rest);
    assert ['O'] + ("ctober" + rest) == "O" + "ctober" + rest;
    assert ['o'] + ("ctober" + rest) == "october" + rest;
  }

  /** "October 14th 2019" is midnight of 14 October 2019. */
  lemma October14th2019(nowMillis: int)
    ensures ParseDate("October 14th 2019", nowMillis) == Date(InstantOf(2019, 10, 14))
    ensures DateOf(InstantOf(2019, 10, 14)) == Civil(2019, 10, 14)
  {
    October14th2019Text();
    MonthDayYearPhrase("October 14th 2019", FULL_MONTHS, 10, 14, 2019, "th", nowMillis);
  }

  /** "oct 14 2019", with the short month name in the "MMMM dd yyyy" template, is the same date. */
  lemma Oct14_2019(nowMillis: int)
    ensures ParseDate("oct 14 2019", nowMillis) == Date(InstantOf(2019, 10, 14))
  {
    Oct14_2019Text();
    MonthDayYearPhrase("oct 14 2019", SHORT_MONTHS, 10, 14, 2019, "", nowMillis);
  }

  lemma Oct14_2019Text()
    ensures Lower("oct 14 2019") == SHORT_MONTHS[9] + " " + NatToString(14) + "" + " " + NatToString(2019)
    ensures 14 <= DaysInMonth(2019, 10)
  {
    assert NoCapitals("oct 14 2019");
    LowerNoCapitals("oct 14 2019");
    DateNumbersText();
    assert "oct 14 2019" == SHORT_MONTHS[9] + " " + "14" + "" + " " + "2019";
  }

  /** The day and year numbers of the 14 October 2019 examples, as `Integer.toString` writes them. */
  lemma DateNumbersText()
    ensures NatToString(14) == "14" && NatToString(2019) == "2019"
  {
  }

  lemma October14th2019Text()
    ensures Lower("October 14th 2019") == FULL_MONTHS[9] + " " + NatToString(14) + "th" + " " + NatToString(2019)
    ensures OrdinalOrNone("th") && 14 <= DaysInMonth(2019, 10)
  {
    OctoberText(" 14th 2019");
    assert "O" + "ctober" + " 14th 2019" == "October 14th 2019";
    DateNumbersText();
    assert " 14th 2019" == " " + "14" + "th" + " " + "2019";
    MonthTemplate(FULL_MONTHS[9], " 14th 2019", "14", "th", "2019");
  }

  /** A month name followed by the rest of a "<month> <day><suffix> <year>" template. */
  lemma MonthTemplate(month: string, rest: string, d: string, suf: string, y: string)
    requires rest == " " + d + suf + " " + y
    ensures month + rest == month + " " + d + suf + " " + y
  {
    assert month + rest == month + (" " + d + suf + " " + y);
  }

  /** "October 14" is midnight of 14 October of the current year. */
  lemma October14(nowMillis: int)
    ensures ParseDate("October 14", nowMillis) == Date(InstantOf(DateOf(nowMillis).year, 10, 14))
  {
    October14Text();
    MonthDayPhrase("October 14", FULL_MONTHS, 10, 14, "", nowMillis);
  }

  lemma October14Text()
    ensures Lower("October 14") == FULL_MONTHS[9] + " " + NatToString(14) + ""
    ensures OrdinalOrNone("") && 14 <= DaysInMonth(1970, 10)
  {
    OctoberText(" 14");
    assert "O" + "ctober" + " 14" == "October 14";
    assert NatToString(14) == "14";
    assert FULL_MONTHS[9] + " 14" == FULL_MONTHS[9] + " " + "14" + "";
  }

  /** "20th" is the 20th of the current month. */
  lemma TwentiethPhrase(nowMillis: int)
    ensures ParseDate("20th", nowMillis) == Date(InstantOf(DateOf(nowMillis).year, DateOf(nowMillis).month, 20))
  {
    assert NatToString(20) == "20";
    assert NoCapitals("20th");
    LowerNoCapitals("20th");
    assert "20th" == NatToString(20) + "th";
    DayOnlyPhrase("20th", 20, "th", nowMillis);
  }

  // ---------------------------------------------------------------------------
  // Date nouns and weekday names

  /** A single word: no space and no digit. */
  predicate OneWord(s: string)
  {
    forall i :: 0 <= i < |s| ==> s[i] != ' ' && !IsDigit(s[i])
  }

  lemma NotStartsWith(s: string, p: string, k: int)
    requires 0 <= k < |p| && (k >= |s| || s[k] != p[k])
    ensures !StartsWith(s, p)
  {
    assert |p| > |s| || s[..|p|][k] == s[k];
  }

  /** Each removed word ends in a space, so a single word starts with none of them. */
  lemma OneWordNoLeading(s: string)
    requires OneWord(s)
    ensures NoLeadingWord(s)
  {
    NotStartsWith(s, EXPIRES, 7);
    NotStartsWith(s, ON, 2);
    NotStartsWith(s, IN, 2);
    NotStartsWith(s, THE, 3);
  }

  /** Each unit and each half-week literal contains a space, so a single word is no count. */
  lemma OneWordNoCount(s: string, today: int)
    requires OneWord(s)
    ensures CountRule(s, today) == None
  {
    OneWordNoUnit(s, "day");
    OneWordNoUnit(s, "week");
    HalfLiteralsSpaced();
    assert |s| <= 3 || s[3] != ' ';
    assert |s| <= 4 || s[4] != ' ';
    NoCountRule(s, today);
  }

  lemma OneWordNoUnit(s: string, unit: string)
    requires OneWord(s)
    ensures UnitPrefix(s, unit) == None
  {
    var p, q := " " + unit, " " + unit + "s";
    if |s| >= |p| {
      assert p[0] == ' ';
      NotEndsWith(s, p, |p|);
    }
    if |s| >= |q| {
      assert q[0] == ' ';
      NotEndsWith(s, q, |q|);
    }
  }

  /** No template matches a single word. */
  lemma OneWordNoTemplate(s: string, now: Civil)
    requires OneWord(s) && 1 <= now.month <= 12
    ensures StripOrdinals(s) == s
    ensures Templates(s, now, 0) == None
  {
    StripOrdinalsSplitKeeps(s, "");
    assert s + "" == s;
    NoSpace(s);
    assert !Digits(s) by {
      assert s == [] || !IsDigit(s[0]);
    }
  }

  /** A phrase that is a single word is decided by the date nouns and the weekday names. */
  lemma OneWordPhrase(input: string, nowMillis: int)
    requires OneWord(Lower(input))
    ensures ParseDate(input, nowMillis) == NounOrWeekday(Lower(input), nowMillis)
  {
    var s := Lower(input);
    OneWordNoLeading(s);
    CleanLower(input);
    OneWordNoCount(s, StartOfDay(nowMillis));
    OneWordNoTemplate(s, DateOf(nowMillis));
  }

  /** "Today", "Tomorrow", "Yesterday": midnight of today, plus one day, minus one day. */
  lemma NounPhrase(input: string, nowMillis: int)
    requires Lower(input) in {"today", "tomorrow", "yesterday"}
    ensures var today := StartOfDay(nowMillis);
      ParseDate(input, nowMillis) == Date(
        if Lower(input) == "today" then today
        else if Lower(input) == "tomorrow" then DateAfterNumDays(today, 1)
        else DateAfterNumDays(today, -1))
  {
    NounWord(Lower(input), nowMillis);
    OneWordPhrase(input, nowMillis);
  }

  lemma NounWord(s: string, nowMillis: int)
    requires s in {"today", "tomorrow", "yesterday"}
    ensures OneWord(s)
    ensures var today := StartOfDay(nowMillis);
      NounOrWeekday(s, nowMillis) == Date(
        if s == "today" then today
        else if s == "tomorrow" then DateAfterNumDays(today, 1)
        else DateAfterNumDays(today, -1))
  {
  }

  /** No two weekday names are equal, and none is a date noun. */
  lemma WeekdayNamesDistinct()
    ensures forall i, j :: 0 <= i < 7 && 0 <= j < 7 && DOW_NAMES[i] == DOW_NAMES[j] ==> i == j
    ensures forall i :: 0 <= i < 7 ==> DOW_NAMES[i] !in {"today", "tomorrow", "yesterday"}
  {
    forall i, j | 0 <= i < j < 7 ensures DOW_NAMES[i] != DOW_NAMES[j] {
      assert |DOW_NAMES[i]| != |DOW_NAMES[j]| || DOW_NAMES[i][0] != DOW_NAMES[j][0];
    }
    forall i | 0 <= i < 7 ensures DOW_NAMES[i] !in {"today", "tomorrow", "yesterday"} {
      assert |DOW_NAMES[i]| != 5 && DOW_NAMES[i][0] != 'y' && (|DOW_NAMES[i]| != 8 || DOW_NAMES[i][1] != 'o');
    }
  }

  /**
   * "Monday" … "Sunday": the midnight of the first such weekday strictly after today, one to
   * seven days later, seven exactly when today is that weekday.
   */
  lemma WeekdayPhrase(input: string, k: int, nowMillis: int)
    requires 0 <= k < 7 && Lower(input) == DOW_NAMES[k]
    ensures ParseDate(input, nowMillis) == Date(FirstDayOfWeekFrom(k + 1, nowMillis))
    ensures var r := FirstDayOfWeekFrom(k + 1, nowMillis);
      && StartOfDay(r) == r
      && DayOfWeek(DayIndex(r)) == k + 1
      && 1 <= DayIndex(r) - DayIndex(nowMillis) <= 7
      && (DayIndex(r) - DayIndex(nowMillis) == 7 <==> DayOfWeek(DayIndex(nowMillis)) == k + 1)
  {
    WeekdayWord(k, nowMillis);
    OneWordPhrase(input, nowMillis);
    FirstDayOfWeekFromSpec(k + 1, nowMillis);
  }

  lemma WeekdayWord(k: int, nowMillis: int)
    requires 0 <= k < 7
    ensures OneWord(DOW_NAMES[k])
    ensures NounOrWeekday(DOW_NAMES[k], nowMillis) == Date(FirstDayOfWeekFrom(k + 1, nowMillis))
  {
    WeekdayNamesDistinct();
  }

  /** A single word that is neither a date noun nor a weekday name is no date. */
  lemma UnknownWordPhrase(input: string, nowMillis: int)
    requires OneWord(Lower(input))
    requires Lower(input) !in {"today", "tomorrow", "yesterday"} && Lower(input) !in DOW_NAMES
    ensures ParseDate(input, nowMillis) == Failure(NotADate)
  {
    OneWordPhrase(input, nowMillis);
  }

  /** A single word is a date exactly when it is a date noun or a weekday name. */
  lemma OneWordDate(input: string, nowMillis: int)
    requires OneWord(Lower(input))
    ensures ParseDate(input, nowMillis).Date? <==>
      Lower(input) in {"today", "tomorrow", "yesterday"} || Lower(input) in DOW_NAMES
  {
    OneWordPhrase(input, nowMillis);
  }

  /** The empty phrase is no date. */
  lemma EmptyPhrase(nowMillis: int)
    ensures ParseDate("", nowMillis) == Failure(NotADate)
  {
    UnknownWordPhrase("", nowMillis);
  }

  // ---------------------------------------------------------------------------
  // A count whose number words cannot be read

  lemma PointDaysCount(today: int)
    ensures CountRule("point days", today) == Some(Failure(IndexOutOfRange))
  {
    PointWord();
    DaysRule("point", " days", today);
    PointOnly();
  }

  lemma PointWord()
    ensures "point days" == "point" + " days"
    ensures !Contains("point", "day") && !Digits("point") && Word("point")
  {
    FirstCharAbsent("point", "day");
  }

  /** "point days": a word count whose words leave nothing to convert throws IndexOutOfBounds. */
  lemma PointDaysPhrase(nowMillis: int)
    ensures ParseDate("point days", nowMillis) == Failure(IndexOutOfRange)
  {
    OtherLeads("point days");
    CleanKeeps("point days");
    PointDaysCount(StartOfDay(nowMillis));
    CountDecides("point days", nowMillis);
  }

  /** "Today" is midnight of today. */
  lemma TodayPhrase(nowMillis: int)
    ensures ParseDate("Today", nowMillis) == Date(StartOfDay(nowMillis))
  {
    LowerCapital('T', "oday");
    assert ['T'] + "oday" == "Today" && ['t'] + "oday" == "today";
    NounPhrase("Today", nowMillis);
  }

  /** "Monday" is the midnight of the next Monday after today. */
  lemma MondayPhrase(nowMillis: int)
    ensures ParseDate("Monday", nowMillis) == Date(FirstDayOfWeekFrom(1, nowMillis))
  {
    LowerCapital('M', "onday");
    assert ['M'] + "onday" == "Monday" && ['m'] + "onday" == DOW_NAMES[0];
    WeekdayPhrase("Monday", 0, nowMillis);
  }
}
