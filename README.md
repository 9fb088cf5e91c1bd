# DevUtils core, modelled and verified in Dafny

This project models the date, number, string and form helpers of the DevUtils Android
library (Kotlin) and proves properties of them. The modelled parts are:

- **Dates** (`DateUtils`).
  - The day arithmetic on millisecond instants: start of day, days between instants,
    days after an instant, comparison, the next weekday after a date.
  - `formatDate`, which prints `[DOW, ][MONTH ]DAY[, YEAR]` with English names.
  - `parseDateFromString`, which reads an English date phrase through four steps:
    1. counts of days or weeks, written as digits or as English words (with halves and
       decimals);
    2. the templates `MMMM dd yyyy`, `MMMM dd`, `MMM dd` and `dd`, after removing ordinal
       suffixes;
    3. the nouns today, tomorrow and yesterday;
    4. the names of the weekdays.

    The phrase is lower-cased first, and the leading words `expires`, `on`, `in` and `the`
    are removed.
- **Numbers** (`NumberUtils`).
  - `convertEnglishWordsToDecimal`: words become a digit string, one three-digit group after
    another, plus digits after "point".
  - `convertIntToOrdinal`.
  - `getIntFrequencies`, which sorts the data in place, optionally fills the keys
    `0 .. limit-1` with zeros, then counts every element into an Android `SparseIntArray`.
  - `getHighestIntFrequency` and `getStartingPositiveIndex`.
- **Strings** (`StringUtils.toTitleCase`): the first non-space character of each word is
  title-cased.
- **Forms** (`EditTextFormChangedDetector` and `UiUtils.EditTextUtils.getStringsFromEditTexts`):
  a cache of trimmed field texts, compared with the fields' current texts.

## Structure

- `common.dfy`: `Option`.
- `text.dfy`: the Kotlin and Java string operations the core relies on, each as a function
  with its properties:
  - `toLowerCase`, `indexOf` and `trim { it <= ' ' }`;
  - `split` followed by `dropLastWhile`;
  - the tokens of `StringTokenizer`;
  - `Integer.toString` and `Integer.parseInt`.
- `calendar.dfy`: instants, days, weekdays, and the proleptic Gregorian calendar on day
  numbers, with both round trips proved.
- `date_format.dfy`: `formatDate`.
  - One method per `when` appends formatter elements.
  - A printer interprets the elements.
  - The result is proved equal to a layout function.
- `date_parser.dfy`: `parseDateFromString`.
  - Each step is a function, and the steps together give `ParseDate`.
  - Imperative methods follow the source's control flow: the reassigned `dateString`, the
    `while (true)` retry loop over the templates, and the loop over the weekdays. Each
    method is proved equal to its function.
- `date_parser_props.dfy`: what phrases resolve to.
  - The general rules: leading words are ignored; counts of days and of weeks; halves and
    decimals; each template; the nouns; the weekdays; single words.
  - Every kind of phrase in the repository's parser test.
- `number_words.dfy`: `convertEnglishWordsToDecimal`.
  - It is modelled as a function over the split pieces.
  - A method with the source's nested loops, and one method per token-count branch of the
    triplet classification, are proved equal to that function.
  - Also here: the group rules, the magnitude and "point" rules, worked examples, and
    `convertIntToOrdinal`.
- `frequencies.dfy`: `SparseIntArray` as sorted parallel key/value sequences.
  - `get`, `put` and `keyAt`.
  - `getIntFrequencies` as methods: an in-place insertion sort on the caller's array, the
    gap-filling loop, and the counting loop.
  - `getStartingPositiveIndex` and `getHighestIntFrequency` with their loops.
  - The counts are proved to be the multiplicities of the data.
- `title_case.dfy`: `toTitleCase` as a loop, proved against a character-wise definition.
- `form_detector.dfy`: the detector as a class whose field is the cached list.

The clock is a parameter, `nowMillis`: `DateTime()` and `System.currentTimeMillis()` both read
it. Errors are values:

- `ParseResult.Failure(NotADate)` is the final `IllegalArgumentException`.
- `Failure(BadNumber)` is a `NumberFormatException` from `parseInt` or `parseDouble`.
- `Failure(IndexOutOfRange)` is the `ArrayIndexOutOfBoundsException` that
  `convertEnglishWordsToDecimal` throws on an input with nothing to convert.
- `Formatted.BadArgument` is the `IllegalArgumentException` of `formatDate`.
- The `Option` result of `convertIntToOrdinal` is `None` where the source indexes its suffix
  table with a negative remainder.

The model keeps these behaviours exactly as the code has them:

- `convertEnglishWordsToDecimal` renders a lone teen word as four digits ("twelve" gives
  "0012", so "twelve days" is twelve days on). It does not recognise "nineteen" at all
  ("000"), because the teen table is scanned only over indices 0..8.
- The "half" week rule computes `7n` in wrapping `Int` arithmetic. It then adds
  `ceil(7n + 3.5)` with the `Double`-to-`Int` conversion, which saturates.
- In "X and a half weeks", the number ends where "and a" first occurs, so a word X that itself ends in "and" loses those letters ("thousand and a half weeks" reads "thous").
- `getHighestIntFrequency` reads `get(i)`, a lookup by key `i`, and not the value at index `i`.
- The scan start from `getStartingPositiveIndex` is never -1 and never past the last entry.
- `haveFieldsChanged` indexes the current list at every cached index. A cache longer than
  the current list fails unless a difference comes first.

## Model

| member | source | states |
|---|---|---|
| Calendar.StartOfDay | app/src/main/java/io/trod/devutils/java/DateUtils.kt:100-114 | the start of the day is a midnight (a multiple of a day's milliseconds) at or before the instant and less than a day before it |
| Calendar.StartOfDayIdempotent | app/src/main/java/io/trod/devutils/java/DateUtils.kt:100-114 | taking the start of day twice is taking it once; the start of day keeps the day number and is that day number times a day |
| Calendar.SameDay | app/src/main/java/io/trod/devutils/java/DateUtils.kt:100-114 | two instants have the same start of day exactly when they have the same day number |
| Calendar.NumDaysBetweenSpec | app/src/main/java/io/trod/devutils/java/DateUtils.kt:124-126 | `daysBetween` is the elapsed time in whole days rounded toward zero, for either order of the instants, and it changes sign when the arguments swap |
| Calendar.NumDaysBetweenMillis | app/src/main/java/io/trod/devutils/java/DateUtils.kt:140-145 | counting days between two instants after moving both to their start of day gives the difference of their day numbers |
| Calendar.DateAfterNumDaysSpec | app/src/main/java/io/trod/devutils/java/DateUtils.kt:179-181 | moving `plusDays` days on and counting the days back gives `plusDays`; the day number grows by `plusDays`; a midnight stays a midnight |
| Calendar.CompareTwoDatesDays | app/src/main/java/io/trod/devutils/java/DateUtils.kt:167-169 | an instant on a later day compares as later, and one that compares as the same or later is never on an earlier day |
| Calendar.DayOfWeekStep | app/src/main/java/io/trod/devutils/java/DateUtils.kt:346-351 | the day of the week (1 = Monday .. 7 = Sunday) repeats every 7 days and steps to the next weekday, Sunday to Monday, each day |
| Calendar.FirstDayOfWeekFromSpec | app/src/main/java/io/trod/devutils/java/DateUtils.kt:346-351 | for `dow` in 1..7 the result is a midnight falling on `dow`, 1 to 7 days after the start date's day, 7 exactly when the start date falls on `dow`, with no `dow` in between |
| Calendar.FromCivilOf | app/src/main/java/io/trod/devutils/java/DateUtils.kt:284-292 | the calendar date of a day number converts back to that day number |
| Calendar.CivilOfFromCivil | app/src/main/java/io/trod/devutils/java/DateUtils.kt:284-292 | a valid calendar date (day within its month, leap years included) converts to a day number that converts back to the same date |
| Calendar.CivilOfValid | app/src/main/java/io/trod/devutils/java/DateUtils.kt:284-292 | every day number has a valid calendar date: its day lies within its month's length |
| Calendar.DateOfInstantOf | app/src/main/java/io/trod/devutils/java/DateUtils.kt:284-292 | the midnight built from a valid year, month and day has exactly that date |
| DateFormat.FormatDate | app/src/main/java/io/trod/devutils/java/DateUtils.kt:45-75 | building the formatter element by element and printing it gives the documented layout `[DOW, ][MONTH ]DAY[, YEAR]`, or the error for the first argument of the wrong kind |
| DateFormat.AppendDow | app/src/main/java/io/trod/devutils/java/DateUtils.kt:54-60 | the day-of-week `when` accepts exactly none, short or full, and what it appends prints as the short or full English name and ", " |
| DateFormat.AppendMonth | app/src/main/java/io/trod/devutils/java/DateUtils.kt:61-67 | the month `when` accepts exactly none, short or full, and what it appends prints as the short or full English month name and a space |
| DateFormat.AppendYear | app/src/main/java/io/trod/devutils/java/DateUtils.kt:68-74 | the year `when` accepts exactly none, short or full, and what it appends prints as ", " and the year padded to 2 or 4 digits |
| DateFormat.FormatDateRejects | app/src/main/java/io/trod/devutils/java/DateUtils.kt:54-74 | `formatDate` throws exactly when a component of the wrong kind is passed, and a wrong `includeDow` is the one reported first |
| DateFormat.FormatDateDayOnly | app/src/main/java/io/trod/devutils/java/DateUtils.kt:39-75 | with no components the result is just the day of the month, unpadded, without a leading zero; it reads back as the day, which is valid for its month |
| DateFormat.FormatDateFull | app/src/main/java/io/trod/devutils/java/DateUtils.kt:45-75 | with full components the result is "Weekday, Month D, YYYY" with the English names of the date's weekday and month |
| DateFormat.PaddedIntSpec | app/src/main/java/io/trod/devutils/java/DateUtils.kt:70-71 | `appendYear(n, n)` prints a sign for a negative year and at least `n` digits whose value is the year's magnitude |
| DateParser.ParseDateFromString | app/src/main/java/io/trod/devutils/java/DateUtils.kt:192-335 | the method, which reassigns `dateString` while cleaning it and then tries the steps in order, returns what `ParseDate` specifies |
| DateParser.ReadDays | app/src/main/java/io/trod/devutils/java/DateUtils.kt:221-230 | a day count is today's midnight plus the number before "day", read by `Integer.parseInt` after an optional word conversion, or the conversion's or parse's error |
| DateParser.ReadWeeks | app/src/main/java/io/trod/devutils/java/DateUtils.kt:234-264 | a week count with a half adds `ceil(7n + 3.5)` days; any other week count adds `ceil(7x)` days for the `Double` x; the errors come from converting or parsing |
| DateParser.ReadCount | app/src/main/java/io/trod/devutils/java/DateUtils.kt:221-267 | the count rules are tried in source order: digit days, word days, digit weeks, word weeks, then the two half-week literals |
| DateParser.ReadTemplates | app/src/main/java/io/trod/devutils/java/DateUtils.kt:272-300 | the retry loop returns the first template that fits, in the order `MMMM dd yyyy`, `MMMM dd`, `MMM dd`, `dd`, or nothing after the fourth failure |
| DateParser.ReadNounOrWeekday | app/src/main/java/io/trod/devutils/java/DateUtils.kt:303-334 | today, tomorrow and yesterday, then the first weekday name that equals the phrase, else the final exception |
| DateParser.Wrap32 | app/src/main/java/io/trod/devutils/java/DateUtils.kt:242 | `Int` multiplication wraps modulo 2^32 into the 32-bit signed range: the result is in that range, differs from the exact value by a multiple of 2^32, and is exact for results inside the range |
| DateParser.Clamp32 | app/src/main/java/io/trod/devutils/java/DateUtils.kt:243 | `Double.toInt()` saturates at INT_MIN/INT_MAX: values above the range give INT_MAX, values below give INT_MIN, and values inside are exact |
| DateParser.Ceil | app/src/main/java/io/trod/devutils/java/DateUtils.kt:243 | `Math.ceil` gives the least whole number not below the value |
| DateParser.ParseInt32 | app/src/main/java/io/trod/devutils/java/DateUtils.kt:224 | `Integer.parseInt` accepts exactly the numerals whose value fits an `Int`, and gives that value |
| DateParser.MonthNumber | app/src/main/java/io/trod/devutils/java/DateUtils.kt:273-275 | a month text's number is the 1-based position of an equal name in the table, or 0 when no name equals it |
| DateParser.WeekdayFrom | app/src/main/java/io/trod/devutils/java/DateUtils.kt:321-331 | the weekday scan finds an index with an equal name, or -1 exactly when no remaining name equals the phrase |
| ParserProperties.CleanLeading | app/src/main/java/io/trod/devutils/java/DateUtils.kt:198-215 | a phrase led by any subset of "expires ", "on ", "in ", "the ", in that order and in any case, is cleaned to the rest of the phrase, lower-cased |
| ParserProperties.LeadingWordsIgnored | app/src/test/java/io/trod/devutils/DateUtilsTests.kt:85 | each of the test's prefixes ("Expires on ", "On the ", "In the " ...) does not change what a phrase resolves to |
| ParserProperties.DaysRule | app/src/main/java/io/trod/devutils/java/DateUtils.kt:221-230 | "X day(s)" counts X days when X is digits, counts the converted words when X is one word, and is no count otherwise |
| ParserProperties.DigitDaysPhrase | app/src/main/java/io/trod/devutils/java/DateUtils.kt:221-225 | "n day(s)" is today's midnight plus n days when n fits an `Int`, and a number-format failure otherwise |
| ParserProperties.WholeWeeksRule | app/src/main/java/io/trod/devutils/java/DateUtils.kt:234-264 | "X week(s)" for one word X is `ceil(7x)` days on, x being X read as a `Double`, directly or after the word conversion |
| ParserProperties.HalfWeeksRule | app/src/main/java/io/trod/devutils/java/DateUtils.kt:236-257 | "X and a half week(s)" and "X and a 1/2 week(s)", for any word X without "week", count `ceil(7n + 3.5)` days, n being X (less a final "and", which the source's `indexOf("and a")` cuts off) parsed as an `Int`, directly when X is all digits and after the word conversion otherwise |
| ParserProperties.TwoAndAHalfWeeksCount | app/src/main/java/io/trod/devutils/java/DateUtils.kt:236-257 | "two and a half weeks" counts eighteen days on |
| ParserProperties.DecimalWeeksRule | app/src/main/java/io/trod/devutils/java/DateUtils.kt:235-245 | "D?D week(s)", digits around any character but a line terminator, reads the whole text as a `Double` |
| ParserProperties.WordPointWeeksRule | app/src/main/java/io/trod/devutils/java/DateUtils.kt:249-263 | "A point B week(s)", for any words A and B without "week" where A does not start with a digit, is that many weeks on, the number being the word conversion of "A point B" read as a `Double` |
| ParserProperties.DigitWeeksPhrase | app/src/main/java/io/trod/devutils/java/DateUtils.kt:234-245 | "n week(s)" is 7n days on, saturated at the `Int` range |
| ParserProperties.HalfWeeksPhrase | app/src/main/java/io/trod/devutils/java/DateUtils.kt:236-243 | "n and a half week(s)" is `ceil(7n + 3.5)` days on in `Int` arithmetic, and a number-format failure beyond `Int` |
| ParserProperties.HalfWeeksDaysValue | app/src/main/java/io/trod/devutils/java/DateUtils.kt:242-243 | while `7n + 4` fits an `Int`, the half-week rule adds `ceil(7n + 3.5) = 7n + 4` days |
| ParserProperties.WeeksDaysWhole | app/src/main/java/io/trod/devutils/java/DateUtils.kt:245 | a whole number of weeks is seven days each, saturated at the `Int` range |
| ParserProperties.HalfAWeekCount | app/src/main/java/io/trod/devutils/java/DateUtils.kt:265-267 | the literals "half a week" and "1/2 a week" count four days: no earlier rule takes them |
| ParserProperties.HalfAWeekPhrase | app/src/main/java/io/trod/devutils/java/DateUtils.kt:265-267 | "Half a week" and "1/2 a week" are today's midnight plus four days |
| ParserProperties.PointDaysPhrase | app/src/main/java/io/trod/devutils/java/DateUtils.kt:226-229 | "point days" matches the worded day rule, and the conversion has nothing to read: an index-out-of-bounds failure |
| ParserProperties.TenDaysPhrase | app/src/test/java/io/trod/devutils/DateUtilsTests.kt:66 | "Ten days" is today's midnight plus ten days |
| ParserProperties.OneDayPhrase | app/src/test/java/io/trod/devutils/DateUtilsTests.kt:64 | "One day" is today's midnight plus one day |
| ParserProperties.TwoWeeksPhrase | app/src/test/java/io/trod/devutils/DateUtilsTests.kt:73 | "Two weeks" is today's midnight plus 14 days |
| ParserProperties.FractionWeeksPhrase | app/src/test/java/io/trod/devutils/DateUtilsTests.kt:76 | "1.5 weeks" is today's midnight plus 11 days |
| ParserProperties.OnePointFiveWeeksPhrase | app/src/test/java/io/trod/devutils/DateUtilsTests.kt:77 | "One point five weeks" is today's midnight plus 11 days |
| ParserProperties.OneAndAHalfWeeksPhrase | app/src/test/java/io/trod/devutils/DateUtilsTests.kt:79 | "One and a half weeks" is today's midnight plus 11 days |
| ParserProperties.StripOrdinalsKeeps | app/src/main/java/io/trod/devutils/java/DateUtils.kt:286 | the ordinal replacement keeps a string in which no lower-case letter follows a digit |
| ParserProperties.StripOrdinalAfter | app/src/main/java/io/trod/devutils/java/DateUtils.kt:286 | an ordinal suffix right after digits is removed, and nothing else is |
| ParserProperties.StripDayOrdinal | app/src/main/java/io/trod/devutils/java/DateUtils.kt:286 | after a day number an optional st/nd/rd/th is removed and the rest is kept |
| ParserProperties.MonthNamesDistinct | app/src/main/java/io/trod/devutils/java/DateUtils.kt:273-275 | no two names of the full or of the short month table are equal |
| ParserProperties.MonthNumberOf | app/src/main/java/io/trod/devutils/java/DateUtils.kt:273-275 | each month name of a table reads as its own month number |
| ParserProperties.ShortNotFull | app/src/main/java/io/trod/devutils/java/DateUtils.kt:273-275 | in the model's tables, a short month name is also a full name only for May, so every other short name is found in the short table |
| DateParser.MonthOf | app/src/main/java/io/trod/devutils/java/DateUtils.kt:273-275 | the month a `MMMM` or `MMM` field reads is one whose full or short name is the word, and no month is read from any other word |
| ParserProperties.MonthOfName | app/src/main/java/io/trod/devutils/java/DateUtils.kt:273-275 | under `MMMM` as under `MMM`, the full and the short name of a month both read as that month |
| ParserProperties.MonthDayYearTemplate | app/src/main/java/io/trod/devutils/java/DateUtils.kt:273 | "month d yyyy", with a full or short month name, a Gregorian year (from 1583) and a day valid in that month, is the first template's midnight of that date |
| ParserProperties.MonthDayTemplate | app/src/main/java/io/trod/devutils/java/DateUtils.kt:274-291 | "month d", full or short, is that day in the current year |
| ParserProperties.DayOnlyTemplate | app/src/main/java/io/trod/devutils/java/DateUtils.kt:276-291 | "d" with d in 1..31 is that day of the current month and year |
| ParserProperties.TemplatePhrase | app/src/main/java/io/trod/devutils/java/DateUtils.kt:269-300 | a phrase with no leading removed word that is no count is decided by the templates |
| ParserProperties.MonthDayYearPhrase | app/src/main/java/io/trod/devutils/java/DateUtils.kt:273-292 | "Month d[st/nd/rd/th] yyyy", full or short, in any case and in a Gregorian year (from 1583), is midnight of that date, and that midnight has exactly that date |
| ParserProperties.MonthDayPhrase | app/src/main/java/io/trod/devutils/java/DateUtils.kt:274-292 | "Month d[suffix]", full or short, is midnight of that day in the current year |
| ParserProperties.DayOnlyPhrase | app/src/main/java/io/trod/devutils/java/DateUtils.kt:276-292 | "d[suffix]" is that day of the current month, and it has exactly that date when the month has that many days |
| ParserProperties.October14th2019 | app/src/test/java/io/trod/devutils/DateUtilsTests.kt:45 | "October 14th 2019" is midnight of 14 October 2019 |
| ParserProperties.Oct14_2019 | app/src/main/java/io/trod/devutils/java/DateUtils.kt:273 | "oct 14 2019", a short name under `MMMM`, is midnight of 14 October 2019 |
| ParserProperties.October14 | app/src/test/java/io/trod/devutils/DateUtilsTests.kt:46 | "October 14" is midnight of 14 October of the current year |
| ParserProperties.TwentiethPhrase | app/src/test/java/io/trod/devutils/DateUtilsTests.kt:52 | "20th" is the 20th of the current month |
| ParserProperties.LastCharNoCount | app/src/main/java/io/trod/devutils/java/DateUtils.kt:221-267 | a phrase whose last character is not 'y', 's' or 'k' is no count |
| ParserProperties.OneWordNoCount | app/src/main/java/io/trod/devutils/java/DateUtils.kt:221-267 | a single word (no space, no digit) is no count |
| ParserProperties.OneWordNoTemplate | app/src/main/java/io/trod/devutils/java/DateUtils.kt:272-300 | a single word loses nothing to the ordinal replacement and fits no template |
| ParserProperties.OneWordPhrase | app/src/main/java/io/trod/devutils/java/DateUtils.kt:302-334 | a single word is decided by the date nouns and the weekday names alone |
| ParserProperties.NounPhrase | app/src/main/java/io/trod/devutils/java/DateUtils.kt:303-309 | today, tomorrow and yesterday, in any case, are today's midnight, plus one day and minus one day |
| ParserProperties.WeekdayNamesDistinct | app/src/main/java/io/trod/devutils/java/DateUtils.kt:312-331 | the seven weekday names are distinct and none is a date noun |
| ParserProperties.WeekdayPhrase | app/src/main/java/io/trod/devutils/java/DateUtils.kt:321-330 | a weekday name is the next such weekday strictly after today: a midnight on that weekday, 1 to 7 days on, 7 exactly when today is that weekday |
| ParserProperties.UnknownWordPhrase | app/src/main/java/io/trod/devutils/java/DateUtils.kt:333-334 | a single word that is neither a date noun nor a weekday is no date |
| ParserProperties.OneWordDate | app/src/main/java/io/trod/devutils/java/DateUtils.kt:302-334 | a single word is a date exactly when it is a date noun or a weekday name |
| ParserProperties.EmptyPhrase | app/src/main/java/io/trod/devutils/java/DateUtils.kt:333-334 | the empty phrase is no date |
| ParserProperties.TodayPhrase | app/src/test/java/io/trod/devutils/DateUtilsTests.kt:42 | "Today" is today's midnight |
| ParserProperties.MondayPhrase | app/src/test/java/io/trod/devutils/DateUtilsTests.kt:53 | "Monday" is the next Monday after today, as `getFirstDayOfWeekDateFromStartDate` gives it |
| NumberWords.ConvertEnglishWordsToDecimal | app/src/main/java/io/trod/devutils/android/NumberUtils.kt:75-190 | the nested loops over million groups, thousand groups and the tokens after "point" build the digit string `WordsToDecimal` specifies |
| NumberWords.GroupTriplet | app/src/main/java/io/trod/devutils/android/NumberUtils.kt:84-162 | the triplet of a group is chosen by its token count, and is all zero for no token or five or more |
| NumberWords.OneTokenTriplet | app/src/main/java/io/trod/devutils/android/NumberUtils.kt:87-102 | the scan over the tables classifies one token as a ones, tens or teen word, with the later table winning, as the source's overwrites do |
| NumberWords.HundredTriplet | app/src/main/java/io/trod/devutils/android/NumberUtils.kt:106-113 | "w hundred" sets the hundreds from the ones word w |
| NumberWords.TensOnesTriplet | app/src/main/java/io/trod/devutils/android/NumberUtils.kt:114-124 | two other tokens give the tens of the first and the ones of the second |
| NumberWords.ThreeTokenTriplet | app/src/main/java/io/trod/devutils/android/NumberUtils.kt:125-141 | three tokens give the hundreds of the first, and the ones or the tens of the third |
| NumberWords.FourTokenTriplet | app/src/main/java/io/trod/devutils/android/NumberUtils.kt:142-157 | four tokens give the hundreds of the first, the tens of the third and the ones of the fourth |
| NumberWords.ReadFractionToken | app/src/main/java/io/trod/devutils/android/NumberUtils.kt:173-185 | a token after "point" appends "0" for zero/oh and its digit for a ones word |
| NumberWords.TablesDisjoint | app/src/main/java/io/trod/devutils/android/NumberUtils.kt:29-62 | no word belongs to two of the ones, tens and teens tables |
| NumberWords.SingleTokenGroup | app/src/main/java/io/trod/devutils/android/NumberUtils.kt:87-102 | a lone ones word gives "00d", a tens word "0d0", a teen word below nineteen "00" and its two digits, and any other word, "nineteen" included, gives "000" |
| NumberWords.TwoTokenGroup | app/src/main/java/io/trod/devutils/android/NumberUtils.kt:103-124 | "w hundred" gives "d00"; two other tokens give "0", the tens digit and the ones digit |
| NumberWords.ThreeTokenGroup | app/src/main/java/io/trod/devutils/android/NumberUtils.kt:125-141 | three tokens give the hundreds digit then "0d" or "d0"; the middle token is never read |
| NumberWords.FourTokenGroup | app/src/main/java/io/trod/devutils/android/NumberUtils.kt:142-157 | four tokens give the digits of the first, third and fourth tokens |
| NumberWords.OtherTokenCountGroup | app/src/main/java/io/trod/devutils/android/NumberUtils.kt:158-162 | a group with no token or with five or more gives "000" |
| NumberWords.WithoutPoint | app/src/main/java/io/trod/devutils/android/NumberUtils.kt:77-78 | a nonempty input without "point" is convertible and has no fraction |
| NumberWords.ThousandsJoined | app/src/main/java/io/trod/devutils/android/NumberUtils.kt:81-166 | groups joined by "thousand" give each group's digits in order; trailing empty groups give nothing |
| NumberWords.MillionsJoined | app/src/main/java/io/trod/devutils/android/NumberUtils.kt:78-167 | groups joined by "million" give each group's digits in order; trailing empty groups give nothing |
| NumberWords.PointJoined | app/src/main/java/io/trod/devutils/android/NumberUtils.kt:169-187 | "a point b" is the digits of a, a '.', and one digit per zero/oh/ones token of b |
| NumberWords.SecondPointIgnored | app/src/main/java/io/trod/devutils/android/NumberUtils.kt:77-170 | a second "point" and all that follows it are ignored |
| NumberWords.PointOnly | app/src/main/java/io/trod/devutils/android/NumberUtils.kt:77-78 | "point" alone leaves no piece to read, so the conversion fails |
| NumberWords.TrailingPoint | app/src/main/java/io/trod/devutils/android/NumberUtils.kt:77 | a "point" with nothing after it adds no '.' |
| NumberWords.WordsToDecimalShape | app/src/main/java/io/trod/devutils/android/NumberUtils.kt:75-190 | the result is digits with at most one '.', and it has a '.' exactly when there is text after a "point" |
| NumberWords.OneGroup | app/src/main/java/io/trod/devutils/android/NumberUtils.kt:77-85 | an input free of every magnitude word is a single group |
| NumberWords.ExampleOne | app/src/main/java/io/trod/devutils/android/NumberUtils.kt:91-94 | "one" gives "001" |
| NumberWords.ExampleTwo | app/src/main/java/io/trod/devutils/android/NumberUtils.kt:91-94 | "two" gives "002" |
| NumberWords.ExampleOnePointTwo | app/src/main/java/io/trod/devutils/android/NumberUtils.kt:169-185 | "one point two" gives "001.2" |
| NumberWords.ExampleTen | app/src/main/java/io/trod/devutils/android/NumberUtils.kt:99-101 | "ten" gives "0010" |
| NumberWords.ExampleTwelve | app/src/main/java/io/trod/devutils/android/NumberUtils.kt:99-101 | "twelve" gives "0012" |
| NumberWords.ExampleHundredTwentyThree | app/src/main/java/io/trod/devutils/android/NumberUtils.kt:142-157 | "one hundred twenty three" gives "123" |
| NumberWords.ExampleOnePointFive | app/src/main/java/io/trod/devutils/android/NumberUtils.kt:169-185 | "one point five" gives "001.5" |
| NumberWords.ExampleOneThousand | app/src/main/java/io/trod/devutils/android/NumberUtils.kt:81 | a trailing "thousand" adds no group: "one thousand" gives "001" |
| NumberWords.ConvertIntToOrdinal | app/src/main/java/io/trod/devutils/android/NumberUtils.kt:204-209 | the conversion fails exactly for a negative number whose last digit is not 0 (the suffix table indexed with a negative remainder) |
| NumberWords.OrdinalSuffix | app/src/main/java/io/trod/devutils/android/NumberUtils.kt:204-209 | the result is the number, reading back as `i`, followed by "th" for 11..13 mod 100, otherwise by "st", "nd" or "rd" for a last digit 1, 2, 3, and "th" for the rest and for negative numbers |
| Frequencies.GetIntFrequencies | app/src/main/java/io/trod/devutils/android/NumberUtils.kt:234-274 | the caller's array ends up sorted and a permutation of its old contents; the table returned is `FrequencyTable` of the data |
| Frequencies.SortAscending | app/src/main/java/io/trod/devutils/android/NumberUtils.kt:237 | `Arrays.sort` leaves the array sorted and a permutation of its old contents |
| Frequencies.FillGaps | app/src/main/java/io/trod/devutils/android/NumberUtils.kt:239-245 | the gap loop builds the array with exactly the keys `0 .. limit-1`, each holding 0 |
| Frequencies.CountElements | app/src/main/java/io/trod/devutils/android/NumberUtils.kt:246-261 | the counting loop over the data gives `CountInto` of the data, in order, from the starting table |
| Frequencies.FrequencyTableSpec | app/src/main/java/io/trod/devutils/android/NumberUtils.kt:216-274 | a key is present exactly when it occurs in the data or is a filled gap; its value is its number of occurrences, or 0 for a gap alone |
| Frequencies.EmptyWithoutGaps | app/src/main/java/io/trod/devutils/android/NumberUtils.kt:221 | empty data without gap filling gives an empty array |
| Frequencies.FrequencyTableOrderFree | app/src/main/java/io/trod/devutils/android/NumberUtils.kt:237 | the table depends only on the multiset of the data, so sorting first changes nothing |
| Frequencies.GapsSpec | app/src/main/java/io/trod/devutils/android/NumberUtils.kt:240-244 | the gap-filled array has exactly the keys `0 .. limit-1`, each with value 0 |
| Frequencies.CountOneSpec | app/src/main/java/io/trod/devutils/android/NumberUtils.kt:247-260 | one counting step adds a missing element with count 1 or raises its stored count by 1, and keeps every other key and value |
| Frequencies.CountIntoSpec | app/src/main/java/io/trod/devutils/android/NumberUtils.kt:246-261 | after counting, the keys are the old keys and the data's elements, and each value is the old value plus the element's occurrences |
| Frequencies.GetPut | app/src/main/java/io/trod/devutils/android/NumberUtils.kt:243 | after `put(k, v)`, `get(k)` is v and every other key reads as before |
| Frequencies.GetAbsent | app/src/main/java/io/trod/devutils/android/NumberUtils.kt:247-250 | `get` of a missing key is the default given |
| Frequencies.GetStartingPositiveIndex | app/src/main/java/io/trod/devutils/android/NumberUtils.kt:315-326 | the loop with its self-raising limit returns `StartingPositiveIndex` |
| Frequencies.StartingPositiveIndexSpec | app/src/main/java/io/trod/devutils/android/NumberUtils.kt:305-326 | the index is never -1 and never past the last entry; every earlier key is negative; with a positive limit it is the first non-negative key unless it is the last entry |
| Frequencies.GetHighestIntFrequency | app/src/main/java/io/trod/devutils/android/NumberUtils.kt:286-303 | the start index and scan give `HighestIntFrequency` |
| Frequencies.ScanHighest | app/src/main/java/io/trod/devutils/android/NumberUtils.kt:296-301 | the loop from `highest = 0` gives the largest of 0 and `get(i)` over the scanned indices |
| Frequencies.HighestFromSpec | app/src/main/java/io/trod/devutils/android/NumberUtils.kt:296-301 | the scan's result bounds every `get(i)` scanned and is 0 or one of them |
| Frequencies.HighestIntFrequencySpec | app/src/main/java/io/trod/devutils/android/NumberUtils.kt:276-303 | the highest frequency is at least 0, bounds every `get(i)` from the start index on and is 0 or one of them; with negative keys included or unsorted data the scan starts at 0 |
| Text.TrimSpec | app/src/main/java/io/trod/devutils/android/UiUtils.kt:54 | `trim { it <= ' ' }` returns an infix whose ends are kept characters, or nothing when every character is trimmed |
| Text.TrimIdempotent | app/src/main/java/io/trod/devutils/android/UiUtils.kt:54 | trimming twice is trimming once |
| Text.SplitJoin | app/src/main/java/io/trod/devutils/android/NumberUtils.kt:77 | joining the pieces of a split with the separator gives back the input |
| Text.SplitPiecesFree | app/src/main/java/io/trod/devutils/android/NumberUtils.kt:77 | no piece of a split contains the separator |
| Text.SplitOfJoin | app/src/main/java/io/trod/devutils/android/NumberUtils.kt:77-81 | splitting inverts joining when no piece holds a self-overlap-free separator |
| Text.DropTrailingEmpty | app/src/main/java/io/trod/devutils/android/NumberUtils.kt:77 | `dropLastWhile { it.isEmpty() }` keeps a prefix whose last piece is nonempty and drops only empty pieces |
| Text.TokensOfJoin | app/src/main/java/io/trod/devutils/android/NumberUtils.kt:85 | words joined by single spaces tokenise back into the same words |
| Text.TokensOfPadded | app/src/main/java/io/trod/devutils/android/NumberUtils.kt:85 | a token surrounded by delimiters is the only token |
| Text.NatToStringValue | app/src/main/java/io/trod/devutils/android/NumberUtils.kt:164-165 | the digits `Integer.toString` writes read back as the number |
| Text.ParseIntToString | app/src/main/java/io/trod/devutils/java/DateUtils.kt:224 | `Integer.parseInt` inverts `Integer.toString` |
| Text.ParseIntDefined | app/src/main/java/io/trod/devutils/java/DateUtils.kt:224 | `parseInt`'s numeral grammar: exactly an optional sign followed by at least one ASCII digit is read, as an unbounded `int`; the `Int` range check is `DateParser.ParseInt32` |
| Text.IndexOf | app/src/main/java/io/trod/devutils/java/DateUtils.kt:223 | `indexOf` gives the first occurrence, or -1 when there is none |
| TitleCase.TitleChar | app/src/main/java/io/trod/devutils/java/StringUtils.kt:41 | `Character.toTitleCase` maps a lower-case ASCII letter to its upper-case letter and keeps every other character |
| TitleCase.ToTitleCase | app/src/main/java/io/trod/devutils/java/StringUtils.kt:32-47 | the loop with its "capitalise next" flag builds `TitleCased` of the input |
| TitleCase.TitleCasedSpec | app/src/main/java/io/trod/devutils/java/StringUtils.kt:32-47 | same length; space characters copied; a word's first non-space character title-cased; every other character copied |
| TitleCase.TitleCasedSplit | app/src/main/java/io/trod/devutils/java/StringUtils.kt:38-42 | title-casing works word by word: a space character separates the two sides |
| TitleCase.TitleCasedIdempotent | app/src/main/java/io/trod/devutils/java/StringUtils.kt:32-47 | title-casing twice is title-casing once |
| FormDetector.GetStringsFromEditTexts | app/src/main/java/io/trod/devutils/android/UiUtils.kt:51-57 | the loop builds the list of trimmed texts, in order |
| FormDetector.TrimmedTextsAt | app/src/main/java/io/trod/devutils/android/UiUtils.kt:51-57 | each entry is the trimmed text of the field at the same index |
| FormDetector.ChangedFromSpec | app/src/main/java/io/trod/devutils/android/EditTextFormChangedDetector.kt:39-46 | with at least as many current strings as cached ones, the scan answers whether some remaining cached index holds a different string |
| FormDetector.FieldsChangedSpec | app/src/main/java/io/trod/devutils/android/EditTextFormChangedDetector.kt:37-47 | fields have changed exactly when some cached index holds a different current string |
| FormDetector.ChangedFromPrefix | app/src/main/java/io/trod/devutils/android/EditTextFormChangedDetector.kt:39-46 | current fields beyond the cache's length never affect the answer |
| FormDetector.ChangedFromShort | app/src/main/java/io/trod/devutils/android/EditTextFormChangedDetector.kt:41 | with fewer current strings than cached ones, the answer is true at an earlier difference and an index failure otherwise |
| FormDetector.FieldsChangedSelf | app/src/main/java/io/trod/devutils/android/EditTextFormChangedDetector.kt:49-54 | a cache compared with itself has no change |
| FormDetector.FormChangedDetector.constructor | app/src/main/java/io/trod/devutils/android/EditTextFormChangedDetector.kt:27-30 | by default the cache is the fields' trimmed texts |
| FormDetector.FormChangedDetector.WithCache | app/src/main/java/io/trod/devutils/android/EditTextFormChangedDetector.kt:27-30 | an explicit `_cachedStrings` is stored as given |
| FormDetector.FormChangedDetector.HaveFieldsChanged | app/src/main/java/io/trod/devutils/android/EditTextFormChangedDetector.kt:37-47 | the loop returns `FieldsChanged` of the cache and the current trimmed texts, and leaves the cache unchanged |
| FormDetector.FormChangedDetector.UpdateCachedFields | app/src/main/java/io/trod/devutils/android/EditTextFormChangedDetector.kt:52-54 | the cache becomes the current trimmed texts |
| FormDetector.CheckAfterUpdate | app/src/main/java/io/trod/devutils/android/EditTextFormChangedDetector.kt:49-54 | right after an update, unchanged fields report no change |

## Left out

- Timber logging, `@JvmStatic` overloads that only forward (`formatDate(Long, …)`), and the Android UI helpers of `UiUtils` other than `getStringsFromEditTexts`: they compute nothing the core relies on.
- Time zones: every `DateTime` is taken in UTC, so "midnight" is a multiple of 86 400 000 ms. The clock is the parameter `nowMillis`.
- Calendar: Joda's ISO chronology is modelled as the proleptic Gregorian calendar on unbounded day numbers. The 64-bit range of `Long` milliseconds, and the overflow of `plusDays` near it, are not modelled; nor is the `ArithmeticException` that `Days.daysBetween` (through `safeToInt`) throws once the day count leaves the `Int` range (dates more than 2^31 days apart): `NumDaysBetween` returns an unbounded `int`.
- DateParser.Templates: `SimpleDateFormat` is modelled as a strict whole-string template with English month names (`MMMM` and `MMM` alike accept the full and the three-letter names, full names tried first) and decimal day and year fields. Its leniency (month and day rollover beyond the ranges, such as day 0 or day 40) and its parsing of a prefix while ignoring trailing text are not modelled. The second template's day is checked against 1970, the year the formatter defaults to, before the current year is set.
- DateParser.MonthDayYear: the model computes every year on the proleptic Gregorian calendar. The source's `GregorianCalendar` is Julian before 15 October 1582 ("october 14 1500" is ISO 1500-10-24 there), so the first template's dates before that cut-over are not modelled; `MonthDayYearTemplate` and `MonthDayYearPhrase` state their dates only from 1583 on.
- Text.ParseInt: it is `Integer.parseInt`'s grammar on unbounded integers; the `NumberFormatException` for numerals outside `Int` is added by `DateParser.ParseInt32`, which the day and week counts go through (the exponent of `DateParser.ParseDouble` uses the grammar alone, as `Double.parseDouble` does). Non-ASCII digits, which `Character.digit` would also accept, are not modelled; the parser's ASCII `\d` guards keep them away from it.
- DateParser.Clean: `toLowerCase` is modelled on ASCII letters only, in the default locale's English behaviour; no Unicode case mapping.
- DateParser.ParseDouble: `Double.parseDouble` is modelled with exact rational values on decimal numerals with an optional exponent. Rounding to binary doubles, hexadecimal literals, "NaN", "Infinity" and the type suffixes `d`/`f` are not modelled.
- DateParser.Before: `substring(0, indexOf(p))` is total in the model (the whole string when `p` is absent); every caller has already matched a pattern containing `p`, so the source never reaches that case.
- NumberWords.ConvertEnglishWordsToDecimal: requires `Convertible`; on an input that is empty or made only of "point" words the source throws (`decimal[0]` of an empty list), and the model carries that exception in the parser as `Failure(IndexOutOfRange)` (`NumberText`).
- DateFormat.PaddedInt: Joda's `appendYear(2, 2)` pads to two digits and does not truncate (2019 prints as "2019"); the model does the same.
- TitleCase.TitleChar: `Character.toTitleCase` is modelled on ASCII lower-case letters only; other characters are copied.
- FormDetector.FormChangedDetector: the `EditText` list is not stored; each call receives the fields' current texts, which is what the source reads from them.
- FormDetector.FormChangedDetector.UpdateCachedFields: its documentation says a later `haveFieldsChanged()` returns true; the code returns false for unchanged fields, and the model follows the code (`CheckAfterUpdate`).
- Frequencies.SortAscending: `Arrays.sort` (a dual-pivot quicksort) is modelled by an insertion sort with the same result: sorted and a permutation.
- Frequencies.GetIntFrequencies: the two identical gap-filling loops of the source (non-empty and empty data) are one method, `FillGaps`.
- Frequencies.GetStartingPositiveIndex: its final `-1` branch is unreachable (the index never exceeds the size); the model keeps the test and proves the result is never -1.
