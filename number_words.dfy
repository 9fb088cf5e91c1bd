/**
 * `NumberUtils.convertEnglishWordsToDecimal` and `NumberUtils.convertIntToOrdinal`.
 *
 * A worded number is split on "point", the part before it on "million", each
 * million group on "thousand"; every group is tokenised and classified by its
 * token count into a hundreds/tens/ones triplet, and the triplets' decimal
 * renderings are concatenated. The part after "point" contributes one digit
 * per "zero"/"oh" or ones word.
 */
module NumberWords {
  import opened Common
  import opened Text

  const DIGITS: seq<string> := ["one", "two", "three", "four", "five", "six", "seven", "eight", "nine"]
  /** Index 0 is `null` in the source: no token equals it. */
  const TENS: seq<Option<string>> :=
    [None, Some("twenty"), Some("thirty"), Some("forty"), Some("fifty"),
     Some("sixty"), Some("seventy"), Some("eighty"), Some("ninety")]
  const TEENS: seq<string> :=
    ["ten", "eleven", "twelve", "thirteen", "fourteen", "fifteen", "sixteen", "seventeen", "eighteen", "nineteen"]
  const HUNDRED: string := "hundred"
  const THOUSAND: string := "thousand"
  const MILLION: string := "million"
  const POINT: string := "point"
  const ZERO: seq<string> := ["zero", "oh"]

  // ---------------------------------------------------------------------------
  // Table lookups

  /** The index `k` with `DIGITS[k] == w`, or -1. */
  function OnesIndex(w: string): (k: int)
    ensures -1 <= k < |DIGITS|
    ensures forall j :: 0 <= j < |DIGITS| ==> (DIGITS[j] == w <==> j == k)
  {
    if w == "one" then 0 else if w == "two" then 1 else if w == "three" then 2
    else if w == "four" then 3 else if w == "five" then 4 else if w == "six" then 5
    else if w == "seven" then 6 else if w == "eight" then 7 else if w == "nine" then 8 else -1
  }

  /** The index `k` with `TEENS[k] == w`, or -1. */
  function TeenIndex(w: string): (k: int)
    ensures -1 <= k < |TEENS|
    ensures forall j :: 0 <= j < |TEENS| ==> (TEENS[j] == w <==> j == k)
  {
    if w == "ten" then 0 else if w == "eleven" then 1 else if w == "twelve" then 2
    else if w == "thirteen" then 3 else if w == "fourteen" then 4 else if w == "fifteen" then 5
    else if w == "sixteen" then 6 else if w == "seventeen" then 7 else if w == "eighteen" then 8
    else if w == "nineteen" then 9 else -1
  }

  /** The index `k` with `TENS[k] == Some(w)`, or -1. */
  function TensIndex(w: string): (k: int)
    ensures -1 <= k < |TENS|
    ensures forall j :: 0 <= j < |TENS| ==> (TENS[j] == Some(w) <==> j == k)
  {
    if w == "twenty" then 1 else if w == "thirty" then 2 else if w == "forty" then 3
    else if w == "fifty" then 4 else if w == "sixty" then 5 else if w == "seventy" then 6
    else if w == "eighty" then 7 else if w == "ninety" then 8 else -1
  }

  /** The digit a ones word stands for, or 0 for any other word. */
  function Ones(w: string): (d: nat)
    ensures d <= 9 && (d > 0 <==> w in DIGITS)
    ensures d > 0 ==> DIGITS[d - 1] == w
  {
    OnesIndex(w) + 1
  }

  /** The tens digit a tens word ("twenty" .. "ninety") stands for, or 0. */
  function Tens(w: string): (d: nat)
    ensures 2 <= d <= 9 || d == 0
  {
    TensIndex(w) + 1
  }

  /**
   * The value of a teen word as the one-token loop reads it: "ten" .. "eighteen"
   * give 10 .. 18; the loop runs over the indices of DIGITS only, so "nineteen"
   * (index 9) and every other word give 0.
   */
  function Teen(w: string): (v: nat)
  {
    var k := TeenIndex(w);
    if 0 <= k < |DIGITS| then k + 10 else 0
  }

  /** No word belongs to two of the tables, and each table lists distinct words. */
  lemma TablesDisjoint(w: string)
    ensures OnesIndex(w) >= 0 ==> TensIndex(w) < 0 && TeenIndex(w) < 0
    ensures TensIndex(w) >= 0 ==> TeenIndex(w) < 0
  {
  }

  // ---------------------------------------------------------------------------
  // Triplets

  /** One three-digit group: hundreds, tens and ones; `ones` reaches 18 for a teen word. */
  datatype Triplet = Triplet(hundreds: nat, tens: nat, ones: nat)

  /** The triplet a group with tokens `ts` is classified into, by token count. */
  function TripletOf(ts: seq<string>): Triplet
  {
    if |ts| == 1 then
      var u := ts[0];
      if Ones(u) > 0 then Triplet(0, 0, Ones(u))
      else if Tens(u) > 0 then Triplet(0, Tens(u), 0)
      else Triplet(0, 0, Teen(u))
    else if |ts| == 2 then
      if ts[1] == HUNDRED then Triplet(Ones(ts[0]), 0, 0)
      else Triplet(0, Tens(ts[0]), Ones(ts[1]))
    else if |ts| == 3 then
      var last := ts[2];
      if Ones(last) > 0 then Triplet(Ones(ts[0]), 0, Ones(last))
      else Triplet(Ones(ts[0]), Tens(last), 0)
    else if |ts| == 4 then Triplet(Ones(ts[0]), Tens(ts[2]), Ones(ts[3]))
    else Triplet(0, 0, 0)
  }

  /** `Integer.toString` of each component, concatenated. */
  function TripletDigits(tr: Triplet): string
  {
    IntToString(tr.hundreds) + IntToString(tr.tens) + IntToString(tr.ones)
  }

  /**
   * The triplet of one group, computed as the source does: count the tokens,
   * then scan the word tables index by index, writing into the triplet.
   */
  method GroupTriplet(group: string) returns (triplet: Triplet)
    ensures triplet == TripletOf(Tokens(group))
  {
    var ts := Tokens(group);
    if |ts| == 1 {
      triplet := OneTokenTriplet(ts);
    } else if |ts| == 2 && ts[1] == HUNDRED {
      triplet := HundredTriplet(ts);
    } else if |ts| == 2 {
      triplet := TensOnesTriplet(ts);
    } else if |ts| == 3 {
      triplet := ThreeTokenTriplet(ts);
    } else if |ts| == 4 {
      triplet := FourTokenTriplet(ts);
    } else {
      triplet := Triplet(0, 0, 0);
    }
  }

  /** One token: a ones word, a tens word or a teen word. */
  method OneTokenTriplet(ts: seq<string>) returns (triplet: Triplet)
    requires |ts| == 1
    ensures triplet == TripletOf(ts)
  {
    var h, t, o := 0, 0, 0;
    var uno := ts[0];
    TablesDisjoint(uno);
    for k := 0 to |DIGITS|
      invariant h == 0
      invariant t == if 0 <= TensIndex(uno) < k then TensIndex(uno) + 1 else 0
      invariant o == if 0 <= OnesIndex(uno) < k then OnesIndex(uno) + 1
                     else if 0 <= TeenIndex(uno) < k then TeenIndex(uno) + 10
                     else 0
    {
      if uno == DIGITS[k] {
        t := 0;
        o := k + 1;
      }
      if TENS[k] == Some(uno) {
        t := k + 1;
        o := 0;
      }
      if uno == TEENS[k] {
        o := k + 10;
      }
    }
    triplet := Triplet(h, t, o);
  }

  /** Two tokens ending in "hundred": the first gives the hundreds. */
  method HundredTriplet(ts: seq<string>) returns (triplet: Triplet)
    requires |ts| == 2 && ts[1] == HUNDRED
    ensures triplet == TripletOf(ts)
  {
    var h, t, o := 0, 0, 0;
    var uno := ts[0];
    for k := 0 to |DIGITS|
      invariant h == if 0 <= OnesIndex(uno) < k then OnesIndex(uno) + 1 else 0
      invariant t == 0 && o == 0
    {
      if uno == DIGITS[k] {
        h, t, o := k + 1, 0, 0;
      }
    }
    triplet := Triplet(h, t, o);
  }

  /** Two other tokens: a tens word and a ones word. */
  method TensOnesTriplet(ts: seq<string>) returns (triplet: Triplet)
    requires |ts| == 2 && ts[1] != HUNDRED
    ensures triplet == TripletOf(ts)
  {
    var h, t, o := 0, 0, 0;
    var uno, dos := ts[0], ts[1];
    for k := 0 to |DIGITS|
      invariant h == 0
      invariant t == if 0 <= TensIndex(uno) < k then TensIndex(uno) + 1 else 0
      invariant o == if 0 <= OnesIndex(dos) < k then OnesIndex(dos) + 1 else 0
    {
      if TENS[k] == Some(uno) {
        t := k + 1;
      }
      if dos == DIGITS[k] {
        o := k + 1;
      }
    }
    triplet := Triplet(h, t, o);
  }

  /** Three tokens: hundreds, "hundred", then a ones or a tens word. */
  method ThreeTokenTriplet(ts: seq<string>) returns (triplet: Triplet)
    requires |ts| == 3
    ensures triplet == TripletOf(ts)
  {
    var h, t, o := 0, 0, 0;
    var uno, tres := ts[0], ts[2];
    TablesDisjoint(tres);
    for k := 0 to |DIGITS|
      invariant h == if 0 <= OnesIndex(uno) < k then OnesIndex(uno) + 1 else 0
      invariant t == if 0 <= TensIndex(tres) < k then TensIndex(tres) + 1 else 0
      invariant o == if 0 <= OnesIndex(tres) < k then OnesIndex(tres) + 1 else 0
    {
      if uno == DIGITS[k] {
        h := k + 1;
      }
      if tres == DIGITS[k] {
        t, o := 0, k + 1;
      }
      if TENS[k] == Some(tres) {
        t, o := k + 1, 0;
      }
    }
    triplet := Triplet(h, t, o);
  }

  /** Four tokens: hundreds, "hundred", a tens word and a ones word. */
  method FourTokenTriplet(ts: seq<string>) returns (triplet: Triplet)
    requires |ts| == 4
    ensures triplet == TripletOf(ts)
  {
    var h, t, o := 0, 0, 0;
    var uno, tres, cuatro := ts[0], ts[2], ts[3];
    for k := 0 to |DIGITS|
      invariant h == if 0 <= OnesIndex(uno) < k then OnesIndex(uno) + 1 else 0
      invariant t == if 0 <= TensIndex(tres) < k then TensIndex(tres) + 1 else 0
      invariant o == if 0 <= OnesIndex(cuatro) < k then OnesIndex(cuatro) + 1 else 0
    {
      if uno == DIGITS[k] {
        h := k + 1;
      }
      if cuatro == DIGITS[k] {
        o := k + 1;
      }
      if TENS[k] == Some(tres) {
        t := k + 1;
      }
    }
    triplet := Triplet(h, t, o);
  }

  // ---------------------------------------------------------------------------
  // The whole conversion

  /** The digits one group between magnitude words contributes. */
  function GroupDigits(group: string): string
  {
    TripletDigits(TripletOf(Tokens(group)))
  }

  /** The digits of a run of thousand groups, most significant first. */
  function GroupsDigits(groups: seq<string>): string
  {
    if groups == [] then ""
    else GroupsDigits(groups[..|groups| - 1]) + GroupDigits(groups[|groups| - 1])
  }

  /** The pieces of a million group between its "thousand" words (trailing empty pieces dropped). */
  function ThousandGroups(m: string): seq<string>
  {
    DropTrailingEmpty(Split(m, THOUSAND))
  }

  /** The digits of a run of million groups, most significant first. */
  function MillionsDigits(millions: seq<string>): string
  {
    if millions == [] then ""
    else MillionsDigits(millions[..|millions| - 1]) + GroupsDigits(ThousandGroups(millions[|millions| - 1]))
  }

  /** The digit one token after "point" contributes: "0" for "zero"/"oh", its digit for a ones word, else nothing. */
  function FractionTokenDigits(w: string): string
  {
    (if w == ZERO[0] || w == ZERO[1] then "0" else "") + (if Ones(w) > 0 then IntToString(Ones(w)) else "")
  }

  function FractionDigits(ts: seq<string>): string
  {
    if ts == [] then "" else FractionDigits(ts[..|ts| - 1]) + FractionTokenDigits(ts[|ts| - 1])
  }

  /** The pieces of the input between its "point" words (trailing empty pieces dropped). */
  function DecimalParts(input: string): seq<string>
  {
    DropTrailingEmpty(Split(input, POINT))
  }

  /** The source reads `decimal[0]`: at least one piece must remain (the input is not empty and not only "point"s). */
  predicate Convertible(input: string)
  {
    |DecimalParts(input)| >= 1
  }

  /** The digits of the text in front of the first "point". */
  function IntegerDigits(part: string): string
  {
    MillionsDigits(DropTrailingEmpty(Split(part, MILLION)))
  }

  /** What `convertEnglishWordsToDecimal(input)` returns. */
  function WordsToDecimal(input: string): string
    requires Convertible(input)
  {
    var decimal := DecimalParts(input);
    IntegerDigits(decimal[0]) + (if |decimal| > 1 then "." + FractionDigits(Tokens(decimal[1])) else "")
  }

  lemma GroupsDigitsStep(groups: seq<string>, j: nat)
    requires j < |groups|
    ensures GroupsDigits(groups[..j + 1]) == GroupsDigits(groups[..j]) + GroupDigits(groups[j])
  {
    assert groups[..j + 1][..j] == groups[..j];
  }

  lemma MillionsDigitsStep(millions: seq<string>, i: nat)
    requires i < |millions|
    ensures MillionsDigits(millions[..i + 1]) == MillionsDigits(millions[..i]) + GroupsDigits(ThousandGroups(millions[i]))
  {
    assert millions[..i + 1][..i] == millions[..i];
  }

  lemma FractionDigitsStep(ts: seq<string>, n: nat)
    requires n < |ts|
    ensures FractionDigits(ts[..n + 1]) == FractionDigits(ts[..n]) + FractionTokenDigits(ts[n])
  {
    assert ts[..n + 1][..n] == ts[..n];
  }

  /** The body of the source's loop over the tokens after "point": the digits one token appends. */
  method ReadFractionToken(w: string) returns (digits: string)
    ensures digits == FractionTokenDigits(w)
  {
    digits := "";
    if w == ZERO[0] || w == ZERO[1] {
      digits := digits + "0";
    }
    ghost var zeroPart := digits;
    for j := 0 to |DIGITS|
      invariant digits == zeroPart + if 0 <= OnesIndex(w) < j then IntToString(OnesIndex(w) + 1) else ""
    {
      if w == DIGITS[j] {
        assert OnesIndex(w) == j;
        digits := digits + IntToString(j + 1);
      }
    }
  }

  /** `convertEnglishWordsToDecimal`, loop by loop as the source runs it. */
  method ConvertEnglishWordsToDecimal(input: string) returns (result: string)
    requires Convertible(input)
    ensures result == WordsToDecimal(input)
  {
    result := "";
    var decimal := DecimalParts(input);
    var millions := DropTrailingEmpty(Split(decimal[0], MILLION));
    for i := 0 to |millions|
      invariant result == MillionsDigits(millions[..i])
    {
      var thousands := ThousandGroups(millions[i]);
      ghost var before := result;
      for j := 0 to |thousands|
        invariant result == before + GroupsDigits(thousands[..j])
      {
        var triplet := GroupTriplet(thousands[j]);
        GroupsDigitsStep(thousands, j);
        var digits := IntToString(triplet.hundreds) + IntToString(triplet.tens) + IntToString(triplet.ones);
        Associative(before, GroupsDigits(thousands[..j]), digits);
        result := result + digits;
      }
      assert thousands[..|thousands|] == thousands;
      MillionsDigitsStep(millions, i);
    }
    assert millions[..|millions|] == millions;
    ghost var integerDigits := result;
    if |decimal| > 1 {
      var tokens := Tokens(decimal[1]);
      result := result + ".";
      ghost var intPart := result;
      var n := 0;
      while n < |tokens|
        invariant 0 <= n <= |tokens|
        invariant result == intPart + FractionDigits(tokens[..n])
      {
        var digits := ReadFractionToken(tokens[n]);
        FractionDigitsStep(tokens, n);
        Associative(intPart, FractionDigits(tokens[..n]), digits);
        result := result + digits;
        n := n + 1;
      }
      assert tokens[..|tokens|] == tokens;
      Associative(integerDigits, ".", FractionDigits(tokens));
    }
  }

  // ---------------------------------------------------------------------------
  // Properties of the conversion

  lemma SmallIntToString(n: nat)
    requires n <= 18
    ensures |IntToString(n)| == (if n < 10 then 1 else 2)
    ensures n < 10 ==> IntToString(n) == [DigitChar(n)]
  {
  }

  /**
   * A group of one token: a ones word k gives "00k", a tens word "0k0", "ten" .. "eighteen"
   * give "00" followed by their two-digit value (four characters); "nineteen" and every
   * other word give "000".
   */
  lemma SingleTokenGroup(w: string)
    requires IsToken(w)
    ensures OnesIndex(w) >= 0 ==> GroupDigits(w) == "00" + [DigitChar(OnesIndex(w) + 1)]
    ensures TensIndex(w) >= 0 ==> GroupDigits(w) == "0" + [DigitChar(TensIndex(w) + 1)] + "0"
    ensures 0 <= TeenIndex(w) < 9 ==>
      GroupDigits(w) == "00" + IntToString(TeenIndex(w) + 10) && |GroupDigits(w)| == 4
    ensures OnesIndex(w) < 0 && TensIndex(w) < 0 && (TeenIndex(w) < 0 || w == "nineteen") ==>
      GroupDigits(w) == "000"
  {
    GroupDigitsOne(w);
    TablesDisjoint(w);
    TripletOfOne(w);
    var tr := TripletOf([w]);
    TripletDigitsSmall(tr);
    SmallIntToString(tr.ones);
    NineteenIndex();
  }

  lemma GroupDigitsOne(w: string)
    requires IsToken(w)
    ensures GroupDigits(w) == TripletDigits(TripletOf([w]))
  {
    TokensCons(w, "");
    assert w + "" == w;
  }

  lemma NineteenIndex()
    ensures TeenIndex("nineteen") == 9
  {
  }

  /** The triplet of a lone token: its ones digit, else its tens digit, else its teen value. */
  lemma TripletOfOne(w: string)
    ensures OnesIndex(w) >= 0 ==> TripletOf([w]) == Triplet(0, 0, OnesIndex(w) + 1)
    ensures OnesIndex(w) < 0 && TensIndex(w) >= 0 ==> TripletOf([w]) == Triplet(0, TensIndex(w) + 1, 0)
    ensures OnesIndex(w) < 0 && TensIndex(w) < 0 ==> TripletOf([w]) == Triplet(0, 0, Teen(w))
  {
  }

  /** A triplet with single-digit hundreds and tens: those two digits, then the ones value. */
  lemma TripletDigitsSmall(tr: Triplet)
    requires tr.hundreds < 10 && tr.tens < 10
    ensures TripletDigits(tr) == [DigitChar(tr.hundreds), DigitChar(tr.tens)] + IntToString(tr.ones)
    ensures DigitChar(0) == '0'
  {
    SmallIntToString(tr.hundreds);
    SmallIntToString(tr.tens);
  }

  /**
   * A group of two tokens: "X hundred" gives X followed by "00"; any other pair gives "0",
   * the tens digit of the first word and the ones digit of the second. A teen word in
   * second place is not looked up, so it leaves the ones digit 0.
   */
  lemma TwoTokenGroup(a: string, b: string)
    requires IsToken(a) && IsToken(b)
    ensures b == HUNDRED ==> GroupDigits(a + " " + b) == [DigitChar(Ones(a))] + "00"
    ensures b != HUNDRED ==> GroupDigits(a + " " + b) == "0" + [DigitChar(Tens(a)), DigitChar(Ones(b))]
    ensures b != HUNDRED && TeenIndex(b) >= 0 ==> GroupDigits(a + " " + b)[2] == '0'
  {
    assert a + " " + b == Join([a, b], " ");
    TokensOfJoin([a, b]);
    TablesDisjoint(b);
    TripletDigitsDigits(TripletOf([a, b]));
  }

  /** A triplet of single digits renders as exactly those three digits. */
  lemma TripletDigitsDigits(tr: Triplet)
    requires tr.hundreds < 10 && tr.tens < 10 && tr.ones < 10
    ensures TripletDigits(tr) == [DigitChar(tr.hundreds), DigitChar(tr.tens), DigitChar(tr.ones)]
    ensures DigitChar(0) == '0'
  {
    SmallIntToString(tr.hundreds);
    SmallIntToString(tr.tens);
    SmallIntToString(tr.ones);
  }

  /**
   * A group of three tokens: hundreds from the first token; from the third, "0" and its
   * ones digit or its tens digit and "0". The second token is never inspected.
   */
  lemma ThreeTokenGroup(a: string, b: string, c: string, b': string)
    requires IsToken(a) && IsToken(b) && IsToken(c) && IsToken(b')
    ensures GroupDigits(Join([a, b, c], " ")) ==
      [DigitChar(Ones(a))] + (if Ones(c) > 0 then "0" + [DigitChar(Ones(c))] else [DigitChar(Tens(c))] + "0")
    ensures GroupDigits(Join([a, b, c], " ")) == GroupDigits(Join([a, b', c], " "))
  {
    TokensOfJoin([a, b, c]);
    TokensOfJoin([a, b', c]);
    TripletOfThree(a, b, c);
    TripletOfThree(a, b', c);
    TripletDigitsDigits(TripletOf([a, b, c]));
  }

  lemma TripletOfThree(a: string, b: string, c: string)
    ensures TripletOf([a, b, c]) ==
      if Ones(c) > 0 then Triplet(Ones(a), 0, Ones(c)) else Triplet(Ones(a), Tens(c), 0)
  {
  }

  /** A group of four tokens: hundreds, tens and ones from the first, third and fourth tokens. */
  lemma FourTokenGroup(a: string, b: string, c: string, d: string)
    requires IsToken(a) && IsToken(b) && IsToken(c) && IsToken(d)
    ensures GroupDigits(Join([a, b, c, d], " ")) == [DigitChar(Ones(a)), DigitChar(Tens(c)), DigitChar(Ones(d))]
  {
    TokensOfJoin([a, b, c, d]);
    TripletDigitsDigits(TripletOf([a, b, c, d]));
  }

  /** A group with no token, or with five or more, gives "000". */
  lemma OtherTokenCountGroup(group: string)
    requires |Tokens(group)| == 0 || |Tokens(group)| >= 5
    ensures GroupDigits(group) == "000"
  {
  }

  lemma MagnitudesHaveNoBorder()
    ensures NoBorder(THOUSAND) && NoBorder(MILLION) && NoBorder(POINT)
  {
  }

  lemma MagnitudesHaveNoSpace()
    ensures forall i :: 0 <= i < |POINT| ==> POINT[i] != ' '
    ensures forall i :: 0 <= i < |MILLION| ==> MILLION[i] != ' '
    ensures forall i :: 0 <= i < |THOUSAND| ==> THOUSAND[i] != ' '
  {
  }

  /** A string free of "point" that is not empty leaves exactly one piece after the split on "point". */
  lemma NoPointParts(a: string)
    requires a != [] && !Contains(a, POINT)
    ensures DecimalParts(a) == [a]
  {
  }

  /** Without "point" the whole input is the integer part. */
  lemma WithoutPoint(input: string)
    requires input != [] && !Contains(input, POINT)
    ensures Convertible(input) && WordsToDecimal(input) == IntegerDigits(input)
  {
    NoPointParts(input);
  }

  /**
   * Thousand groups joined by "thousand" give their digits group after group, most
   * significant first; trailing empty groups (a "thousand" with nothing after it)
   * contribute nothing, while an empty group elsewhere contributes "000".
   */
  lemma ThousandsJoined(groups: seq<string>)
    requires |groups| >= 1
    requires forall k :: 0 <= k < |groups| ==> !Contains(groups[k], THOUSAND)
    requires var input := Join(groups, THOUSAND); input != [] && !Contains(input, MILLION) && !Contains(input, POINT)
    ensures Convertible(Join(groups, THOUSAND))
    ensures WordsToDecimal(Join(groups, THOUSAND)) == GroupsDigits(DropTrailingEmpty(groups))
  {
    var input := Join(groups, THOUSAND);
    WithoutPoint(input);
    MillionFree(input);
    MagnitudeSplit(groups, THOUSAND);
  }

  /** Splitting on "thousand", "million" or "point" inverts joining with it. */
  lemma MagnitudeSplit(pieces: seq<string>, sep: string)
    requires sep == THOUSAND || sep == MILLION || sep == POINT
    requires |pieces| >= 1
    requires forall k :: 0 <= k < |pieces| ==> !Contains(pieces[k], sep)
    ensures Split(Join(pieces, sep), sep) == pieces
  {
    MagnitudesHaveNoBorder();
    SplitOfJoin(pieces, sep);
  }

  lemma MillionFree(input: string)
    requires input != [] && !Contains(input, MILLION)
    ensures IntegerDigits(input) == GroupsDigits(ThousandGroups(input))
  {
    assert Split(input, MILLION) == [input];
    assert MillionsDigits([input]) == MillionsDigits([]) + GroupsDigits(ThousandGroups(input));
  }

  /** Million groups joined by "million" give their digits one million group after the other. */
  lemma MillionsJoined(millions: seq<string>)
    requires |millions| >= 1
    requires forall k :: 0 <= k < |millions| ==> !Contains(millions[k], MILLION)
    requires var input := Join(millions, MILLION); input != [] && !Contains(input, POINT)
    ensures Convertible(Join(millions, MILLION))
    ensures WordsToDecimal(Join(millions, MILLION)) == MillionsDigits(DropTrailingEmpty(millions))
  {
    MillionsSplit(Join(millions, MILLION), millions);
    WordsOfMillions(Join(millions, MILLION), millions);
  }

  lemma MillionsSplit(input: string, millions: seq<string>)
    requires |millions| >= 1 && input == Join(millions, MILLION)
    requires forall k :: 0 <= k < |millions| ==> !Contains(millions[k], MILLION)
    ensures Split(input, MILLION) == millions
  {
    MagnitudeSplit(millions, MILLION);
  }

  /** A text free of "point" gives the digits of the million groups it splits into. */
  lemma WordsOfMillions(input: string, millions: seq<string>)
    requires input != [] && !Contains(input, POINT) && Split(input, MILLION) == millions
    ensures Convertible(input) && WordsToDecimal(input) == MillionsDigits(DropTrailingEmpty(millions))
  {
    WithoutPoint(input);
  }

  /** Parts that are all nonempty survive the drop of trailing empties. */
  lemma PointParts2(a: string, b: string)
    requires a != [] && b != [] && !Contains(a, POINT) && !Contains(b, POINT)
    ensures DecimalParts(a + POINT + b) == [a, b]
  {
    MagnitudesHaveNoBorder();
    SplitConcat(a, b, POINT);
    assert Split(b, POINT) == [b];
  }

  /** With at least two pieces, the first gives the integer digits and the second the fraction's. */
  lemma DecimalOfParts(input: string, a: string, b: string)
    requires |DecimalParts(input)| >= 2 && DecimalParts(input)[0] == a && DecimalParts(input)[1] == b
    ensures Convertible(input) && WordsToDecimal(input) == IntegerDigits(a) + "." + FractionDigits(Tokens(b))
  {
  }

  /** The part after "point" is appended after a '.', one digit per "zero"/"oh"/ones word. */
  lemma PointJoined(a: string, b: string)
    requires a != [] && b != [] && !Contains(a, POINT) && !Contains(b, POINT)
    ensures Convertible(a) && Convertible(a + POINT + b)
    ensures WordsToDecimal(a + POINT + b) == WordsToDecimal(a) + "." + FractionDigits(Tokens(b))
  {
    WithoutPoint(a);
    PointParts2(a, b);
    DecimalOfParts(a + POINT + b, a, b);
  }

  /** A second "point" and everything after it are ignored. */
  lemma SecondPointIgnored(a: string, b: string, c: string)
    requires a != [] && b != [] && !Contains(a, POINT) && !Contains(b, POINT)
    ensures Convertible(a + POINT + b) && Convertible(a + POINT + b + POINT + c)
    ensures WordsToDecimal(a + POINT + b + POINT + c) == WordsToDecimal(a + POINT + b)
  {
    var s := a + POINT + b + POINT + c;
    SecondPointParts(a, b, c);
    PointParts2(a, b);
    DecimalOfParts(s, a, b);
    DecimalOfParts(a + POINT + b, a, b);
  }

  lemma SecondPointParts(a: string, b: string, c: string)
    requires a != [] && b != [] && !Contains(a, POINT) && !Contains(b, POINT)
    ensures var parts := DecimalParts(a + POINT + b + POINT + c);
      |parts| >= 2 && parts[0] == a && parts[1] == b
  {
    MagnitudesHaveNoBorder();
    var s := a + POINT + b + POINT + c;
    assert s == a + POINT + (b + POINT + c);
    SplitConcat(a, b + POINT + c, POINT);
    SplitConcat(b, c, POINT);
    var rest := Split(c, POINT);
    assert Split(s, POINT) == [a, b] + rest;
    DropTrailingEmptyAppend([a, b], rest);
    assert DecimalParts(s)[..2] == [a, b];
  }

  /** "point" alone leaves no piece to read: the source indexes past the end. */
  lemma PointOnly()
    ensures !Convertible(POINT)
  {
    MagnitudesHaveNoBorder();
    SplitConcat("", "", POINT);
    assert "" + POINT + "" == POINT;
    assert Split("", POINT) == [""];
    assert DropTrailingEmpty(["", ""]) == [];
  }

  /** A "point" with nothing after it adds no '.'. */
  lemma TrailingPoint(a: string)
    requires a != [] && !Contains(a, POINT)
    ensures Convertible(a + POINT) && WordsToDecimal(a + POINT) == WordsToDecimal(a)
  {
    MagnitudesHaveNoBorder();
    NoPointParts(a);
    SplitConcat(a, "", POINT);
    assert a + POINT + "" == a + POINT;
    assert Split("", POINT) == [""];
    assert DropTrailingEmpty([a, ""]) == [a];
  }

  lemma {:induction false} AllDigitsAppend(a: string, b: string)
    requires AllDigits(a) && AllDigits(b)
    ensures AllDigits(a + b)
  {
    assert forall i :: 0 <= i < |a + b| ==> (a + b)[i] == if i < |a| then a[i] else b[i - |a|];
  }

  lemma TripletDigitsAreDigits(tr: Triplet)
    ensures AllDigits(TripletDigits(tr))
  {
    AllDigitsAppend(IntToString(tr.hundreds), IntToString(tr.tens));
    AllDigitsAppend(IntToString(tr.hundreds) + IntToString(tr.tens), IntToString(tr.ones));
  }

  lemma {:induction false} GroupsDigitsAreDigits(groups: seq<string>)
    ensures AllDigits(GroupsDigits(groups))
    decreases |groups|
  {
    if groups != [] {
      GroupsDigitsAreDigits(groups[..|groups| - 1]);
      TripletDigitsAreDigits(TripletOf(Tokens(groups[|groups| - 1])));
      AllDigitsAppend(GroupsDigits(groups[..|groups| - 1]), GroupDigits(groups[|groups| - 1]));
    }
  }

  lemma {:induction false} MillionsDigitsAreDigits(millions: seq<string>)
    ensures AllDigits(MillionsDigits(millions))
    decreases |millions|
  {
    if millions != [] {
      MillionsDigitsAreDigits(millions[..|millions| - 1]);
      GroupsDigitsAreDigits(ThousandGroups(millions[|millions| - 1]));
      AllDigitsAppend(MillionsDigits(millions[..|millions| - 1]), GroupsDigits(ThousandGroups(millions[|millions| - 1])));
    }
  }

  lemma {:induction false} FractionDigitsAreDigits(ts: seq<string>)
    ensures AllDigits(FractionDigits(ts)) && |FractionDigits(ts)| <= 2 * |ts|
    decreases |ts|
  {
    if ts != [] {
      FractionDigitsAreDigits(ts[..|ts| - 1]);
      var w := ts[|ts| - 1];
      if Ones(w) > 0 {
        SmallIntToString(Ones(w));
      }
      AllDigitsAppend(FractionDigits(ts[..|ts| - 1]), FractionTokenDigits(w));
    }
  }

  /**
   * The output holds only decimal digits and at most one '.', and the '.' is there
   * exactly when the split on "point" leaves more than one piece.
   */
  lemma WordsToDecimalShape(input: string)
    requires Convertible(input)
    ensures var r := WordsToDecimal(input);
      && (forall i :: 0 <= i < |r| && r[i] != '.' ==> IsDigit(r[i]))
      && (forall i, j :: 0 <= i < j < |r| ==> !(r[i] == '.' && r[j] == '.'))
      && ('.' in r <==> |DecimalParts(input)| > 1)
  {
    var decimal := DecimalParts(input);
    var intPart := MillionsDigits(DropTrailingEmpty(Split(decimal[0], MILLION)));
    MillionsDigitsAreDigits(DropTrailingEmpty(Split(decimal[0], MILLION)));
    var r := WordsToDecimal(input);
    if |decimal| > 1 {
      var frac := FractionDigits(Tokens(decimal[1]));
      FractionDigitsAreDigits(Tokens(decimal[1]));
      assert r == intPart + "." + frac;
      assert r[|intPart|] == '.';
      forall i | 0 <= i < |r| && i != |intPart| ensures IsDigit(r[i]) {
        if i < |intPart| { assert r[i] == intPart[i]; } else { assert r[i] == frac[i - |intPart| - 1]; }
      }
    } else {
      assert r == intPart;
    }
  }

  // ---------------------------------------------------------------------------
  // convertIntToOrdinal

  const SUFFIXES: seq<string> := ["th", "st", "nd", "rd", "th", "th", "th", "th", "th", "th"]

  /** Kotlin's `%` on `Int`: the remainder of division truncated toward zero, with the sign of `a`. */
  function Rem(a: int, b: int): int
    requires b > 0
  {
    if a >= 0 then a % b else -((-a) % b)
  }

  /**
   * `convertIntToOrdinal(i)`: the decimal rendering of `i` and a suffix; `None` where the
   * source indexes SUFFIXES with a negative remainder (ArrayIndexOutOfBoundsException).
   */
  function ConvertIntToOrdinal(i: int): (r: Option<string>)
    ensures r.None? <==> i < 0 && i % 10 != 0
  {
    var hundred := Rem(i, 100);
    if hundred == 11 || hundred == 12 || hundred == 13 then Some(IntToString(i) + "th")
    else
      var k := Rem(i, 10);
      if 0 <= k < |SUFFIXES| then Some(IntToString(i) + SUFFIXES[k]) else None
  }

  /**
   * English ordinal suffixes: "th" for 11, 12 and 13 (mod 100), otherwise "st", "nd", "rd"
   * for a last digit 1, 2, 3 and "th" for the rest; the number in front reads back as `i`.
   */
  lemma OrdinalSuffix(i: int)
    requires ConvertIntToOrdinal(i).Some?
    ensures var s := ConvertIntToOrdinal(i).value;
      && |s| >= 3
      && ParseInt(s[..|s| - 2]) == Some(i)
      && s[|s| - 2..] ==
        if 11 <= i % 100 <= 13 && i >= 0 then "th"
        else if i % 10 == 1 && i >= 0 then "st"
        else if i % 10 == 2 && i >= 0 then "nd"
        else if i % 10 == 3 && i >= 0 then "rd"
        else "th"
  {
    var s := ConvertIntToOrdinal(i).value;
    ParseIntToString(i);
    assert s[..|s| - 2] == IntToString(i);
  }

  // ---------------------------------------------------------------------------
  // Worked examples

  /** Free of every magnitude word, the input is one group. */
  lemma OneGroup(input: string)
    requires input != [] && !Contains(input, POINT) && !Contains(input, MILLION) && !Contains(input, THOUSAND)
    ensures Convertible(input) && WordsToDecimal(input) == GroupDigits(input)
  {
    WithoutPoint(input);
    MillionFree(input);
    assert Split(input, THOUSAND) == [input];
    assert GroupsDigits([input]) == GroupsDigits([]) + GroupDigits(input);
  }

  // Each example is split into small steps: facts about a literal in a large context
  // make the solver unfold every function applied to it.

  lemma HundredTwentyThreeIsOneGroup()
    ensures Convertible("one hundred twenty three")
    ensures WordsToDecimal("one hundred twenty three") == GroupDigits(Join(["one", "hundred", "twenty", "three"], " "))
  {
    var words := ["one", "hundred", "twenty", "three"];
    HundredTwentyThreeText();
    HundredTwentyThreeWords();
    MagnitudesHaveNoSpace();
    SpaceJoinAbsent(words, POINT);
    SpaceJoinAbsent(words, MILLION);
    SpaceJoinAbsent(words, THOUSAND);
    OneGroup(Join(words, " "));
  }

  lemma HundredTwentyThreeText()
    ensures "one hundred twenty three" == Join(["one", "hundred", "twenty", "three"], " ")
  {
    var words := ["one", "hundred", "twenty", "three"];
    assert Join(words, " ") == "one" + " " + ("hundred" + " " + ("twenty" + " " + "three"));
  }

  lemma HundredTwentyThreeWords()
    ensures var words := ["one", "hundred", "twenty", "three"];
      forall k :: 0 <= k < |words| ==>
        !Contains(words[k], POINT) && !Contains(words[k], MILLION) && !Contains(words[k], THOUSAND)
  {
    var words := ["one", "hundred", "twenty", "three"];
    forall k | 0 <= k < |words| ensures !Contains(words[k], POINT) && !Contains(words[k], MILLION) && !Contains(words[k], THOUSAND) {
      FirstCharAbsent(words[k], POINT);
      FirstCharAbsent(words[k], MILLION);
    }
  }

  lemma ExampleHundredTwentyThree()
    ensures Convertible("one hundred twenty three") && WordsToDecimal("one hundred twenty three") == "123"
  {
    HundredTwentyThreeIsOneGroup();
    HundredTwentyThreeGroup();
  }

  lemma HundredTwentyThreeGroup()
    ensures GroupDigits(Join(["one", "hundred", "twenty", "three"], " ")) == "123"
  {
    FourTokenGroup("one", "hundred", "twenty", "three");
    assert Ones("one") == 1 && Tens("twenty") == 2 && Ones("three") == 3;
  }

  lemma TwelveIsOneGroup()
    ensures Convertible("twelve") && WordsToDecimal("twelve") == GroupDigits("twelve")
  {
    FirstCharAbsent("twelve", POINT);
    FirstCharAbsent("twelve", MILLION);
    OneGroup("twelve");
  }

  lemma TwelveGroup()
    ensures GroupDigits("twelve") == "0012"
  {
    SingleTokenGroup("twelve");
    TwelveDigits();
  }

  lemma TwelveDigits()
    ensures IntToString(12) == "12"
  {
    assert DigitChar(1) == '1' && DigitChar(2) == '2';
  }

  /** A lone teen word gives four digits: "00" and the teen's two. */
  lemma ExampleTwelve()
    ensures Convertible("twelve") && WordsToDecimal("twelve") == "0012"
  {
    TwelveIsOneGroup();
    TwelveGroup();
  }

  /** A lone "ten" gives "0010". */
  lemma ExampleTen()
    ensures Convertible("ten") && WordsToDecimal("ten") == "0010"
  {
    TenIsOneGroup();
    TenGroup();
  }

  lemma TenIsOneGroup()
    ensures Convertible("ten") && WordsToDecimal("ten") == GroupDigits("ten")
  {
    FirstCharAbsent("ten", POINT);
    FirstCharAbsent("ten", MILLION);
    OneGroup("ten");
  }

  lemma TenGroup()
    ensures GroupDigits("ten") == "0010"
  {
    SingleTokenGroup("ten");
    TenDigits();
  }

  lemma TenDigits()
    ensures IntToString(10) == "10"
  {
    assert DigitChar(1) == '1' && DigitChar(0) == '0';
  }

  /** A lone ones word gives "00" and its digit: "one" gives "001". */
  lemma ExampleOne()
    ensures Convertible("one") && WordsToDecimal("one") == "001"
  {
    OneIsOneGroup();
    OneWordGroup();
  }

  lemma OneIsOneGroup()
    ensures Convertible("one") && WordsToDecimal("one") == GroupDigits("one")
  {
    FirstCharAbsent("one", POINT);
    FirstCharAbsent("one", MILLION);
    OneGroup("one");
  }

  lemma OneWordGroup()
    ensures GroupDigits("one") == "001"
  {
    SingleTokenGroup("one");
  }

  lemma ExampleTwo()
    ensures Convertible("two") && WordsToDecimal("two") == "002"
  {
    TwoIsOneGroup();
    TwoWordGroup();
  }

  lemma TwoIsOneGroup()
    ensures Convertible("two") && WordsToDecimal("two") == GroupDigits("two")
  {
    FirstCharAbsent("two", POINT);
    FirstCharAbsent("two", MILLION);
    OneGroup("two");
  }

  lemma TwoWordGroup()
    ensures GroupDigits("two") == "002"
  {
    SingleTokenGroup("two");
  }

  lemma OneSpaceGroup()
    ensures Convertible("one ") && WordsToDecimal("one ") == "001" && GroupDigits("one ") == "001"
  {
    OneSpaceIsOneGroup();
    OneSpaceTokens();
    OneWordGroup();
  }

  lemma OneSpaceIsOneGroup()
    ensures Convertible("one ") && WordsToDecimal("one ") == GroupDigits("one ")
  {
    FirstCharAbsent("one ", POINT);
    FirstCharAbsent("one ", MILLION);
    OneGroup("one ");
  }

  lemma OneSpaceTokens()
    ensures Tokens("one ") == Tokens("one")
  {
    TokensOfPadded("", "one", " ");
    TokensOfPadded("", "one", "");
    assert "" + "one" + " " == "one ";
    assert "" + "one" + "" == "one";
  }

  lemma SpaceTwoFraction()
    ensures FractionDigits(Tokens(" two")) == "2"
  {
    TokensOfPadded(" ", "two", "");
    assert " " + "two" + "" == " two";
    assert FractionDigits(["two"]) == FractionDigits([]) + FractionTokenDigits("two");
  }

  lemma OnePointTwoSplit()
    ensures Convertible("one point two")
    ensures WordsToDecimal("one point two") == "001" + "." + FractionDigits(Tokens(" two"))
  {
    assert "one point two" == "one " + POINT + " two";
    FirstCharAbsent("one ", POINT);
    FirstCharAbsent(" two", POINT);
    PointJoined("one ", " two");
    OneSpaceGroup();
  }

  lemma ExampleOnePointTwo()
    ensures Convertible("one point two") && WordsToDecimal("one point two") == "001.2"
  {
    OnePointTwoSplit();
    SpaceTwoFraction();
    OnePointTwoText();
  }

  lemma OnePointTwoText()
    ensures "001" + "." + "2" == "001.2"
  {
  }

  lemma SpaceFiveFraction()
    ensures FractionDigits(Tokens(" five")) == "5"
  {
    TokensOfPadded(" ", "five", "");
    assert " " + "five" + "" == " five";
    assert FractionDigits(["five"]) == FractionDigits([]) + FractionTokenDigits("five");
  }

  lemma OnePointFiveSplit()
    ensures Convertible("one point five")
    ensures WordsToDecimal("one point five") == "001" + "." + FractionDigits(Tokens(" five"))
  {
    assert "one point five" == "one " + POINT + " five";
    FirstCharAbsent("one ", POINT);
    FirstCharAbsent(" five", POINT);
    PointJoined("one ", " five");
    OneSpaceGroup();
  }

  /** "one point five" gives "001.5". */
  lemma ExampleOnePointFive()
    ensures Convertible("one point five") && WordsToDecimal("one point five") == "001.5"
  {
    OnePointFiveSplit();
    SpaceFiveFraction();
    OnePointFiveText();
  }

  lemma OnePointFiveText()
    ensures "001" + "." + "5" == "001.5"
  {
  }

  lemma OneThousandGroups()
    ensures Convertible("one thousand") && WordsToDecimal("one thousand") == GroupsDigits(["one "])
  {
    var groups := ["one ", ""];
    OneThousandText();
    ThousandsJoined(groups);
    DropOneEmpty("one ");
  }

  lemma OneThousandText()
    ensures var groups := ["one ", ""];
      && "one thousand" == Join(groups, THOUSAND)
      && (forall k :: 0 <= k < |groups| ==> !Contains(groups[k], THOUSAND))
      && !Contains("one thousand", POINT) && !Contains("one thousand", MILLION)
  {
    var groups := ["one ", ""];
    assert Join(groups, THOUSAND) == "one " + THOUSAND + "";
    assert "one " + THOUSAND + "" == "one thousand";
    OneThousandFree();
  }

  lemma OneThousandFree()
    ensures !Contains("one thousand", POINT) && !Contains("one thousand", MILLION)
    ensures !Contains("one ", THOUSAND) && !Contains("", THOUSAND)
  {
    FirstCharAbsent("one thousand", POINT);
    FirstCharAbsent("one thousand", MILLION);
    FirstCharAbsent("one ", THOUSAND);
  }

  lemma DropOneEmpty(a: string)
    requires a != []
    ensures DropTrailingEmpty([a, ""]) == [a]
  {
  }

  /** A trailing magnitude word adds no group: "one thousand" gives "001". */
  lemma ExampleOneThousand()
    ensures Convertible("one thousand") && WordsToDecimal("one thousand") == "001"
  {
    OneThousandGroups();
    OneSpaceGroup();
    assert GroupsDigits(["one "]) == GroupsDigits([]) + GroupDigits("one ");
  }

}
