/**
 * String primitives the utilities are written against: the character classes of
 * Java regular expressions, `String.trim { it <= ' ' }`, `indexOf`, Kotlin's
 * `split(Regex)` on a literal word, `java.util.StringTokenizer` with its default
 * delimiters, `Integer.toString` and `Integer.parseInt`.
 */
module Text {
  import opened Common

  /** The regex class `\d` (ASCII digits). */
  predicate IsDigit(c: char) { '0' <= c <= '9' }

  /** The regex class `\w`: ASCII letters, digits and the underscore. */
  predicate IsWordChar(c: char) { 'a' <= c <= 'z' || 'A' <= c <= 'Z' || IsDigit(c) || c == '_' }

  predicate AllDigits(s: string) { forall i :: 0 <= i < |s| ==> IsDigit(s[i]) }

  predicate AllWordChars(s: string) { forall i :: 0 <= i < |s| ==> IsWordChar(s[i]) }

  /** `toLowerCase` restricted to the ASCII letters. */
  function LowerChar(c: char): char
  {
    if 'A' <= c <= 'Z' then (c as int + 32) as char else c
  }

  function Lower(s: string): (r: string)
    ensures |r| == |s|
  {
    seq(|s|, i requires 0 <= i < |s| => LowerChar(s[i]))
  }

  lemma LowerAppend(a: string, b: string)
    ensures Lower(a + b) == Lower(a) + Lower(b)
  {
    assert forall i :: 0 <= i < |a + b| ==> Lower(a + b)[i] == (Lower(a) + Lower(b))[i];
  }

  lemma Associative(a: string, b: string, c: string)
    ensures (a + b) + c == a + (b + c)
  {
  }

  predicate StartsWith(s: string, p: string) { |p| <= |s| && s[..|p|] == p }

  /** `p` occurs in `s` starting at index `j`. */
  predicate OccursAt(s: string, p: string, j: int)
  {
    0 <= j && j + |p| <= |s| && s[j..j + |p|] == p
  }

  /** `String.indexOf`: the first index at which `p` occurs in `s`, or -1. */
  function IndexOf(s: string, p: string): (r: int)
    ensures -1 <= r <= |s|
    ensures r >= 0 ==> OccursAt(s, p, r)
    ensures forall j :: 0 <= j && (r < 0 || j < r) ==> !OccursAt(s, p, j)
  {
    IndexFrom(s, p, 0)
  }

  function IndexFrom(s: string, p: string, i: nat): (r: int)
    requires i <= |s|
    ensures r == -1 || i <= r <= |s|
    ensures r >= 0 ==> OccursAt(s, p, r)
    ensures forall j :: i <= j && (r < 0 || j < r) ==> !OccursAt(s, p, j)
    decreases |s| - i
  {
    if i + |p| > |s| then -1
    else if s[i..i + |p|] == p then i
    else IndexFrom(s, p, i + 1)
  }

  predicate Contains(s: string, p: string) { IndexOf(s, p) >= 0 }

  /** A string without the first character of `p` does not contain `p`. */
  lemma FirstCharAbsent(s: string, p: string)
    requires |p| > 0 && forall i :: 0 <= i < |s| ==> s[i] != p[0]
    ensures !Contains(s, p)
  {
    forall j | 0 <= j && j + |p| <= |s| ensures !OccursAt(s, p, j) {
      assert s[j..j + |p|][0] == s[j];
    }
  }

  lemma OccursAtContains(s: string, p: string, j: int)
    requires OccursAt(s, p, j)
    ensures Contains(s, p) && IndexOf(s, p) <= j
  {
  }

  // ---------------------------------------------------------------------------
  // trim { it <= ' ' }

  /** The characters Kotlin's `trim { it <= ' ' }` removes. */
  predicate IsTrimmed(c: char) { c <= ' ' }

  function TrimStart(s: string): string
    decreases |s|
  {
    if s != [] && IsTrimmed(s[0]) then TrimStart(s[1..]) else s
  }

  function TrimEnd(s: string): string
    decreases |s|
  {
    if s != [] && IsTrimmed(s[|s| - 1]) then TrimEnd(s[..|s| - 1]) else s
  }

  /** `TrimStart` drops the longest run of trimmed characters in front. */
  lemma {:induction false} TrimStartSpec(s: string)
    ensures var r := TrimStart(s);
      && |r| <= |s| && r == s[|s| - |r|..]
      && (r == [] || !IsTrimmed(r[0]))
      && forall i :: 0 <= i < |s| - |r| ==> IsTrimmed(s[i])
    decreases |s|
  {
    if s != [] && IsTrimmed(s[0]) {
      TrimStartSpec(s[1..]);
    }
  }

  /** `TrimEnd` drops the longest run of trimmed characters at the end. */
  lemma {:induction false} TrimEndSpec(s: string)
    ensures var r := TrimEnd(s);
      && |r| <= |s| && r == s[..|r|]
      && (r == [] || !IsTrimmed(r[|r| - 1]))
      && forall i :: |r| <= i < |s| ==> IsTrimmed(s[i])
    decreases |s|
  {
    if s != [] && IsTrimmed(s[|s| - 1]) {
      TrimEndSpec(s[..|s| - 1]);
    }
  }

  /** `trim { it <= ' ' }`: drop every character `<= ' '` at both ends. */
  function Trim(s: string): (r: string)
  {
    TrimEnd(TrimStart(s))
  }

  /** The result of `Trim` is the infix of `s` between its trimmed ends, and both its ends are kept characters. */
  lemma TrimSpec(s: string)
    ensures exists a, b :: 0 <= a <= b <= |s| && Trim(s) == s[a..b]
    ensures Trim(s) == [] ==> forall i :: 0 <= i < |s| ==> IsTrimmed(s[i])
    ensures Trim(s) != [] ==> !IsTrimmed(Trim(s)[0]) && !IsTrimmed(Trim(s)[|Trim(s)| - 1])
  {
    var t := TrimStart(s);
    TrimStartSpec(s);
    var a := |s| - |t|;
    var r := TrimEnd(t);
    TrimEndSpec(t);
    assert s[a..a + |r|] == r;
    if r != [] {
      assert r[0] == t[0];
    }
  }

  /** A string with no trimmed character at either end is its own trim. */
  lemma TrimUnchanged(s: string)
    requires s == [] || (!IsTrimmed(s[0]) && !IsTrimmed(s[|s| - 1]))
    ensures Trim(s) == s
  {
  }

  lemma TrimIdempotent(s: string)
    ensures Trim(Trim(s)) == Trim(s)
  {
    TrimSpec(s);
    TrimUnchanged(Trim(s));
  }

  // ---------------------------------------------------------------------------
  // split on a literal word, and dropLastWhile { it.isEmpty() }

  /** Joins `pieces` with `sep` between each two. */
  function Join(pieces: seq<string>, sep: string): string
  {
    if |pieces| == 0 then []
    else if |pieces| == 1 then pieces[0]
    else pieces[0] + sep + Join(pieces[1..], sep)
  }

  /** A word without spaces occurs in a space-joined text only inside one of the joined words. */
  lemma {:induction false} SpaceJoinAbsent(words: seq<string>, p: string)
    requires |p| > 0 && forall i :: 0 <= i < |p| ==> p[i] != ' '
    requires forall k :: 0 <= k < |words| ==> !Contains(words[k], p)
    ensures !Contains(Join(words, " "), p)
    decreases |words|
  {
    if |words| > 1 {
      var w := words[0];
      var r := Join(words[1..], " ");
      SpaceJoinAbsent(words[1..], p);
      var s := w + " " + r;
      assert Join(words, " ") == s;
      forall j | 0 <= j && j + |p| <= |w| ensures !OccursAt(s, p, j) {
        assert !OccursAt(w, p, j);
        assert s[j..j + |p|] == w[j..j + |p|];
      }
      forall j | 0 <= j <= |w| < j + |p| && j + |p| <= |s| ensures !OccursAt(s, p, j) {
        assert s[j..j + |p|][|w| - j] == ' ' != p[|w| - j];
      }
      forall j | |w| < j && j + |p| <= |s| ensures !OccursAt(s, p, j) {
        assert !OccursAt(r, p, j - |w| - 1);
        assert s[j..j + |p|] == r[j - |w| - 1..j - |w| - 1 + |p|];
      }
    }
  }

  /**
   * Kotlin's `s.split(sep.toRegex())` for a separator without regex
   * metacharacters: the pieces between the non-overlapping occurrences of
   * `sep`, found left to right; leading and trailing empty pieces are kept.
   */
  function Split(s: string, sep: string): (r: seq<string>)
    requires |sep| > 0
    ensures |r| >= 1
    decreases |s|
  {
    var i := IndexOf(s, sep);
    if i < 0 then [s] else [s[..i]] + Split(s[i + |sep|..], sep)
  }

  /** The text in front of the first occurrence of `sep` does not contain `sep`. */
  lemma PieceBeforeFirst(s: string, sep: string)
    requires |sep| > 0 && IndexOf(s, sep) >= 0
    ensures !Contains(s[..IndexOf(s, sep)], sep)
  {
    var k := IndexOf(s, sep);
    var piece := s[..k];
    forall j | 0 <= j && j + |sep| <= k ensures !OccursAt(piece, sep, j) {
      assert !OccursAt(s, sep, j);
      assert s[j..j + |sep|] == piece[j..j + |sep|];
    }
  }

  /** Splitting loses nothing: joining the pieces back gives `s`. */
  lemma {:induction false} SplitJoin(s: string, sep: string)
    requires |sep| > 0
    ensures Join(Split(s, sep), sep) == s
    decreases |s|
  {
    var i := IndexOf(s, sep);
    if i >= 0 {
      var rest := s[i + |sep|..];
      SplitJoin(rest, sep);
      SplitStep(s, sep);
      JoinCons(s[..i], Split(rest, sep), sep);
    }
  }

  /** Where `sep` occurs, the split is the text before it and the split of the text after it. */
  lemma SplitStep(s: string, sep: string)
    requires |sep| > 0 && IndexOf(s, sep) >= 0
    ensures var i := IndexOf(s, sep);
      && s == s[..i] + sep + s[i + |sep|..]
      && Split(s, sep) == [s[..i]] + Split(s[i + |sep|..], sep)
  {
  }

  lemma JoinCons(a: string, p: seq<string>, sep: string)
    requires |p| >= 1
    ensures Join([a] + p, sep) == a + sep + Join(p, sep)
  {
    assert ([a] + p)[1..] == p;
  }

  /** No piece of a split contains the separator. */
  lemma {:induction false} SplitPiecesFree(s: string, sep: string)
    requires |sep| > 0
    ensures forall k :: 0 <= k < |Split(s, sep)| ==> !Contains(Split(s, sep)[k], sep)
    decreases |s|
  {
    var i := IndexOf(s, sep);
    if i >= 0 {
      var rest := s[i + |sep|..];
      SplitPiecesFree(rest, sep);
      PieceBeforeFirst(s, sep);
      var p := Split(rest, sep);
      assert Split(s, sep) == [s[..i]] + p;
      forall k | 0 < k < |p| + 1 ensures !Contains(Split(s, sep)[k], sep) {
        assert Split(s, sep)[k] == p[k - 1];
      }
    }
  }

  /**
   * The first character of `sep` occurs nowhere else in it ("point",
   * "million", "thousand"), so no occurrence of `sep` can overlap another.
   */
  predicate NoBorder(sep: string)
  {
    |sep| > 0 && forall k :: 0 < k < |sep| ==> sep[k] != sep[0]
  }

  /** A piece free of the separator is split off whole in front of the first separator. */
  lemma SplitConcat(a: string, b: string, sep: string)
    requires |sep| > 0 && NoBorder(sep) && !Contains(a, sep)
    ensures Split(a + sep + b, sep) == [a] + Split(b, sep)
  {
    var s := a + sep + b;
    assert OccursAt(s, sep, |a|) by { assert s[|a|..|a| + |sep|] == sep; }
    forall j | 0 <= j < |a| && j + |sep| <= |a| ensures !OccursAt(s, sep, j) {
      assert !OccursAt(a, sep, j);
      assert a[j..j + |sep|] == s[j..j + |sep|];
    }
    forall j | 0 <= j < |a| < j + |sep| ensures !OccursAt(s, sep, j) {
      assert s[j..j + |sep|][|a| - j] == sep[0] != sep[|a| - j];
    }
    var i := IndexOf(s, sep);
    assert i == |a|;
    assert s[..i] == a && s[i + |sep|..] == b;
  }

  /** Splitting inverts joining, when no piece holds the separator and the separator cannot overlap itself. */
  lemma {:induction false} SplitOfJoin(pieces: seq<string>, sep: string)
    requires |pieces| >= 1 && |sep| > 0 && NoBorder(sep)
    requires forall k :: 0 <= k < |pieces| ==> !Contains(pieces[k], sep)
    ensures Split(Join(pieces, sep), sep) == pieces
    decreases |pieces|
  {
    if |pieces| > 1 {
      SplitOfJoin(pieces[1..], sep);
      SplitConcat(pieces[0], Join(pieces[1..], sep), sep);
    }
  }

  /** `dropLastWhile { it.isEmpty() }` */
  function DropTrailingEmpty(pieces: seq<string>): (r: seq<string>)
    ensures |r| <= |pieces| && r == pieces[..|r|]
    ensures r == [] || r[|r| - 1] != []
    ensures forall k :: |r| <= k < |pieces| ==> pieces[k] == []
  {
    if pieces != [] && pieces[|pieces| - 1] == [] then DropTrailingEmpty(pieces[..|pieces| - 1]) else pieces
  }

  /** Dropping trailing empty pieces never reaches past a non-empty piece. */
  lemma {:induction false} DropTrailingEmptyAppend(p: seq<string>, q: seq<string>)
    requires p != [] && p[|p| - 1] != []
    ensures DropTrailingEmpty(p + q) == p + DropTrailingEmpty(q)
    decreases |q|
  {
    if q == [] {
      assert p + q == p;
      assert p + DropTrailingEmpty(q) == p;
    } else if q[|q| - 1] == [] {
      assert (p + q)[..|p + q| - 1] == p + q[..|q| - 1];
      DropTrailingEmptyAppend(p, q[..|q| - 1]);
    } else {
      assert (p + q)[|p + q| - 1] == q[|q| - 1];
    }
  }

  // ---------------------------------------------------------------------------
  // java.util.StringTokenizer with its default delimiters " \t\n\r\f"

  predicate IsDelimiter(c: char) { c == ' ' || c == '\t' || c == '\n' || c == '\r' || c == '\U{000C}' }

  /** The number of leading characters of `s` that are not delimiters. */
  function TokenLength(s: string): (n: nat)
    ensures n <= |s|
    ensures forall i :: 0 <= i < n ==> !IsDelimiter(s[i])
    ensures n == |s| || IsDelimiter(s[n])
  {
    if s == [] || IsDelimiter(s[0]) then 0 else 1 + TokenLength(s[1..])
  }

  predicate IsToken(t: string) { |t| > 0 && forall i :: 0 <= i < |t| ==> !IsDelimiter(t[i]) }

  /** The tokens `StringTokenizer(s)` returns, in order: the maximal runs of non-delimiters. */
  function Tokens(s: string): (r: seq<string>)
    ensures forall k :: 0 <= k < |r| ==> IsToken(r[k])
    decreases |s|
  {
    if s == [] then []
    else if IsDelimiter(s[0]) then Tokens(s[1..])
    else
      var n := TokenLength(s);
      [s[..n]] + Tokens(s[n..])
  }

  /** A token followed by nothing or by a delimiter is the first token. */
  lemma TokensCons(t: string, rest: string)
    requires IsToken(t)
    requires rest == [] || IsDelimiter(rest[0])
    ensures Tokens(t + rest) == [t] + Tokens(rest)
  {
    var s := t + rest;
    assert s[0] == t[0];
    TokenLengthOf(t, rest);
    assert s[..|t|] == t && s[|t|..] == rest;
  }

  /** Words joined by single spaces tokenise back into the same words. */
  lemma {:induction false} TokensOfJoin(words: seq<string>)
    requires forall k :: 0 <= k < |words| ==> IsToken(words[k])
    ensures Tokens(Join(words, " ")) == words
    decreases |words|
  {
    if |words| == 1 {
      TokensCons(words[0], "");
      assert words[0] + "" == words[0];
    } else if |words| > 1 {
      TokensOfJoin(words[1..]);
      var rest := " " + Join(words[1..], " ");
      assert words[0] + " " + Join(words[1..], " ") == words[0] + rest;
      TokensCons(words[0], rest);
      assert rest[1..] == Join(words[1..], " ");
    }
  }

  /** A string without delimiters is one token; a token surrounded by delimiters is still one token. */
  lemma {:induction false} TokensOfPadded(pre: string, t: string, post: string)
    requires IsToken(t)
    requires forall i :: 0 <= i < |pre| ==> IsDelimiter(pre[i])
    requires forall i :: 0 <= i < |post| ==> IsDelimiter(post[i])
    ensures Tokens(pre + t + post) == [t]
    decreases |pre|
  {
    if pre == [] {
      var s := t + post;
      assert pre + t + post == s && s[0] == t[0];
      assert TokenLength(s) == |t| by { TokenLengthOf(t, post); }
      assert s[..|t|] == t && s[|t|..] == post;
      AllDelimiters(post);
    } else {
      assert (pre + t + post)[1..] == pre[1..] + t + post;
      TokensOfPadded(pre[1..], t, post);
    }
  }

  lemma {:induction false} TokenLengthOf(t: string, post: string)
    requires forall i :: 0 <= i < |t| ==> !IsDelimiter(t[i])
    requires post == [] || IsDelimiter(post[0])
    ensures TokenLength(t + post) == |t|
    decreases |t|
  {
    if t != [] {
      assert (t + post)[1..] == t[1..] + post;
      TokenLengthOf(t[1..], post);
    }
  }

  lemma {:induction false} AllDelimiters(s: string)
    requires forall i :: 0 <= i < |s| ==> IsDelimiter(s[i])
    ensures Tokens(s) == []
    decreases |s|
  {
    if s != [] {
      AllDelimiters(s[1..]);
    }
  }

  // ---------------------------------------------------------------------------
  // Integer.toString and Integer.parseInt

  function DigitChar(d: nat): (c: char)
    requires d < 10
    ensures IsDigit(c)
  {
    ('0' as int + d) as char
  }

  function DigitValue(c: char): (d: nat)
    requires IsDigit(c)
    ensures d < 10 && DigitChar(d) == c
  {
    c as int - '0' as int
  }

  /** The value of a string of decimal digits; the empty string has value 0. */
  function DigitsValue(s: string): nat
    requires AllDigits(s)
  {
    if s == [] then 0 else 10 * DigitsValue(s[..|s| - 1]) + DigitValue(s[|s| - 1])
  }

  /** `Integer.toString` of a non-negative number: its decimal digits, no leading zero. */
  function NatToString(n: nat): (r: string)
    ensures |r| >= 1 && AllDigits(r)
    ensures |r| > 1 ==> r[0] != '0'
    decreases n
  {
    if n < 10 then [DigitChar(n)] else NatToString(n / 10) + [DigitChar(n % 10)]
  }

  /** `Integer.toString`: a '-' sign for a negative number, then the digits of its magnitude. */
  function IntToString(i: int): string
  {
    if i < 0 then "-" + NatToString(-i) else NatToString(i)
  }

  /** The digits of `n` read back give `n`. */
  lemma {:induction false} NatToStringValue(n: nat)
    ensures DigitsValue(NatToString(n)) == n
    decreases n
  {
    if n >= 10 {
      var s := NatToString(n);
      NatToStringValue(n / 10);
      assert s[..|s| - 1] == NatToString(n / 10);
    }
  }

  /**
   * `Integer.parseInt`: an optional '+' or '-' sign followed by one or more
   * decimal digits; anything else is a `NumberFormatException` (`None`).
   */
  function ParseInt(s: string): (r: Option<int>)
  {
    if s != [] && (s[0] == '-' || s[0] == '+') then
      if |s| > 1 && AllDigits(s[1..]) then
        var v: int := DigitsValue(s[1..]);
        Some(if s[0] == '-' then -v else v)
      else None
    else if s != [] && AllDigits(s) then Some(DigitsValue(s))
    else None
  }

  /** `Integer.parseInt` inverts `Integer.toString`. */
  lemma ParseIntToString(i: int)
    ensures ParseInt(IntToString(i)) == Some(i)
  {
    if i < 0 {
      ParseNegative(-i);
    } else {
      ParseNatural(i);
    }
  }

  lemma ParseNatural(n: nat)
    ensures ParseInt(NatToString(n)) == Some(n)
  {
    NatToStringValue(n);
    assert IsDigit(NatToString(n)[0]);
  }

  lemma ParseNegative(n: nat)
    ensures ParseInt("-" + NatToString(n)) == Some(-(n as int))
  {
    NatToStringValue(n);
    var t := "-" + NatToString(n);
    assert t[0] == '-' && t[1..] == NatToString(n);
  }

  /**
   * `parseInt`'s numeral grammar: exactly the strings made of an optional sign and at least
   * one ASCII digit are read, as an unbounded `int` (the `Int` range is `DateParser.ParseInt32`).
   */
  lemma ParseIntDefined(s: string)
    ensures ParseInt(s).Some? <==>
      (s != [] && AllDigits(s)) || (|s| > 1 && (s[0] == '-' || s[0] == '+') && AllDigits(s[1..]))
  {
  }
}
