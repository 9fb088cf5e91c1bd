/** `StringUtils.toTitleCase`: one pass over the characters with a "capitalise next" flag. */
module TitleCase {

  /**
   * `Character.isSpaceChar`: the Unicode space separators (Zs), the line separator (Zl)
   * and the paragraph separator (Zp). Tab and newline are not among them.
   */
  predicate IsSpaceChar(c: char)
  {
    || c == ' ' || c == '\U{00A0}' || c == '\U{1680}'
    || ('\U{2000}' <= c <= '\U{200A}')
    || c == '\U{2028}' || c == '\U{2029}' || c == '\U{202F}' || c == '\U{205F}' || c == '\U{3000}'
  }

  /** `Character.toTitleCase`, on ASCII: a lower-case letter becomes its capital, anything else is kept. */
  function TitleChar(c: char): (t: char)
    ensures ('a' <= c <= 'z') ==> t as int == c as int - 32
    ensures !('a' <= c <= 'z') ==> t == c
  {
    if 'a' <= c <= 'z' then (c as int - 32) as char else c
  }

  /** Whether the character at index `i` starts a word: it is first, or follows a space character. */
  predicate StartsWord(s: string, i: int)
    requires 0 <= i < |s|
  {
    i == 0 || IsSpaceChar(s[i - 1])
  }

  /** The character `toTitleCase` writes at index `i`. */
  function TitleAt(s: string, i: int): char
    requires 0 <= i < |s|
  {
    if !IsSpaceChar(s[i]) && StartsWord(s, i) then TitleChar(s[i]) else s[i]
  }

  /** What `toTitleCase(input)` returns. */
  function TitleCased(s: string): (r: string)
    ensures |r| == |s|
  {
    seq(|s|, i requires 0 <= i < |s| => TitleAt(s, i))
  }

  /** The loop of `toTitleCase`, appending to a builder. */
  method ToTitleCase(input: string) returns (titleCase: string)
    ensures titleCase == TitleCased(input)
  {
    titleCase := "";
    var nextTitleCase := true;
    for i := 0 to |input|
      invariant titleCase == TitleCased(input)[..i]
      invariant nextTitleCase <==> (i == 0 || IsSpaceChar(input[i - 1]))
    {
      var c := input[i];
      if IsSpaceChar(c) {
        nextTitleCase := true;
      } else if nextTitleCase {
        c := TitleChar(c);
        nextTitleCase := false;
      }
      titleCase := titleCase + [c];
    }
  }

  /**
   * The output has the input's length; space characters are copied; the first non-space
   * character of each word is title-cased; every other character is copied, so the rest of
   * a word keeps its case.
   */
  lemma TitleCasedSpec(s: string)
    ensures |TitleCased(s)| == |s|
    ensures forall i :: 0 <= i < |s| && IsSpaceChar(s[i]) ==> TitleCased(s)[i] == s[i]
    ensures forall i :: 0 <= i < |s| && !IsSpaceChar(s[i]) && StartsWord(s, i) ==> TitleCased(s)[i] == TitleChar(s[i])
    ensures forall i :: 0 <= i < |s| && !StartsWord(s, i) ==> TitleCased(s)[i] == s[i]
    ensures s == [] ==> TitleCased(s) == []
  {
  }

  /** Title-casing works word by word: a space character separates the cases of the two sides. */
  lemma TitleCasedSplit(a: string, c: char, b: string)
    requires IsSpaceChar(c)
    ensures TitleCased(a + [c] + b) == TitleCased(a) + [c] + TitleCased(b)
  {
    var s := a + [c] + b;
    var r := TitleCased(a) + [c] + TitleCased(b);
    forall i | 0 <= i < |s| ensures TitleCased(s)[i] == r[i] {
      if i < |a| {
        assert s[i] == a[i];
        if i > 0 {
          assert s[i - 1] == a[i - 1];
        }
      } else if i > |a| {
        assert s[i] == b[i - |a| - 1];
        if i > |a| + 1 {
          assert s[i - 1] == b[i - |a| - 2];
        }
      }
    }
  }

  lemma TitleCharKeepsSpace(c: char)
    ensures IsSpaceChar(TitleChar(c)) <==> IsSpaceChar(c)
  {
  }

  /** Title-casing twice is title-casing once. */
  lemma TitleCasedIdempotent(s: string)
    ensures TitleCased(TitleCased(s)) == TitleCased(s)
  {
    var t := TitleCased(s);
    forall i | 0 <= i < |s| ensures TitleCased(t)[i] == t[i] {
      TitleCharKeepsSpace(s[i]);
      if i > 0 {
        TitleCharKeepsSpace(s[i - 1]);
        assert IsSpaceChar(t[i - 1]) <==> IsSpaceChar(s[i - 1]);
      }
    }
  }
}
