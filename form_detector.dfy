/**
 * `EditTextFormChangedDetector`: caches the trimmed texts of a list of form fields and
 * reports whether the fields differ from the cache. The fields' current texts are passed
 * to each call.
 */
module FormDetector {
  import opened Common
  import opened Text

  /** The list `getStringsFromEditTexts` builds: every text trimmed, in order. */
  function TrimmedTexts(texts: seq<string>): (r: seq<string>)
    ensures |r| == |texts|
  {
    if texts == [] then [] else TrimmedTexts(texts[..|texts| - 1]) + [Trim(texts[|texts| - 1])]
  }

  /** Each entry of the list is the trimmed text of the field at the same index. */
  lemma {:induction false} TrimmedTextsAt(texts: seq<string>, i: int)
    requires 0 <= i < |texts|
    ensures TrimmedTexts(texts)[i] == Trim(texts[i])
    decreases |texts|
  {
    if i < |texts| - 1 {
      TrimmedTextsAt(texts[..|texts| - 1], i);
    }
  }

  /** `UiUtils.EditTextUtils.getStringsFromEditTexts`: trims each text with `trim { it <= ' ' }`. */
  method GetStringsFromEditTexts(texts: seq<string>) returns (values: seq<string>)
    ensures values == TrimmedTexts(texts)
  {
    values := [];
    for i := 0 to |texts|
      invariant values == TrimmedTexts(texts[..i])
    {
      assert texts[..i + 1][..i] == texts[..i];
      values := values + [Trim(texts[i])];
    }
    assert texts[..|texts|] == texts;
  }

  /**
   * What `haveFieldsChanged` returns for a cache and the current trimmed strings, scanning
   * the cache's indices from `i`: `Some(true)` at the first difference, `Some(false)` when
   * there is none, and `None` where it would index past the current list
   * (IndexOutOfBoundsException).
   */
  function ChangedFrom(cached: seq<string>, updated: seq<string>, i: nat): Option<bool>
    decreases |cached| - i
  {
    if i >= |cached| then Some(false)
    else if i >= |updated| then None
    else if cached[i] != updated[i] then Some(true)
    else ChangedFrom(cached, updated, i + 1)
  }

  function FieldsChanged(cached: seq<string>, updated: seq<string>): Option<bool>
  {
    ChangedFrom(cached, updated, 0)
  }

  /**
   * With at least as many current strings as cached ones, the answer is defined, and it is
   * true exactly when some cached index holds a different string; fields past the cache's
   * length are never compared.
   */
  lemma {:induction false} ChangedFromSpec(cached: seq<string>, updated: seq<string>, i: nat)
    requires |cached| <= |updated|
    ensures ChangedFrom(cached, updated, i) ==
      Some(exists j :: i <= j < |cached| && cached[j] != updated[j])
    decreases |cached| - i
  {
    if i < |cached| && cached[i] == updated[i] {
      ChangedFromSpec(cached, updated, i + 1);
      assert forall j :: i <= j < |cached| && cached[j] != updated[j] ==> i + 1 <= j;
    }
  }

  lemma FieldsChangedSpec(cached: seq<string>, updated: seq<string>)
    requires |cached| <= |updated|
    ensures FieldsChanged(cached, updated) == Some(exists j :: 0 <= j < |cached| && cached[j] != updated[j])
  {
    ChangedFromSpec(cached, updated, 0);
  }

  /** Extra current fields beyond the cache do not affect the answer. */
  lemma {:induction false} ChangedFromPrefix(cached: seq<string>, updated: seq<string>, extra: seq<string>, i: nat)
    requires |cached| <= |updated|
    ensures ChangedFrom(cached, updated + extra, i) == ChangedFrom(cached, updated, i)
    decreases |cached| - i
  {
    if i < |cached| {
      assert (updated + extra)[i] == updated[i];
      ChangedFromPrefix(cached, updated, extra, i + 1);
    }
  }

  /** A cache longer than the current list fails unless a difference comes first. */
  lemma {:induction false} ChangedFromShort(cached: seq<string>, updated: seq<string>, i: nat)
    requires |updated| < |cached| && i <= |updated|
    ensures ChangedFrom(cached, updated, i) ==
      if exists j :: i <= j < |updated| && cached[j] != updated[j] then Some(true) else None
    decreases |cached| - i
  {
    if i < |updated| && cached[i] == updated[i] {
      ChangedFromShort(cached, updated, i + 1);
      assert forall j :: i <= j < |updated| && cached[j] != updated[j] ==> i + 1 <= j;
    }
  }

  /** Comparing a cache with itself finds no change. */
  lemma FieldsChangedSelf(cached: seq<string>)
    ensures FieldsChanged(cached, cached) == Some(false)
  {
    FieldsChangedSpec(cached, cached);
  }

  class FormChangedDetector {
    /** `_cachedStrings` */
    var cachedStrings: seq<string>

    /** The primary constructor with its default: caches the fields' trimmed texts. */
    constructor (texts: seq<string>)
      ensures cachedStrings == TrimmedTexts(texts)
    {
      var values := GetStringsFromEditTexts(texts);
      cachedStrings := values;
    }

    /** The primary constructor with an explicit `_cachedStrings`. */
    constructor WithCache(cache: seq<string>)
      ensures cachedStrings == cache
    {
      cachedStrings := cache;
    }

    /** `haveFieldsChanged()`, with the fields' current texts; it does not touch the cache. */
    method HaveFieldsChanged(texts: seq<string>) returns (changed: Option<bool>)
      ensures changed == FieldsChanged(cachedStrings, TrimmedTexts(texts))
    {
      var updatedStrings := GetStringsFromEditTexts(texts);
      for i := 0 to |cachedStrings|
        invariant ChangedFrom(cachedStrings, updatedStrings, 0) == ChangedFrom(cachedStrings, updatedStrings, i)
      {
        if i >= |updatedStrings| {
          return None;
        }
        var cached := cachedStrings[i];
        var updated := updatedStrings[i];
        if cached != updated {
          return Some(true);
        }
      }
      return Some(false);
    }

    /** `updateCachedFields()`: the cache becomes the fields' current trimmed texts. */
    method UpdateCachedFields(texts: seq<string>)
      modifies this
      ensures cachedStrings == TrimmedTexts(texts)
    {
      var values := GetStringsFromEditTexts(texts);
      cachedStrings := values;
    }
  }

  /** Right after construction or an update, unchanged fields report no change. */
  method CheckAfterUpdate(d: FormChangedDetector, texts: seq<string>) returns (changed: Option<bool>)
    modifies d
    ensures d.cachedStrings == TrimmedTexts(texts)
    ensures changed == Some(false)
  {
    d.UpdateCachedFields(texts);
    changed := d.HaveFieldsChanged(texts);
    FieldsChangedSelf(TrimmedTexts(texts));
  }
}
