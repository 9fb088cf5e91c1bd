/**
 * Frequency counting over integer data: `getIntFrequencies`, `getHighestIntFrequency`
 * and `getStartingPositiveIndex`, with Android's `SparseIntArray` as a value.
 */
module Frequencies {

  // ---------------------------------------------------------------------------
  // SparseIntArray: parallel key and value arrays, keys strictly increasing

  datatype SparseIntArray = SparseIntArray(keys: seq<int>, values: seq<int>)

  predicate Valid(a: SparseIntArray)
  {
    |a.keys| == |a.values| && Increasing(a.keys)
  }

  /** Each key is below the next one. */
  predicate Increasing(s: seq<int>)
  {
    |s| <= 1 || (s[0] < s[1] && Increasing(s[1..]))
  }

  /** In an increasing sequence every earlier element is below every later one. */
  lemma {:induction false} IncreasingPairs(s: seq<int>)
    requires Increasing(s)
    ensures forall i, j :: 0 <= i < j < |s| ==> s[i] < s[j]
  {
    if |s| > 1 {
      IncreasingPairs(s[1..]);
      forall i, j | 0 <= i < j < |s| ensures s[i] < s[j] {
        assert s[j] == s[1..][j - 1];
        if i > 0 {
          assert s[i] == s[1..][i - 1];
        } else if j > 1 {
          assert s[1] == s[1..][0];
        }
      }
    }
  }

  /** The first element of an increasing sequence is below all the others. */
  lemma IncreasingHead(s: seq<int>)
    requires Increasing(s) && s != []
    ensures forall x :: x in s[1..] ==> s[0] < x
  {
    IncreasingPairs(s);
    forall x | x in s[1..] ensures s[0] < x {
      var j :| 0 <= j < |s[1..]| && s[1..][j] == x;
      assert s[j + 1] == x;
    }
  }

  /** A run of consecutive integers is increasing. */
  lemma {:induction false} ConsecutiveIncreasing(s: seq<int>)
    requires forall i :: 0 <= i < |s| ==> s[i] == s[0] + i
    ensures Increasing(s)
  {
    if |s| > 1 {
      var t := s[1..];
      forall i | 0 <= i < |t| ensures t[i] == t[0] + i {
        assert t[i] == s[i + 1];
      }
      ConsecutiveIncreasing(t);
    }
  }

  /** In a valid array the position of a key is the index it sits at. */
  lemma FindAt(a: SparseIntArray, i: int)
    requires Valid(a) && 0 <= i < |a.keys|
    ensures Find(a.keys, a.keys[i]) == i
  {
    IncreasingPairs(a.keys);
  }

  const Empty: SparseIntArray := SparseIntArray([], [])

  /** `size()` */
  function Size(a: SparseIntArray): nat { |a.keys| }

  /** `keyAt(i)`: the i-th smallest key. */
  function KeyAt(a: SparseIntArray, i: int): int
    requires 0 <= i < |a.keys|
  {
    a.keys[i]
  }

  /** The position of `k` among `keys`, or -1. */
  function Find(keys: seq<int>, k: int): (r: int)
    ensures r == -1 <==> k !in keys
    ensures r >= 0 ==> r < |keys| && keys[r] == k
  {
    if keys == [] then -1
    else if keys[0] == k then 0
    else
      var j := Find(keys[1..], k);
      if j < 0 then -1 else j + 1
  }

  predicate HasKey(a: SparseIntArray, k: int) { k in a.keys }

  /** `get(k, d)`: the value stored under `k`, or `d` when there is none. */
  function Get(a: SparseIntArray, k: int, d: int): int
    requires |a.keys| == |a.values|
  {
    var i := Find(a.keys, k);
    if i >= 0 then a.values[i] else d
  }

  /** The array with one more entry in front of every key of `a`. */
  function Cons(k: int, v: int, a: SparseIntArray): SparseIntArray
  {
    SparseIntArray([k] + a.keys, [v] + a.values)
  }

  lemma GetCons(k: int, v: int, a: SparseIntArray, x: int, d: int)
    requires Valid(a) && Valid(Cons(k, v, a))
    ensures Get(Cons(k, v, a), x, d) == if x == k then v else Get(a, x, d)
  {
    var c := Cons(k, v, a);
    assert c.keys[1..] == a.keys;
    if x != k && x in a.keys {
      assert c.values[Find(c.keys, x)] == a.values[Find(a.keys, x)];
    }
  }

  /** `put(k, v)`: stores `v` under `k`, in key order, replacing an earlier value. */
  function Put(a: SparseIntArray, k: int, v: int): (r: SparseIntArray)
    requires Valid(a)
    ensures Valid(r)
    ensures forall x :: x in r.keys <==> x in a.keys || x == k
    decreases |a.keys|
  {
    if a.keys == [] then SparseIntArray([k], [v])
    else if a.keys[0] == k then SparseIntArray(a.keys, [v] + a.values[1..])
    else if k < a.keys[0] then
      ConsValid(k, v, a);
      Cons(k, v, a)
    else
      var rest := SparseIntArray(a.keys[1..], a.values[1..]);
      var r' := Put(rest, k, v);
      IncreasingHead(a.keys);
      assert r'.keys[0] in r'.keys;
      ConsValid(a.keys[0], a.values[0], r');
      Cons(a.keys[0], a.values[0], r')
  }

  /** A key below the first key of `a` can go in front. */
  lemma ConsValid(k: int, v: int, a: SparseIntArray)
    requires Valid(a) && (a.keys == [] || k < a.keys[0])
    ensures Valid(Cons(k, v, a))
  {
    var c := Cons(k, v, a);
    assert c.keys[1..] == a.keys;
  }

  /** After `put(k, v)`, `get(k)` is `v` and every other key reads as before. */
  lemma {:induction false} GetPut(a: SparseIntArray, k: int, v: int, x: int, d: int)
    requires Valid(a)
    ensures Get(Put(a, k, v), x, d) == if x == k then v else Get(a, x, d)
    decreases |a.keys|
  {
    var r := Put(a, k, v);
    if a.keys == [] {
    } else if a.keys[0] == k {
      if x != k && x in a.keys {
        var i := Find(a.keys, x);
        assert r.values[i] == a.values[i];
      }
    } else if k < a.keys[0] {
      GetCons(k, v, a, x, d);
    } else {
      var rest := SparseIntArray(a.keys[1..], a.values[1..]);
      assert a == Cons(a.keys[0], a.values[0], rest);
      GetPut(rest, k, v, x, d);
      GetCons(a.keys[0], a.values[0], Put(rest, k, v), x, d);
      GetCons(a.keys[0], a.values[0], rest, x, d);
    }
  }

  lemma GetAbsent(a: SparseIntArray, x: int, d: int)
    requires Valid(a) && !HasKey(a, x)
    ensures Get(a, x, d) == d
  {
  }

  // ---------------------------------------------------------------------------
  // getIntFrequencies

  const NO_MAX_SIZE := 0
  const NO_MAPPING_FOUND := -65536

  /** The array with the keys `0 .. limit-1`, in order, each holding 0. */
  function Gaps(limit: int): (r: SparseIntArray)
    ensures Valid(r)
  {
    var n := if limit <= 0 then 0 else limit;
    ConsecutiveIncreasing(seq(n, i => i));
    SparseIntArray(seq(n, i => i), seq(n, i => 0))
  }

  /** A key above every key goes at the end. */
  lemma {:induction false} PutLast(a: SparseIntArray, k: int, v: int)
    requires Valid(a) && forall i :: 0 <= i < |a.keys| ==> a.keys[i] < k
    ensures Put(a, k, v) == SparseIntArray(a.keys + [k], a.values + [v])
    decreases |a.keys|
  {
    if a.keys != [] {
      var rest := SparseIntArray(a.keys[1..], a.values[1..]);
      assert forall i :: 0 <= i < |rest.keys| ==> rest.keys[i] == a.keys[i + 1];
      PutLast(rest, k, v);
      assert Put(a, k, v) == Cons(a.keys[0], a.values[0], Put(rest, k, v));
      assert [a.keys[0]] + (rest.keys + [k]) == a.keys + [k];
      assert [a.values[0]] + (rest.values + [v]) == a.values + [v];
    }
  }

  /** `put(i, 0)` on the gaps up to `i` gives the gaps up to `i + 1`. */
  lemma GapsNext(i: int)
    requires i >= 0
    ensures Put(Gaps(i), i, 0) == Gaps(i + 1)
  {
    PutLast(Gaps(i), i, 0);
    assert Gaps(i).keys + [i] == Gaps(i + 1).keys;
    assert Gaps(i).values + [0] == Gaps(i + 1).values;
  }

  /** The gap-filled array has exactly the keys `0 .. limit-1`, each with value 0. */
  lemma GapsSpec(limit: int, x: int, d: int)
    ensures HasKey(Gaps(limit), x) <==> 0 <= x < limit
    ensures Get(Gaps(limit), x, d) == if 0 <= x < limit then 0 else d
  {
    if 0 <= x < limit {
      assert Gaps(limit).keys[x] == x;
    }
  }

  /** One step of the counting loop over `data`. */
  function CountOne(a: SparseIntArray, e: int): (r: SparseIntArray)
    requires Valid(a)
    ensures Valid(r)
  {
    if Get(a, e, NO_MAPPING_FOUND) == NO_MAPPING_FOUND then Put(a, e, 1)
    else Put(a, e, Get(a, e, 0) + 1)
  }

  /** The counting loop over `data`, in order, starting from `a`. */
  function CountInto(a: SparseIntArray, data: seq<int>): (r: SparseIntArray)
    requires Valid(a)
    ensures Valid(r)
  {
    if data == [] then a else CountOne(CountInto(a, data[..|data| - 1]), data[|data| - 1])
  }

  lemma CountIntoNext(a: SparseIntArray, data: seq<int>, k: int)
    requires Valid(a) && 0 <= k < |data|
    ensures CountInto(a, data[..k + 1]) == CountOne(CountInto(a, data[..k]), data[k])
  {
    assert data[..k + 1][..k] == data[..k];
  }

  predicate NonNegativeValues(a: SparseIntArray)
  {
    forall i :: 0 <= i < |a.values| ==> a.values[i] >= 0
  }

  lemma NonNegativeGet(a: SparseIntArray, x: int, d: int)
    requires Valid(a) && NonNegativeValues(a) && HasKey(a, x)
    ensures Get(a, x, d) >= 0
  {
  }

  lemma PutNonNegative(a: SparseIntArray, k: int, v: int)
    requires Valid(a) && NonNegativeValues(a) && v >= 0
    ensures NonNegativeValues(Put(a, k, v))
  {
    var r := Put(a, k, v);
    forall i | 0 <= i < |r.values| ensures r.values[i] >= 0 {
      var x := r.keys[i];
      FindAt(r, i);
      GetPut(a, k, v, x, 0);
      if x != k {
        NonNegativeGet(a, x, 0);
      }
    }
  }

  /** One counting step: the key `e` is added with 1, or its stored count is raised by 1. */
  lemma CountOneSpec(b: SparseIntArray, e: int)
    requires Valid(b) && NonNegativeValues(b)
    ensures NonNegativeValues(CountOne(b, e))
    ensures forall x :: HasKey(CountOne(b, e), x) <==> HasKey(b, x) || x == e
    ensures forall x :: (Get(CountOne(b, e), x, NO_MAPPING_FOUND) ==
      if x == e then (if HasKey(b, e) then Get(b, e, 0) + 1 else 1) else Get(b, x, NO_MAPPING_FOUND))
  {
    if HasKey(b, e) {
      NonNegativeGet(b, e, 0);
      NonNegativeGet(b, e, NO_MAPPING_FOUND);
      assert CountOne(b, e) == Put(b, e, Get(b, e, 0) + 1);
      PutSpec(b, e, Get(b, e, 0) + 1);
    } else {
      assert CountOne(b, e) == Put(b, e, 1);
      PutSpec(b, e, 1);
    }
  }

  /** `put` on a table of non-negative counts, with a non-negative value. */
  lemma PutSpec(b: SparseIntArray, e: int, v: int)
    requires Valid(b) && NonNegativeValues(b) && v >= 0
    ensures NonNegativeValues(Put(b, e, v))
    ensures forall x :: HasKey(Put(b, e, v), x) <==> HasKey(b, x) || x == e
    ensures forall x :: Get(Put(b, e, v), x, NO_MAPPING_FOUND) == if x == e then v else Get(b, x, NO_MAPPING_FOUND)
  {
    PutNonNegative(b, e, v);
    forall x ensures Get(Put(b, e, v), x, NO_MAPPING_FOUND) == if x == e then v else Get(b, x, NO_MAPPING_FOUND) {
      GetPut(b, e, v, x, NO_MAPPING_FOUND);
    }
  }

  /** The expected count of `x` after counting `data` into `a`. */
  function Expected(a: SparseIntArray, data: seq<int>, x: int): int
    requires Valid(a)
  {
    if x in multiset(data) then Get(a, x, 0) + multiset(data)[x] else Get(a, x, NO_MAPPING_FOUND)
  }

  lemma CountStepAt(a: SparseIntArray, b: SparseIntArray, init: seq<int>, e: int, x: int)
    requires Valid(a) && Valid(b) && NonNegativeValues(a)
    requires HasKey(b, x) <==> HasKey(a, x) || x in init
    requires HasKey(b, e) <==> HasKey(a, e) || e in init
    requires Get(b, x, NO_MAPPING_FOUND) == Expected(a, init, x)
    requires Get(b, e, NO_MAPPING_FOUND) == Expected(a, init, e)
    requires NonNegativeValues(b)
    ensures Get(CountOne(b, e), x, NO_MAPPING_FOUND) == Expected(a, init + [e], x)
  {
    CountOneSpec(b, e);
    assert multiset(init + [e]) == multiset(init) + multiset{e};
    if x == e && HasKey(b, e) {
      NonNegativeGet(b, e, 0);
      if !(e in init) {
        assert HasKey(a, e);
      }
    } else if x == e {
      GetAbsent(a, e, 0);
    }
  }

  /**
   * Counting adds each value's number of occurrences: a key already present (a gap key,
   * holding 0) is raised by it, a new key starts at it, and the rest is untouched.
   * Because stored counts are never negative, the sentinel `NO_MAPPING_FOUND` is never
   * mistaken for a stored value.
   */
  lemma {:induction false} CountIntoSpec(a: SparseIntArray, data: seq<int>)
    requires Valid(a) && NonNegativeValues(a)
    ensures NonNegativeValues(CountInto(a, data))
    ensures forall x :: HasKey(CountInto(a, data), x) <==> HasKey(a, x) || x in data
    ensures forall x :: Get(CountInto(a, data), x, NO_MAPPING_FOUND) == Expected(a, data, x)
    decreases |data|
  {
    if data != [] {
      var init := data[..|data| - 1];
      var e := data[|data| - 1];
      assert data == init + [e];
      CountIntoSpec(a, init);
      var b := CountInto(a, init);
      CountOneSpec(b, e);
      forall x ensures Get(CountInto(a, data), x, NO_MAPPING_FOUND) == Expected(a, data, x) {
        CountStepAt(a, b, init, e, x);
      }
    }
  }

  /** The limit of the gap filling: `maxSize`, or the data size for `NO_MAX_SIZE`. */
  function Limit(size: nat, maxSize: int): int
  {
    if maxSize == NO_MAX_SIZE then size else maxSize
  }

  /** The array `getIntFrequencies` returns for `data`. */
  function FrequencyTable(data: seq<int>, fillInGaps: bool, maxSize: int): (r: SparseIntArray)
    ensures Valid(r)
  {
    CountInto(if fillInGaps then Gaps(Limit(|data|, maxSize)) else Empty, data)
  }

  /**
   * Every value in `data` maps to its number of occurrences; with `fillInGaps` every key
   * in `[0, limit)` is present, holding 0 when absent from `data`; no other key is present.
   */
  lemma FrequencyTableSpec(data: seq<int>, fillInGaps: bool, maxSize: int, x: int)
    ensures var r := FrequencyTable(data, fillInGaps, maxSize);
      && (HasKey(r, x) <==> x in data || (fillInGaps && 0 <= x < Limit(|data|, maxSize)))
      && Get(r, x, NO_MAPPING_FOUND) ==
        if x in multiset(data) then multiset(data)[x]
        else if fillInGaps && 0 <= x < Limit(|data|, maxSize) then 0
        else NO_MAPPING_FOUND
  {
    var init := if fillInGaps then Gaps(Limit(|data|, maxSize)) else Empty;
    if fillInGaps {
      GapsSpec(Limit(|data|, maxSize), x, 0);
      GapsSpec(Limit(|data|, maxSize), x, NO_MAPPING_FOUND);
      forall i | 0 <= i < |init.values| ensures init.values[i] >= 0 {
        GapsSpec(Limit(|data|, maxSize), init.keys[i], 0);
        assert Find(init.keys, init.keys[i]) == i;
      }
    }
    CountIntoSpec(init, data);
  }

  /** With empty data and no gap filling the result is empty. */
  lemma EmptyWithoutGaps(maxSize: int)
    ensures Size(FrequencyTable([], false, maxSize)) == 0
  {
  }

  /** The table does not depend on the order of `data`, only on its multiset. */
  lemma FrequencyTableOrderFree(data: seq<int>, data': seq<int>, fillInGaps: bool, maxSize: int, x: int)
    requires multiset(data) == multiset(data')
    ensures Get(FrequencyTable(data, fillInGaps, maxSize), x, NO_MAPPING_FOUND)
         == Get(FrequencyTable(data', fillInGaps, maxSize), x, NO_MAPPING_FOUND)
  {
    assert |data| == |multiset(data)| == |data'|;
    assert x in data <==> x in multiset(data);
    assert x in data' <==> x in multiset(data');
    FrequencyTableSpec(data, fillInGaps, maxSize, x);
    FrequencyTableSpec(data', fillInGaps, maxSize, x);
  }

  predicate Sorted(s: seq<int>)
  {
    forall p, q :: 0 <= p < q < |s| ==> s[p] <= s[q]
  }

  /** `Arrays.sort(data)`: sorts the caller's array ascending, in place. */
  method SortAscending(a: array<int>)
    modifies a
    ensures Sorted(a[..]) && multiset(a[..]) == multiset(old(a[..]))
  {
    if a.Length == 0 {
      return;
    }
    assert SortedBelow(a[..], 1);
    for i := 1 to a.Length
      invariant SortedBelow(a[..], i)
      invariant multiset(a[..]) == multiset(old(a[..]))
    {
      var j := i;
      while j > 0 && a[j - 1] > a[j]
        invariant 0 <= j <= i
        invariant Inserting(a[..], i, j)
        invariant multiset(a[..]) == multiset(old(a[..]))
      {
        ghost var s := a[..];
        a[j - 1], a[j] := a[j], a[j - 1];
        assert a[..] == Swapped(s, j);
        SwapStep(s, i, j);
        j := j - 1;
      }
      InsertDone(a[..], i, j);
    }
    assert a[..] == a[..a.Length];
  }

  /** The first `i` elements are in order. */
  predicate SortedBelow(s: seq<int>, i: int)
    requires 0 <= i <= |s|
  {
    forall p, q :: 0 <= p < q < i ==> s[p] <= s[q]
  }

  /**
   * During the insertion of `s[i]`, which now sits at `j`: apart from index `j` the first
   * `i + 1` elements are in order, and the inserted one is below those after it.
   */
  predicate Inserting(s: seq<int>, i: int, j: int)
    requires 0 <= j <= i < |s|
  {
    && (forall p, q :: 0 <= p < q <= i && p != j && q != j ==> s[p] <= s[q])
    && (forall q :: j < q <= i ==> s[j] <= s[q])
  }

  function Swapped(s: seq<int>, j: int): seq<int>
    requires 0 < j < |s|
  {
    s[j - 1 := s[j]][j := s[j - 1]]
  }

  lemma SwapStep(s: seq<int>, i: int, j: int)
    requires 0 < j <= i < |s| && Inserting(s, i, j) && s[j - 1] > s[j]
    ensures Inserting(Swapped(s, j), i, j - 1)
    ensures multiset(Swapped(s, j)) == multiset(s)
  {
    var t := Swapped(s, j);
    forall p, q | 0 <= p < q <= i && p != j - 1 && q != j - 1 ensures t[p] <= t[q] {
      if p == j {
        assert t[p] == s[j - 1];
        if q > j {
          assert s[j - 1] <= s[q] || j - 1 == q;
        }
      }
    }
  }

  lemma InsertDone(s: seq<int>, i: int, j: int)
    requires 0 <= j <= i < |s| && Inserting(s, i, j) && (j == 0 || s[j - 1] <= s[j])
    ensures SortedBelow(s, i + 1)
  {
  }

  /** The gap-filling loop `for (i in 0 until limit) array.put(i, 0)` on a new array. */
  method FillGaps(limit: int) returns (table: SparseIntArray)
    ensures table == Gaps(limit)
  {
    table := Empty;
    var i := 0;
    while i < limit
      invariant 0 <= i && (i <= limit || i == 0)
      invariant table == Gaps(i)
    {
      GapsNext(i);
      table := Put(table, i, 0);
      i := i + 1;
    }
  }

  /** The counting loop `for (element in data)` of `getIntFrequencies`, into `init`. */
  method CountElements(data: array<int>, init: SparseIntArray) returns (table: SparseIntArray)
    requires Valid(init)
    ensures table == CountInto(init, data[..])
  {
    table := init;
    for k := 0 to data.Length
      invariant table == CountInto(init, data[..k])
    {
      var element := data[k];
      ghost var before := table;
      if Get(table, element, NO_MAPPING_FOUND) == NO_MAPPING_FOUND {
        table := Put(table, element, 1);
      } else {
        var previousValue := Get(table, element, 0);
        previousValue := previousValue + 1;
        table := Put(table, element, previousValue);
      }
      assert table == CountOne(before, element);
      CountIntoNext(init, data[..], k);
      assert data[..][..k] == data[..k] && data[..][..k + 1] == data[..k + 1];
    }
    assert data[..data.Length] == data[..];
  }

  /**
   * `getIntFrequencies(data, fillInGaps, maxSize)`: sorts `data` in place and returns
   * the frequency table of its values.
   */
  method GetIntFrequencies(data: array<int>, fillInGaps: bool, maxSize: int) returns (table: SparseIntArray)
    modifies data
    ensures Sorted(data[..]) && multiset(data[..]) == multiset(old(data[..]))
    ensures table == FrequencyTable(data[..], fillInGaps, maxSize)
  {
    var limit := if maxSize == NO_MAX_SIZE then data.Length else maxSize;
    if data.Length > 0 {
      SortAscending(data);
      table := Empty;
      if fillInGaps {
        table := FillGaps(limit);
      }
      table := CountElements(data, table);
    } else {
      table := Empty;
      if fillInGaps {
        table := FillGaps(limit);
      }
    }
  }

  // ---------------------------------------------------------------------------
  // getStartingPositiveIndex and getHighestIntFrequency

  const NO_INDEX_LIMIT := 2147483647

  /** The index `getStartingPositiveIndex(data, limit)` returns. */
  function StartingPositiveIndex(a: SparseIntArray, limit: int): (r: int)
    ensures 0 <= r <= if Size(a) == 0 then 0 else Size(a) - 1
  {
    if limit <= 0 then 0 else FirstNonNegativeKey(a, 0)
  }

  /** The first index from `i` whose key is not negative, stopping at the last entry. */
  function FirstNonNegativeKey(a: SparseIntArray, i: nat): (r: nat)
    ensures i <= r <= if i >= Size(a) - 1 then i else Size(a) - 1
    ensures r >= Size(a) - 1 || a.keys[r] >= 0
    ensures forall j :: i <= j < r ==> a.keys[j] < 0
    decreases Size(a) - i
  {
    if i >= Size(a) - 1 || a.keys[i] >= 0 then i else FirstNonNegativeKey(a, i + 1)
  }

  /**
   * The returned index is never -1 and never past the last entry; every key before it is
   * negative; with a positive limit it is the first non-negative key unless it is the last
   * entry; with a limit of at most 0 it is 0.
   */
  lemma StartingPositiveIndexSpec(a: SparseIntArray, limit: int)
    ensures var r := StartingPositiveIndex(a, limit);
      && 0 <= r <= (if Size(a) == 0 then 0 else Size(a) - 1)
      && (forall j :: 0 <= j < r ==> KeyAt(a, j) < 0)
      && (limit > 0 && r < Size(a) - 1 ==> KeyAt(a, r) >= 0)
      && (limit <= 0 ==> r == 0)
  {
  }

  /** The loop of `getStartingPositiveIndex`, with its self-raising limit. */
  method GetStartingPositiveIndex(data: SparseIntArray, limit0: int) returns (r: int)
    requires Size(data) <= NO_INDEX_LIMIT
    ensures r == StartingPositiveIndex(data, limit0)
  {
    var limit := limit0;
    var entriesSize := Size(data);
    var index := 0;
    while index < limit && index < entriesSize - 1
      invariant 0 <= index <= (if entriesSize == 0 then 0 else entriesSize - 1)
      invariant limit0 > 0 ==> index < limit
      invariant limit0 > 0 ==> FirstNonNegativeKey(data, index) == FirstNonNegativeKey(data, 0)
      invariant limit0 <= 0 ==> index == 0 && limit == limit0
      decreases entriesSize - index
    {
      if KeyAt(data, index) >= 0 {
        break;
      }
      index := index + 1;
      if limit != NO_INDEX_LIMIT {
        limit := limit + 1;
      }
    }
    r := if index > entriesSize then -1 else index;
  }

  /** The largest of 0 and `get(i)` for `i` in `[start, end)`: the maximum the scan finds. */
  function HighestFrom(a: SparseIntArray, start: int, end: int): (r: int)
    requires |a.keys| == |a.values|
    ensures r >= 0
    decreases end - start
  {
    if start >= end then 0
    else
      var h := HighestFrom(a, start, end - 1);
      var current := Get(a, end - 1, 0);
      if current > h then current else h
  }

  lemma HighestFromNext(a: SparseIntArray, start: int, i: int)
    requires |a.keys| == |a.values| && start <= i
    ensures HighestFrom(a, start, i + 1) == if Get(a, i, 0) > HighestFrom(a, start, i) then Get(a, i, 0) else HighestFrom(a, start, i)
  {
  }

  /** The start index `getHighestIntFrequency` scans from. */
  function HighestStart(a: SparseIntArray, includeNegativeKeys: bool, sorted: bool): int
  {
    if sorted && !includeNegativeKeys then
      var calculatedIndex := StartingPositiveIndex(a, NO_INDEX_LIMIT);
      if calculatedIndex != -1 then calculatedIndex else 0
    else 0
  }

  /** What `getHighestIntFrequency(data, includeNegativeKeys, sorted)` returns. */
  function HighestIntFrequency(a: SparseIntArray, includeNegativeKeys: bool, sorted: bool): int
    requires Valid(a)
  {
    HighestFrom(a, HighestStart(a, includeNegativeKeys, sorted), Size(a))
  }

  /**
   * The scan's result is at least 0 and at least `get(i)` (lookup by key `i`) for every
   * index `i` scanned, and it is 0 or one of those values.
   */
  lemma {:induction false} HighestFromSpec(a: SparseIntArray, start: int, end: int)
    requires Valid(a)
    ensures forall i :: start <= i < end ==> Get(a, i, 0) <= HighestFrom(a, start, end)
    ensures HighestFrom(a, start, end) == 0
         || exists i :: start <= i < end && HighestFrom(a, start, end) == Get(a, i, 0)
    decreases end - start
  {
    if start < end {
      HighestFromSpec(a, start, end - 1);
    }
  }

  lemma HighestIntFrequencySpec(a: SparseIntArray, includeNegativeKeys: bool, sorted: bool)
    requires Valid(a)
    ensures var h := HighestIntFrequency(a, includeNegativeKeys, sorted);
      var start := HighestStart(a, includeNegativeKeys, sorted);
      && h >= 0
      && (forall i :: start <= i < Size(a) ==> Get(a, i, 0) <= h)
      && (h == 0 || exists i :: start <= i < Size(a) && h == Get(a, i, 0))
      && (includeNegativeKeys || !sorted ==> start == 0)
  {
    HighestFromSpec(a, HighestStart(a, includeNegativeKeys, sorted), Size(a));
  }

  /** The scan of `getHighestIntFrequency`. */
  method GetHighestIntFrequency(data: SparseIntArray, includeNegativeKeys: bool, sorted: bool) returns (highest: int)
    requires Valid(data) && Size(data) <= NO_INDEX_LIMIT
    ensures highest == HighestIntFrequency(data, includeNegativeKeys, sorted)
  {
    var startIndex := 0;
    if sorted && !includeNegativeKeys {
      var calculatedIndex := GetStartingPositiveIndex(data, NO_INDEX_LIMIT);
      startIndex := if calculatedIndex != -1 then calculatedIndex else 0;
    }
    highest := ScanHighest(data, startIndex);
  }

  /** The loop `for (i in startIndex until data.size())` of `getHighestIntFrequency`, from `highest = 0`. */
  method ScanHighest(data: SparseIntArray, startIndex: int) returns (highest: int)
    requires |data.keys| == |data.values|
    ensures highest == HighestFrom(data, startIndex, Size(data))
  {
    highest := 0;
    var i := startIndex;
    while i < Size(data)
      invariant startIndex <= i && (i <= Size(data) || i == startIndex)
      invariant highest == HighestFrom(data, startIndex, i)
    {
      HighestFromNext(data, startIndex, i);
      var current := Get(data, i, 0);
      if current > highest {
        highest := current;
      }
      i := i + 1;
    }
  }
}
