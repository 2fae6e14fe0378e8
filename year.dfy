/**
  `processRegistrationYearData`: an initially empty object keyed by
  registration year, bumped with `(counts[year] || 0) + 1` per record, whose
  keys and values the line chart reads with `Object.keys` and
  `Object.values`.

  A year used as a property key becomes its decimal string. Section 10.1.11.1
  of ECMAScript 2023 (OrdinaryOwnPropertyKeys) lists the keys that are array
  indices (the integers 0 .. 2^32 - 2) first, in ascending numeric order, and
  then every other string key in the order it was created. So the object is
  modelled by two key lists, `indexKeys` kept ascending and `namedKeys` kept
  in creation order (for years outside the array-index range, such as
  negative years), together with the counters under the keys.
*/
module YearData {
  import opened Counting
  import opened Users

  /** 2^32 - 1, the first integer that is not an array index. */
  const ARRAY_INDEX_LIMIT: int := 0xFFFF_FFFF

  predicate IsArrayIndex(k: int) {
    0 <= k < ARRAY_INDEX_LIMIT
  }

  predicate Increasing(s: seq<int>) {
    forall i, j :: 0 <= i < j < |s| ==> s[i] < s[j]
  }

  datatype YearCounts = YearCounts(indexKeys: seq<int>, namedKeys: seq<int>, counts: map<int, nat>) {

    /** `Object.keys`: every array-index key first, then the others after them. */
    function Keys(): (k: seq<int>)
      ensures |k| == |indexKeys| + |namedKeys|
      ensures indexKeys <= k && k[|indexKeys|..] == namedKeys
    {
      indexKeys + namedKeys
    }

    /** Every key is listed once, and the listed keys are exactly the stored ones. */
    predicate Valid() {
      && NoDup(Keys())
      && (forall i :: 0 <= i < |Keys()| ==> Keys()[i] in counts)
      && (forall y :: y in counts ==> y in Keys())
    }

    /**
      `Object.values`: one counter per key, in key order, so that every
      stored counter is listed at the position of its key.
    */
    function Values(): (v: seq<nat>)
      requires Valid()
      ensures |v| == |Keys()|
      ensures forall i :: 0 <= i < |v| ==> v[i] == counts[Keys()[i]]
      ensures forall y :: y in counts ==> exists i :: 0 <= i < |v| && Keys()[i] == y && v[i] == counts[y]
    {
      var v := seq(|Keys()|, i requires 0 <= i < |Keys()| => counts[Keys()[i]]);
      assert forall y :: y in counts ==> exists i :: 0 <= i < |Keys()| && Keys()[i] == y && v[i] == counts[y];
      v
    }
  }

  /**
    Puts `y` into an ascending key list at its numeric position, as an
    engine files a new array-index key; a key already present stays put.
  */
  function InsertSorted(s: seq<int>, y: int): (r: seq<int>)
    requires Increasing(s)
    ensures Increasing(r)
    ensures forall x {:trigger x in r} :: x in r <==> x in s || x == y
    ensures r != [] && (r[0] == y || (s != [] && r[0] == s[0]))
  {
    if s == [] then [y]
    else if y < s[0] then [y] + s
    else if y == s[0] then s
    else
      var t := InsertSorted(s[1..], y);
      assert forall x :: x in s <==> x == s[0] || x in s[1..];
      assert s[0] < t[0];
      [s[0]] + t
  }

  lemma {:induction false} InsertPresent(s: seq<int>, y: int)
    requires Increasing(s)
    requires y in s
    ensures InsertSorted(s, y) == s
  {
    if y != s[0] {
      assert y in s[1..];
      InsertPresent(s[1..], y);
      assert [s[0]] + s[1..] == s;
    }
  }

  /** The elements of `s` that are array indices (`arrayIndex`) or that are not, in order. */
  function Select(s: seq<int>, arrayIndex: bool): (r: seq<int>)
    ensures forall x {:trigger x in r} :: x in r <==> x in s && IsArrayIndex(x) == arrayIndex
  {
    if s == [] then []
    else
      var p := Select(s[..|s| - 1], arrayIndex);
      assert s == s[..|s| - 1] + [s[|s| - 1]];
      if IsArrayIndex(s[|s| - 1]) == arrayIndex then p + [s[|s| - 1]] else p
  }

  lemma SelectSnoc(s: seq<int>, y: int, arrayIndex: bool)
    ensures Select(s + [y], arrayIndex) ==
      if IsArrayIndex(y) == arrayIndex then Select(s, arrayIndex) + [y] else Select(s, arrayIndex)
  {
    assert (s + [y])[..|s|] == s;
  }

  /** The distinct values of `s` in ascending order. */
  function SortedKeys(s: seq<int>): (r: seq<int>)
    ensures Increasing(r)
    ensures forall x {:trigger x in r} :: x in r <==> x in s
  {
    if s == [] then []
    else
      assert s == s[..|s| - 1] + [s[|s| - 1]];
      InsertSorted(SortedKeys(s[..|s| - 1]), s[|s| - 1])
  }

  lemma SortedKeysSnoc(s: seq<int>, y: int)
    ensures SortedKeys(s + [y]) == InsertSorted(SortedKeys(s), y)
  {
    assert (s + [y])[..|s|] == s;
  }

  /**
    The object a walk over `years` leaves behind: the array-index years in
    ascending order, the other years in first-seen order, and under each
    year the number of times it occurs.
  */
  function YearTally(years: seq<int>): YearCounts {
    YearCounts(SortedKeys(Select(years, true)), Distinct(Select(years, false)), Tally(years))
  }

  function YearSummary(users: seq<User>): YearCounts {
    YearTally(Years(users))
  }

  /** The tally as the `forEach` runs it. */
  method ProcessRegistrationYearData(users: seq<User>) returns (yearCounts: YearCounts)
    ensures yearCounts == YearSummary(users)
  {
    yearCounts := YearCounts([], [], map[]);
    var i := 0;
    while i < |users|
      invariant i <= |users|
      invariant yearCounts == YearTally(Years(users)[..i])
    {
      assert Years(users)[..i + 1] == Years(users)[..i] + [users[i].year];
      yearCounts := CountYear(yearCounts, users[i].year, Years(users)[..i]);
      i := i + 1;
    }
    assert Years(users)[..i] == Years(users);
  }

  /**
    The `forEach` callback: `yearCounts[year] = (yearCounts[year] || 0) + 1`
    on the object left by the records `seen` so far.
  */
  method CountYear(yearCounts: YearCounts, year: int, ghost seen: seq<int>) returns (next: YearCounts)
    requires yearCounts == YearTally(seen)
    ensures next == YearTally(seen + [year])
  {
    TallyAt(seen, year);
    TallySnoc(seen, year);
    KeysSnoc(seen, year);
    var indexKeys, namedKeys, counts := yearCounts.indexKeys, yearCounts.namedKeys, yearCounts.counts;
    if year !in counts {
      // a new key: array indices take their numeric place, others go last
      if IsArrayIndex(year) {
        indexKeys := InsertSorted(indexKeys, year);
      } else {
        namedKeys := namedKeys + [year];
      }
    }
    counts := counts[year := (if year in counts then counts[year] else 0) + 1];
    next := YearCounts(indexKeys, namedKeys, counts);
  }

  /**
    One more record: a new array-index year is inserted at its ascending
    position, a new year outside that range is appended after the other
    such years, and a year already present moves no key.
  */
  lemma KeysSnoc(years: seq<int>, y: int)
    ensures SortedKeys(Select(years + [y], true)) ==
      if IsArrayIndex(y) && y !in years
      then InsertSorted(SortedKeys(Select(years, true)), y)
      else SortedKeys(Select(years, true))
    ensures Distinct(Select(years + [y], false)) ==
      if !IsArrayIndex(y) && y !in years
      then Distinct(Select(years, false)) + [y]
      else Distinct(Select(years, false))
  {
    SelectSnoc(years, y, true);
    SelectSnoc(years, y, false);
    if IsArrayIndex(y) {
      SortedKeysSnoc(Select(years, true), y);
      if y in years {
        InsertPresent(SortedKeys(Select(years, true)), y);
      }
    } else {
      DistinctSnoc(Select(years, false), y);
    }
  }

  /**
    The key set is exactly the set of registration years, each listed once,
    and each key holds the number of records registered in that year.
  */
  lemma YearKeys(users: seq<User>)
    ensures YearSummary(users).Valid()
    ensures forall y :: y in YearSummary(users).Keys() <==> y in Years(users)
    ensures forall y :: y in YearSummary(users).counts ==>
      YearSummary(users).counts[y] == Occurrences(Years(users), y) > 0
  {
    var years := Years(users);
    var t := YearSummary(users);
    NoDupIncreasing(t.indexKeys);
    forall m | 0 <= m < |t.namedKeys|
      ensures !IsArrayIndex(t.namedKeys[m])
    {
      assert t.namedKeys[m] in Select(years, false);
    }
    forall k | 0 <= k < |t.indexKeys|
      ensures t.indexKeys[k] !in t.namedKeys
    {
      assert t.indexKeys[k] in t.indexKeys;
    }
    NoDupConcat(t.indexKeys, t.namedKeys);
    forall y
      ensures y in t.Keys() <==> y in years
      ensures y in t.counts <==> y in years
    {
      TallyAt(years, y);
      DistinctIn(Select(years, false), y);
      assert y in t.Keys() <==> y in t.indexKeys || y in t.namedKeys;
      assert y in t.indexKeys <==> y in Select(years, true);
    }
    forall y | y in t.counts
      ensures t.counts[y] == Occurrences(years, y) > 0
    {
      TallyAt(years, y);
    }
  }

  lemma NoDupIncreasing(s: seq<int>)
    requires Increasing(s)
    ensures NoDup(s)
  {
  }

  /**
    Key order: every array-index year comes before every other key, and the
    array-index years ascend.
  */
  lemma YearOrder(users: seq<User>, i: nat, j: nat)
    requires i < j < |YearSummary(users).Keys()|
    requires IsArrayIndex(YearSummary(users).Keys()[j])
    ensures IsArrayIndex(YearSummary(users).Keys()[i])
    ensures YearSummary(users).Keys()[i] < YearSummary(users).Keys()[j]
  {
    var t := YearSummary(users);
    assert forall k :: 0 <= k < |t.namedKeys| ==> !IsArrayIndex(t.namedKeys[k]) by {
      forall k | 0 <= k < |t.namedKeys|
        ensures !IsArrayIndex(t.namedKeys[k])
      {
        assert t.namedKeys[k] in Select(Years(users), false);
      }
    }
    assert t.indexKeys[i] in t.indexKeys;
  }

  /**
    When every registration year is an array index (any year 0 .. 2^32 - 2),
    the keys are simply the years in ascending numeric order.
  */
  lemma YearAscending(users: seq<User>)
    requires forall i :: 0 <= i < |users| ==> IsArrayIndex(users[i].year)
    ensures YearSummary(users).namedKeys == []
    ensures Increasing(YearSummary(users).Keys())
  {
    var t := YearSummary(users);
    assert t.namedKeys == [];
    assert t.Keys() == t.indexKeys;
  }

  /**
    Keys outside the array-index range are listed in first-seen order among
    the records registered in such years.
  */
  lemma YearNamedFirstSeen(users: seq<User>, i: nat, j: nat)
    requires i < j < |YearSummary(users).namedKeys|
    ensures FirstIndex(Select(Years(users), false), YearSummary(users).namedKeys[i])
          < FirstIndex(Select(Years(users), false), YearSummary(users).namedKeys[j])
  {
    DistinctFirstSeen(Select(Years(users), false), i, j);
  }

  /** Every record is counted exactly once: the counters add up to the record count. */
  lemma YearTotal(users: seq<User>)
    ensures YearSummary(users).Valid()
    ensures Sum(YearSummary(users).Values()) == |users|
  {
    var years := Years(users);
    var t := YearSummary(users);
    YearKeys(users);
    forall k | 0 <= k < |t.Keys()|
      ensures t.counts[t.Keys()[k]] == Occurrences(years, t.Keys()[k])
    {
      TallyAt(years, t.Keys()[k]);
    }
    assert t.Values() == CountsOf(t.Keys(), years);
    CountsCoverAll(t.Keys(), years);
  }

  /**
    Ascending order pins the order down: two ascending key lists with the
    same keys are the same list.
  */
  lemma {:induction false} IncreasingUnique(a: seq<int>, b: seq<int>)
    requires Increasing(a) && Increasing(b)
    requires forall x :: x in a <==> x in b
    ensures a == b
  {
    if a != [] {
      assert a[0] in a;
    }
    if b != [] {
      assert b[0] in b;
    }
    if a != [] && b != [] {
      assert a[0] in b && b[0] in a;
      assert a[0] == b[0];
      forall x
        ensures x in a[1..] <==> x in b[1..]
      {
        assert x in a <==> x == a[0] || x in a[1..];
        assert x in b <==> x == b[0] || x in b[1..];
      }
      IncreasingUnique(a[1..], b[1..]);
      assert a == [a[0]] + a[1..] && b == [b[0]] + b[1..];
    }
  }

  /**
    Ascending order pins the array-index keys down: any ascending list whose
    members are exactly the array-index registration years is that key list.
  */
  lemma YearIndexKeysUnique(users: seq<User>, s: seq<int>)
    requires Increasing(s)
    requires forall x :: x in s <==> x in Years(users) && IsArrayIndex(x)
    ensures s == YearSummary(users).indexKeys
  {
    var t := YearSummary(users);
    forall x
      ensures x in s <==> x in t.indexKeys
    {
      assert x in t.indexKeys <==> x in Select(Years(users), true);
    }
    IncreasingUnique(s, t.indexKeys);
  }

  /** No records give an object with no keys. */
  lemma YearEmpty()
    ensures YearSummary([]) == YearCounts([], [], map[])
  {
  }
}
