/**
  Counting facts over sequences, shared by every tally in the model.

  A tally in the script walks a list once and, for each element, bumps the
  counter stored under that element's key. The functions here describe the
  outcome of such a walk without walking: how often a key occurs, which keys
  occur (in first-seen order), and how many elements fall among a given list
  of keys. Every recursion peels off the LAST element, so that the facts about
  a prefix extend one step at a time exactly as a left-to-right loop does.
*/
module Counting {

  /** Number of positions of `s` that hold `x`. */
  function Occurrences<T(==)>(s: seq<T>, x: T): (n: nat)
    ensures n <= |s|
    ensures n == 0 <==> x !in s
  {
    if s == [] then 0
    else
      assert s == s[..|s| - 1] + [s[|s| - 1]];
      Occurrences(s[..|s| - 1], x) + (if s[|s| - 1] == x then 1 else 0)
  }

  lemma OccurrencesSnoc<T>(s: seq<T>, x: T, k: T)
    ensures Occurrences(s + [x], k) == Occurrences(s, k) + (if x == k then 1 else 0)
  {
    assert (s + [x])[..|s|] == s;
  }

  /** No value appears twice in `s`. */
  predicate NoDup<T(==)>(s: seq<T>) {
    forall i, j :: 0 <= i < j < |s| ==> s[i] != s[j]
  }

  /**
    The distinct values of `s`, each once, in the order in which each first
    appears in `s`: the key order of an object that gains a key the first
    time the key is assigned.
  */
  function Distinct<T(==)>(s: seq<T>): (r: seq<T>)
    ensures NoDup(r)
    ensures forall i :: 0 <= i < |r| ==> r[i] in s
    ensures forall i :: 0 <= i < |s| ==> s[i] in r
  {
    if s == [] then []
    else
      var p := Distinct(s[..|s| - 1]);
      assert s == s[..|s| - 1] + [s[|s| - 1]];
      if s[|s| - 1] in p then p else p + [s[|s| - 1]]
  }

  lemma DistinctIn<T>(s: seq<T>, x: T)
    ensures x in Distinct(s) <==> x in s
  {
    if x in s {
      var i :| 0 <= i < |s| && s[i] == x;
    }
  }

  lemma DistinctSnoc<T>(s: seq<T>, x: T)
    ensures Distinct(s + [x]) == if x in s then Distinct(s) else Distinct(s) + [x]
  {
    assert (s + [x])[..|s|] == s;
  }

  /** The position at which `x` first appears in `s`. */
  function FirstIndex<T(==)>(s: seq<T>, x: T): (i: nat)
    requires x in s
    ensures i < |s| && s[i] == x
    ensures forall j :: 0 <= j < i ==> s[j] != x
  {
    assert s == s[..|s| - 1] + [s[|s| - 1]];
    if x in s[..|s| - 1] then FirstIndex(s[..|s| - 1], x) else |s| - 1
  }

  lemma FirstIndexSnoc<T>(s: seq<T>, x: T, k: T)
    requires k in s
    ensures FirstIndex(s + [x], k) == FirstIndex(s, k)
  {
    assert (s + [x])[..|s|] == s;
  }

  /**
    Keys of `Distinct(s)` come in first-seen order: a key listed earlier
    first appears in `s` strictly before a key listed later.
  */
  lemma {:induction false} DistinctFirstSeen<T>(s: seq<T>, i: nat, j: nat)
    requires i < j < |Distinct(s)|
    ensures FirstIndex(s, Distinct(s)[i]) < FirstIndex(s, Distinct(s)[j])
  {
    var p, x := s[..|s| - 1], s[|s| - 1];
    assert s == p + [x];
    DistinctSnoc(p, x);
    var d := Distinct(p);
    FirstIndexSnoc(p, x, Distinct(s)[i]);
    if j < |d| {
      DistinctFirstSeen(p, i, j);
      FirstIndexSnoc(p, x, Distinct(s)[j]);
    } else {
      assert Distinct(s)[j] == x && x !in p;
      assert FirstIndex(s, x) == |s| - 1;
    }
  }

  /**
    Later elements never reorder or remove keys: the distinct keys of a
    prefix are a prefix of the distinct keys of the whole sequence.
  */
  lemma {:induction false} DistinctPrefix<T>(s: seq<T>, t: seq<T>)
    ensures Distinct(s) <= Distinct(s + t)
  {
    if t != [] {
      var u, x := t[..|t| - 1], t[|t| - 1];
      assert s + t == (s + u) + [x];
      DistinctPrefix(s, u);
      DistinctSnoc(s + u, x);
    } else {
      assert s + t == s;
    }
  }

  /** Number of elements of `s` that are among `keys`. */
  function CountAmong<T(==)>(s: seq<T>, keys: seq<T>): (n: nat)
    ensures n <= |s|
    ensures n == |s| <==> forall i :: 0 <= i < |s| ==> s[i] in keys
  {
    if s == [] then 0
    else
      var p := s[..|s| - 1];
      var n := CountAmong(p, keys) + (if s[|s| - 1] in keys then 1 else 0);
      assert forall i :: 0 <= i < |p| ==> p[i] == s[i];
      n
  }

  lemma CountAmongSnoc<T>(s: seq<T>, x: T, keys: seq<T>)
    ensures CountAmong(s + [x], keys) == CountAmong(s, keys) + (if x in keys then 1 else 0)
  {
    assert (s + [x])[..|s|] == s;
  }

  /**
    Adding a fresh key `k` to the key list adds exactly the occurrences of
    `k` to the number of elements among the keys.
  */
  lemma {:induction false} CountAmongAddKey<T>(s: seq<T>, keys: seq<T>, k: T)
    requires k !in keys
    ensures CountAmong(s, keys + [k]) == CountAmong(s, keys) + Occurrences(s, k)
  {
    if s != [] {
      var p, x := s[..|s| - 1], s[|s| - 1];
      assert s == p + [x];
      CountAmongAddKey(p, keys, k);
      CountAmongSnoc(p, x, keys + [k]);
      CountAmongSnoc(p, x, keys);
      OccurrencesSnoc(p, x, k);
    }
  }

  /**
    The counter stored under each key after a walk over `s`: the keys are
    the values occurring in `s`, each holding its number of occurrences.
  */
  function Tally<T(==)>(s: seq<T>): map<T, nat> {
    map k | k in s :: Occurrences(s, k)
  }

  lemma TallyAt<T>(s: seq<T>, k: T)
    ensures k in Tally(s) <==> k in s
    ensures k in Tally(s) ==> Tally(s)[k] == Occurrences(s, k) > 0
  {
  }

  /**
    One more element `x` sets its counter to the old counter plus one,
    reading an absent counter as `0` (`(counts[x] || 0) + 1`); every other
    counter is unchanged.
  */
  lemma TallySnoc<T>(s: seq<T>, x: T)
    ensures Tally(s + [x]) == Tally(s)[x := (if x in Tally(s) then Tally(s)[x] else 0) + 1]
  {
    var before, after := Tally(s), Tally(s + [x]);
    var expected := before[x := (if x in before then before[x] else 0) + 1];
    assert after.Keys == expected.Keys;
    forall k | k in after
      ensures after[k] == expected[k]
    {
      OccurrencesSnoc(s, x, k);
    }
  }

  /** The counters read off in key order, as `Object.values` lists them. */
  function CountsOf<T(==)>(keys: seq<T>, s: seq<T>): seq<nat> {
    seq(|keys|, i requires 0 <= i < |keys| => Occurrences(s, keys[i]))
  }

  function Sum(xs: seq<nat>): nat {
    if xs == [] then 0 else Sum(xs[..|xs| - 1]) + xs[|xs| - 1]
  }

  /** One more element bumps exactly the counter of its own key. */
  lemma CountsOfSnoc<T>(keys: seq<T>, s: seq<T>, x: T)
    ensures |CountsOf(keys, s + [x])| == |keys|
    ensures forall i :: 0 <= i < |keys| ==>
      CountsOf(keys, s + [x])[i] == CountsOf(keys, s)[i] + (if keys[i] == x then 1 else 0)
  {
    forall i | 0 <= i < |keys|
      ensures CountsOf(keys, s + [x])[i] == CountsOf(keys, s)[i] + (if keys[i] == x then 1 else 0)
    {
      OccurrencesSnoc(s, x, keys[i]);
    }
  }

  /**
    With duplicate-free keys, the counters add up to the number of elements
    that fall among the keys: every such element is counted exactly once.
  */
  lemma {:induction false} TotalCount<T>(keys: seq<T>, s: seq<T>)
    requires NoDup(keys)
    ensures Sum(CountsOf(keys, s)) == CountAmong(s, keys)
  {
    if keys == [] {
      CountAmongEmptyKeys(s);
    } else {
      var ks, k := keys[..|keys| - 1], keys[|keys| - 1];
      assert keys == ks + [k];
      assert CountsOf(keys, s) == CountsOf(ks, s) + [Occurrences(s, k)];
      assert CountsOf(keys, s)[..|keys| - 1] == CountsOf(ks, s);
      TotalCount(ks, s);
      CountAmongAddKey(s, ks, k);
    }
  }

  lemma {:induction false} CountAmongEmptyKeys<T>(s: seq<T>)
    ensures CountAmong(s, []) == 0
  {
    if s != [] {
      CountAmongEmptyKeys(s[..|s| - 1]);
    }
  }

  /**
    When the keys are duplicate-free and every element of `s` is one of
    them, the counters add up to the length of `s`.
  */
  lemma CountsCoverAll<T>(keys: seq<T>, s: seq<T>)
    requires NoDup(keys)
    requires forall i :: 0 <= i < |s| ==> s[i] in keys
    ensures Sum(CountsOf(keys, s)) == |s|
  {
    TotalCount(keys, s);
  }

  /** The distinct keys of `s`, with their counters, account for all of `s`. */
  lemma DistinctTotal<T>(s: seq<T>)
    ensures Sum(CountsOf(Distinct(s), s)) == |s|
  {
    CountsCoverAll(Distinct(s), s);
  }

  /** Two duplicate-free key lists with nothing in common stay duplicate-free together. */
  lemma NoDupConcat<T>(a: seq<T>, b: seq<T>)
    requires NoDup(a) && NoDup(b)
    requires forall i :: 0 <= i < |a| ==> a[i] !in b
    ensures NoDup(a + b)
  {
    forall i, j | 0 <= i < j < |a + b|
      ensures (a + b)[i] != (a + b)[j]
    {
      if j >= |a| && i < |a| {
        assert (a + b)[i] == a[i] && (a + b)[j] in b;
      }
    }
  }
}
