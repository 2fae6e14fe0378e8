/**
  `processCountryData`: an initially empty object that gains a key the first
  time a country is seen and is bumped with `(counts[country] || 0) + 1`
  for every record.

  A JavaScript object lists its non-integer keys in the order they were
  created, so the object is modelled by that key order together with the
  counters stored under the keys.
*/
module CountryData {
  import opened Counting
  import opened Users

  datatype CountryCounts = CountryCounts(keys: seq<string>, counts: map<string, nat>) {

    /** Every key is listed once, and the listed keys are exactly the stored ones. */
    predicate Valid() {
      && NoDup(keys)
      && (forall i :: 0 <= i < |keys| ==> keys[i] in counts)
      && (forall c :: c in counts ==> c in keys)
    }

    /**
      `Object.entries`: every stored key exactly once, in key order, paired
      with the counter stored under it.
    */
    function Entries(): (e: seq<(string, nat)>)
      requires Valid()
      ensures forall i, j :: 0 <= i < j < |e| ==> e[i].0 != e[j].0
      ensures forall c :: c in counts ==> exists i :: 0 <= i < |e| && e[i].0 == c
      ensures forall i :: 0 <= i < |e| ==> e[i].0 in counts && e[i].1 == counts[e[i].0]
      ensures |e| == |keys| && forall i :: 0 <= i < |e| ==> e[i].0 == keys[i]
    {
      var e := seq(|keys|, i requires 0 <= i < |keys| => (keys[i], counts[keys[i]]));
      assert forall i :: 0 <= i < |e| ==> e[i].0 == keys[i];
      assert forall c :: c in counts ==> exists i :: 0 <= i < |keys| && keys[i] == c && e[i].0 == c;
      e
    }

    /** `Object.values`: the counters in key order. */
    function Values(): seq<nat>
      requires Valid()
    {
      seq(|keys|, i requires 0 <= i < |keys| => counts[keys[i]])
    }
  }

  /**
    The object a walk over `countries` leaves behind: one key per distinct
    country in first-seen order, holding the number of times it occurs.
  */
  function CountryTally(countries: seq<string>): CountryCounts {
    CountryCounts(Distinct(countries), Tally(countries))
  }

  function CountrySummary(users: seq<User>): CountryCounts {
    CountryTally(Countries(users))
  }

  /** The tally as the `forEach` runs it. */
  method ProcessCountryData(users: seq<User>) returns (countryCounts: CountryCounts)
    ensures countryCounts.Valid()
    ensures countryCounts == CountrySummary(users)
  {
    var keys: seq<string> := [];
    var counts: map<string, nat> := map[];
    ghost var countries := Countries(users);
    var i := 0;
    while i < |users|
      invariant i <= |users|
      invariant keys == CountryTally(countries[..i]).keys
      invariant counts == CountryTally(countries[..i]).counts
    {
      var country := users[i].country;
      CountryStep(countries[..i], country);
      assert countries[..i + 1] == countries[..i] + [country];
      TallyAt(countries[..i], country);
      if country !in counts {
        // assigning a missing key creates it, at the end of the key order
        keys := keys + [country];
      }
      counts := counts[country := (if country in counts then counts[country] else 0) + 1];
      i := i + 1;
    }
    assert countries[..i] == countries;
    countryCounts := CountryCounts(keys, counts);
    CountryTallyValid(countries);
  }

  lemma CountryTallyValid(countries: seq<string>)
    ensures CountryTally(countries).Valid()
  {
  }

  /**
    One more record bumps its country's counter by one, creating the key at
    the end of the key order if the country is new; no other key moves and
    no other counter changes.
  */
  lemma CountryStep(countries: seq<string>, c: string)
    ensures CountryTally(countries + [c]).keys ==
      if c in countries then CountryTally(countries).keys else CountryTally(countries).keys + [c]
    ensures CountryTally(countries + [c]).counts ==
      CountryTally(countries).counts[c := (if c in countries then CountryTally(countries).counts[c] else 0) + 1]
  {
    DistinctSnoc(countries, c);
    TallySnoc(countries, c);
  }

  /**
    The key set is exactly the set of countries of the records, and each
    key holds the number of records from that country.
  */
  lemma CountryCounted(users: seq<User>, c: string)
    ensures c in CountrySummary(users).keys <==> exists i :: 0 <= i < |users| && users[i].country == c
    ensures c in CountrySummary(users).counts ==>
      CountrySummary(users).counts[c] == Occurrences(Countries(users), c) > 0
  {
    var countries := Countries(users);
    if c in countries {
      var i :| 0 <= i < |countries| && countries[i] == c;
      assert users[i].country == c;
    } else {
      forall i | 0 <= i < |users|
        ensures users[i].country != c
      {
        assert countries[i] == users[i].country;
      }
    }
  }

  /** Every record is counted exactly once: the counters add up to the record count. */
  lemma CountryTotal(users: seq<User>)
    ensures CountrySummary(users).Valid()
    ensures Sum(CountrySummary(users).Values()) == |users|
  {
    var countries := Countries(users);
    var t := CountrySummary(users);
    assert t.Values() == CountsOf(t.keys, countries);
    DistinctTotal(countries);
  }

  /**
    Keys are listed in first-seen order: a country listed before another
    first occurs, among the records, before the other does.
  */
  lemma CountryOrder(users: seq<User>, i: nat, j: nat)
    requires i < j < |CountrySummary(users).keys|
    ensures FirstIndex(Countries(users), CountrySummary(users).keys[i])
          < FirstIndex(Countries(users), CountrySummary(users).keys[j])
  {
    DistinctFirstSeen(Countries(users), i, j);
  }

  /**
    Later records only bump counters: the key order for a list of records
    is a prefix of the key order for that list followed by more records.
  */
  lemma CountryKeysStable(users: seq<User>, more: seq<User>)
    ensures CountrySummary(users).keys <= CountrySummary(users + more).keys
  {
    assert Countries(users + more) == Countries(users) + Countries(more);
    DistinctPrefix(Countries(users), Countries(more));
  }

  /** No records give an object with no keys. */
  lemma CountryEmpty()
    ensures CountrySummary([]) == CountryCounts([], map[])
  {
  }
}
