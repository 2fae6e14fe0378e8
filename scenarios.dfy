/**
  Worked inputs for the four tallies: two records from the same country
  registered in different years, a record under 20, a record with a third
  gender tag, and the empty list.
*/
module Scenarios {
  import opened Counting
  import opened Users
  import opened GenderData
  import opened AgeData
  import opened CountryData
  import opened YearData

  /** Two Brazilian 25-year-olds, one male registered in 2020, one female in 2021. */
  predicate TwoBrazilians(users: seq<User>) {
    users == [User("male", 25, "Brazil", 2020), User("female", 25, "Brazil", 2021)]
  }

  lemma TwoBraziliansGender(users: seq<User>)
    requires TwoBrazilians(users)
    ensures GenderSummary(users) == GenderCounts(1, 1)
  {
    GenderStep([users[0]], users[1]);
    GenderStep([], users[0]);
    assert [users[0]] + [users[1]] == users;
    assert [] + [users[0]] == [users[0]];
  }

  lemma TwoBraziliansAge(users: seq<User>)
    requires TwoBrazilians(users)
    ensures AgeSummary(users) == [2, 0, 0, 0, 0, 0, 0]
  {
    assert Buckets(users) == [0, 0];
    assert Buckets(users)[..1] == [0];
  }

  lemma TwoBraziliansCountry(users: seq<User>)
    requires TwoBrazilians(users)
    ensures CountrySummary(users) == CountryCounts(["Brazil"], map["Brazil" := 2])
  {
    assert Countries(users) == ["Brazil", "Brazil"];
    assert ["Brazil", "Brazil"][..1] == ["Brazil"];
    assert Tally(["Brazil", "Brazil"]) == map["Brazil" := 2];
  }

  /** The years 2020 then 2021 give the keys in that order. */
  lemma TwoBraziliansYearKeys(users: seq<User>)
    requires TwoBrazilians(users)
    ensures YearSummary(users).Keys() == [2020, 2021]
  {
    assert Years(users) == [2020, 2021];
    TwoYearKeys();
  }

  /** Both years are array indices, inserted in ascending position; no other keys. */
  lemma TwoYearKeys()
    ensures YearTally([2020, 2021]).Keys() == [2020, 2021]
  {
    assert [2020, 2021] == [] + [2020] + [2021];
    assert [] + [2020] == [2020];
    KeysSnoc([], 2020);
    KeysSnoc([2020], 2021);
    assert SortedKeys(Select([2020, 2021], true)) == [2020, 2021] by {
      assert InsertSorted([2020], 2021) == [2020] + InsertSorted([], 2021);
    }
  }

  /** The years 2020 and 2021 each hold one record. */
  lemma TwoBraziliansYearCounts(users: seq<User>)
    requires TwoBrazilians(users)
    ensures YearSummary(users).counts == map[2020 := 1, 2021 := 1]
  {
    assert Years(users) == [] + [2020] + [2021];
    assert [] + [2020] == [2020];
    TallySnoc([], 2020);
    TallySnoc([2020], 2021);
  }

  /** A 15-year-old is counted under "80+". */
  lemma YoungerThanTwenty(users: seq<User>)
    requires users == [User("female", 15, "Chile", 2015)]
    ensures AgeSummary(users) == [0, 0, 0, 0, 0, 0, 1]
    ensures LABELS[BucketOf(15)] == "80+"
  {
    assert Buckets(users) == [CATCH_ALL];
  }

  /** A record tagged neither "male" nor "female" is left out of both counters. */
  lemma ThirdTag(users: seq<User>)
    requires users == [User("male", 30, "Spain", 2019), User("other", 40, "Spain", 2019)]
    ensures GenderSummary(users) == GenderCounts(1, 0)
    ensures GenderSummary(users).male + GenderSummary(users).female == |users| - 1
  {
    GenderStep([users[0]], users[1]);
    GenderStep([], users[0]);
    assert [users[0]] + [users[1]] == users;
    assert [] + [users[0]] == [users[0]];
  }

  /** No records: all counters zero, and no country or year keys. */
  lemma NoUsers()
    ensures GenderSummary([]) == GenderCounts(0, 0)
    ensures AgeSummary([]) == [0, 0, 0, 0, 0, 0, 0]
    ensures CountrySummary([]) == CountryCounts([], map[])
    ensures YearSummary([]) == YearCounts([], [], map[])
  {
    GenderEmpty();
    AgeEmpty();
    CountryEmpty();
    YearEmpty();
  }
}
