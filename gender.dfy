/**
  `processGenderData`: the object `{ male: 0, female: 0 }` bumped once per
  record under the record's gender tag.

  A tag other than "male" or "female" makes the script create an extra key
  whose value is NaN (`undefined` incremented); the chart reads only the two
  named counters, so the model keeps only those two and proves that such a
  record changes neither of them.
*/
module GenderData {
  import opened Counting
  import opened Users

  datatype GenderCounts = GenderCounts(male: nat, female: nat)

  /** The two counters the chart reads: how many records carry each tag. */
  function GenderSummary(users: seq<User>): GenderCounts {
    GenderCounts(Occurrences(Genders(users), "male"), Occurrences(Genders(users), "female"))
  }

  /** The one-pass tally, counter by counter, as the `forEach` runs it. */
  method ProcessGenderData(users: seq<User>) returns (genderCounts: GenderCounts)
    ensures genderCounts == GenderSummary(users)
  {
    genderCounts := GenderCounts(0, 0);
    var i := 0;
    while i < |users|
      invariant i <= |users|
      invariant genderCounts == GenderSummary(users[..i])
    {
      GenderStep(users[..i], users[i]);
      assert users[..i + 1] == users[..i] + [users[i]];
      var gender := users[i].gender;
      if gender == "male" {
        genderCounts := genderCounts.(male := genderCounts.male + 1);
      } else if gender == "female" {
        genderCounts := genderCounts.(female := genderCounts.female + 1);
      }
      // any other tag adds a NaN-valued key the chart never reads
      i := i + 1;
    }
    assert users[..i] == users;
  }

  /**
    One more record bumps the counter of its own tag by one and leaves the
    other alone; a record with any other tag changes neither counter.
  */
  lemma GenderStep(users: seq<User>, u: User)
    ensures u.gender == "male" ==>
      GenderSummary(users + [u]) == GenderSummary(users).(male := GenderSummary(users).male + 1)
    ensures u.gender == "female" ==>
      GenderSummary(users + [u]) == GenderSummary(users).(female := GenderSummary(users).female + 1)
    ensures u.gender != "male" && u.gender != "female" ==>
      GenderSummary(users + [u]) == GenderSummary(users)
  {
    assert Genders(users + [u]) == Genders(users) + [u.gender];
    OccurrencesSnoc(Genders(users), u.gender, "male");
    OccurrencesSnoc(Genders(users), u.gender, "female");
  }

  /**
    The two counters together never exceed the number of records, and they
    reach it exactly when every record is tagged "male" or "female".
  */
  lemma GenderTotal(users: seq<User>)
    ensures GenderSummary(users).male + GenderSummary(users).female <= |users|
    ensures GenderSummary(users).male + GenderSummary(users).female == |users| <==>
      forall i :: 0 <= i < |users| ==> users[i].gender == "male" || users[i].gender == "female"
  {
    var keys := ["male", "female"];
    var genders := Genders(users);
    var m, f := GenderSummary(users).male, GenderSummary(users).female;
    TotalCount(keys, genders);
    assert CountsOf(keys, genders) == [m, f];
    assert [m, f][..1] == [m] && [m][..0] == [];
    assert Sum([m, f]) == Sum([m]) + f;
    assert Sum([m]) == Sum([]) + m;
    assert forall i :: 0 <= i < |users| ==> genders[i] == users[i].gender;
  }

  /** No records give both counters zero. */
  lemma GenderEmpty()
    ensures GenderSummary([]) == GenderCounts(0, 0)
  {
  }
}
