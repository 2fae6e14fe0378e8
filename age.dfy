/**
  `processAgeData`: seven counters under the keys "20-29" ... "80+", created
  in that order (so `Object.keys` and `Object.values` list them in that
  order), each record bumping exactly one of them by a chain of half-open
  range tests whose final `else` catches every age the six tests miss,
  including all ages under 20.

  The counters are held as a sequence indexed by bucket position: position
  `b` is the counter under `LABELS[b]`.
*/
module AgeData {
  import opened Counting
  import opened Users

  /** The keys of the age object, in creation order. */
  const LABELS: seq<string> := ["20-29", "30-39", "40-49", "50-59", "60-69", "70-79", "80+"]

  /** The bucket positions, in key order. */
  const BUCKETS: seq<nat> := [0, 1, 2, 3, 4, 5, 6]

  /** Position of the `80+` counter, which also takes every age under 20. */
  const CATCH_ALL: nat := 6

  /**
    The bucket an age lands in: bucket `b < 6` holds exactly the ages
    `[20 + 10b, 30 + 10b)`, and the catch-all holds everything else.
  */
  function BucketOf(age: int): (b: nat)
    ensures b < |LABELS|
    ensures b < CATCH_ALL ==> 20 + 10 * b <= age < 30 + 10 * b
    ensures b == CATCH_ALL <==> age < 20 || 80 <= age
  {
    if 20 <= age < 30 then 0
    else if 30 <= age < 40 then 1
    else if 40 <= age < 50 then 2
    else if 50 <= age < 60 then 3
    else if 60 <= age < 70 then 4
    else if 70 <= age < 80 then 5
    else CATCH_ALL
  }

  function Buckets(users: seq<User>): seq<nat> {
    seq(|users|, i requires 0 <= i < |users| => BucketOf(users[i].age))
  }

  /** The seven counters, in key order: how many records fall into each bucket. */
  function AgeSummary(users: seq<User>): seq<nat> {
    CountsOf(BUCKETS, Buckets(users))
  }

  /** The tally as the `forEach` runs it, with the script's if-chain. */
  method ProcessAgeData(users: seq<User>) returns (ageGroups: seq<nat>)
    ensures ageGroups == AgeSummary(users)
  {
    ageGroups := [0, 0, 0, 0, 0, 0, 0];
    var i := 0;
    assert ageGroups == AgeSummary(users[..0]);
    while i < |users|
      invariant i <= |users|
      invariant ageGroups == AgeSummary(users[..i])
    {
      AgeStep(users[..i], users[i]);
      assert users[..i + 1] == users[..i] + [users[i]];
      ageGroups := CountAge(ageGroups, users[i].age);
      i := i + 1;
    }
    assert users[..i] == users;
  }

  /** The `forEach` callback: the if-chain bumps the counter of the record's bucket. */
  method CountAge(ageGroups: seq<nat>, age: int) returns (next: seq<nat>)
    requires |ageGroups| == |LABELS|
    ensures next == ageGroups[BucketOf(age) := ageGroups[BucketOf(age)] + 1]
  {
    if 20 <= age < 30 {
      next := ageGroups[0 := ageGroups[0] + 1];
    } else if 30 <= age < 40 {
      next := ageGroups[1 := ageGroups[1] + 1];
    } else if 40 <= age < 50 {
      next := ageGroups[2 := ageGroups[2] + 1];
    } else if 50 <= age < 60 {
      next := ageGroups[3 := ageGroups[3] + 1];
    } else if 60 <= age < 70 {
      next := ageGroups[4 := ageGroups[4] + 1];
    } else if 70 <= age < 80 {
      next := ageGroups[5 := ageGroups[5] + 1];
    } else {
      next := ageGroups[6 := ageGroups[6] + 1];
    }
  }

  /** Each record bumps exactly one counter, the one of its own bucket, by one. */
  lemma AgeStep(users: seq<User>, u: User)
    ensures |AgeSummary(users + [u])| == |AgeSummary(users)| == |LABELS|
    ensures AgeSummary(users + [u]) ==
      AgeSummary(users)[BucketOf(u.age) := AgeSummary(users)[BucketOf(u.age)] + 1]
  {
    assert Buckets(users + [u]) == Buckets(users) + [BucketOf(u.age)];
    CountsOfSnoc(BUCKETS, Buckets(users), BucketOf(u.age));
  }

  /**
    There are always exactly seven counters, and every record is counted
    exactly once: they add up to the record count.
  */
  lemma AgeTotal(users: seq<User>)
    ensures |AgeSummary(users)| == |LABELS|
    ensures Sum(AgeSummary(users)) == |users|
  {
    CountsCoverAll(BUCKETS, Buckets(users));
  }

  /** No records give seven zero counters. */
  lemma AgeEmpty()
    ensures AgeSummary([]) == [0, 0, 0, 0, 0, 0, 0]
  {
  }
}
