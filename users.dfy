/**
  The user records the script receives, reduced to the four fields its
  tallies read (`user.gender`, `user.dob.age`, `user.location.country` and
  the year of `user.registered.date`), and the per-field projections of a
  record list that the tallies count over.
*/
module Users {

  /**
    One user record. `year` is the registration year already extracted from
    the registration timestamp; parsing the timestamp is not modelled.
  */
  datatype User = User(gender: string, age: int, country: string, year: int)

  function Genders(users: seq<User>): seq<string> {
    seq(|users|, i requires 0 <= i < |users| => users[i].gender)
  }

  function Countries(users: seq<User>): seq<string> {
    seq(|users|, i requires 0 <= i < |users| => users[i].country)
  }

  function Years(users: seq<User>): seq<int> {
    seq(|users|, i requires 0 <= i < |users| => users[i].year)
  }
}
