/**
  `createCountryList`: one list item per entry of the country object, in
  the object's key order, whose text is `${country}: ${count} usuarios`.

  The `<ul id="countryList">` element is modelled by the texts of its
  children; looking it up, creating the `<li>` and adding the CSS class are
  not modelled.
*/
module CountryList {
  import opened Counting
  import opened Users
  import opened CountryData

  predicate IsDigit(c: char) {
    '0' <= c <= '9'
  }

  predicate AllDigits(s: string) {
    forall i :: 0 <= i < |s| ==> IsDigit(s[i])
  }

  function DigitChar(d: nat): (c: char)
    requires d < 10
    ensures IsDigit(c)
  {
    "0123456789"[d]
  }

  function DigitValue(c: char): (d: nat)
    requires IsDigit(c)
    ensures d < 10
  {
    (c as int) - ('0' as int)
  }

  /**
    The decimal text of a count, as a template literal writes a
    non-negative integer: digits only, and no leading zero except in "0".
  */
  function NatToString(n: nat): (s: string)
    ensures |s| > 0 && AllDigits(s)
    ensures s[0] == '0' ==> s == "0"
    decreases n
  {
    if n < 10 then [DigitChar(n)]
    else NatToString(n / 10) + [DigitChar(n % 10)]
  }

  /** Reads a string of decimal digits back as a number. */
  function ParseNat(s: string): nat
    requires AllDigits(s)
  {
    if s == [] then 0
    else ParseNat(s[..|s| - 1]) * 10 + DigitValue(s[|s| - 1])
  }

  /** The decimal text reads back as the count it was made from. */
  lemma {:induction false} ParseNatToString(n: nat)
    ensures ParseNat(NatToString(n)) == n
    decreases n
  {
    var s := NatToString(n);
    if n < 10 {
      assert s[..0] == [];
    } else {
      ParseNatToString(n / 10);
      assert s[..|s| - 1] == NatToString(n / 10);
    }
  }

  /**
    The text of the list item for one entry: the country, then ": ", then
    digits that read back as the count, then " usuarios".
  */
  function CountryLine(country: string, count: nat): (line: string)
    ensures |line| > |country| + 2 + 9
    ensures line[..|country| + 2] == country + ": "
    ensures line[|line| - 9..] == " usuarios"
    ensures AllDigits(line[|country| + 2..|line| - 9])
    ensures ParseNat(line[|country| + 2..|line| - 9]) == count
    ensures line[|country| + 2] == '0' ==> line[|country| + 2..|line| - 9] == "0"
  {
    var digits := NatToString(count);
    var line := (country + ": ") + digits + " usuarios";
    assert line[|country| + 2..|line| - 9] == digits;
    assert line[|country| + 2] == digits[0];
    ParseNatToString(count);
    line
  }

  /** The item texts for every entry of the object, in its key order. */
  function CountryLines(countryData: CountryCounts): (lines: seq<string>)
    requires countryData.Valid()
    ensures |lines| == |countryData.keys|
  {
    seq(|countryData.keys|, i requires 0 <= i < |countryData.keys| =>
      CountryLine(countryData.keys[i], countryData.counts[countryData.keys[i]]))
  }

  /** The `<ul>` the items are appended to, as the texts of its children. */
  class ListElement {
    var items: seq<string>

    constructor ()
      ensures items == []
    {
      items := [];
    }
  }

  /** Appends one item per entry, in entry order, after the list's existing children. */
  method CreateCountryList(countryList: ListElement, countryData: CountryCounts)
    requires countryData.Valid()
    modifies countryList
    ensures countryList.items == old(countryList.items) + CountryLines(countryData)
  {
    var entries := countryData.Entries();
    var i := 0;
    while i < |entries|
      invariant i <= |entries|
      invariant countryList.items == old(countryList.items) + CountryLines(countryData)[..i]
    {
      var (country, count) := entries[i];
      assert CountryLines(countryData)[..i + 1] == CountryLines(countryData)[..i] + [CountryLine(country, count)];
      countryList.items := countryList.items + [CountryLine(country, count)];
      i := i + 1;
    }
    assert CountryLines(countryData)[..i] == CountryLines(countryData);
  }

  /**
    For the records' country object, the list holds one item per distinct
    country, in first-seen order, the `i`-th naming the `i`-th country seen
    and the number of records from it.
  */
  lemma CountryListOfUsers(users: seq<User>, i: nat)
    requires i < |Distinct(Countries(users))|
    ensures CountrySummary(users).Valid()
    ensures |CountryLines(CountrySummary(users))| == |Distinct(Countries(users))|
    ensures CountryLines(CountrySummary(users))[i] ==
      CountryLine(Distinct(Countries(users))[i], Occurrences(Countries(users), Distinct(Countries(users))[i]))
  {
    var countries := Countries(users);
    CountryTotal(users);
    TallyAt(countries, Distinct(countries)[i]);
  }
}
