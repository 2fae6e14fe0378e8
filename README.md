# User statistics dashboard: the aggregation stage

`script.js` is the only script of a single-page dashboard. It fetches a batch of user records and
reduces them to four statistics: gender counts, age-bucket counts, per-country counts and
per-registration-year counts. Each statistic is built by a `forEach` loop that bumps counters in a
JavaScript object. It is then rendered as a chart or as a list. A button handler shows or hides
each chart's container.

This project models that stage in Dafny:

- **Records.** A record (`Users.User`) keeps the four fields the tallies read. The registration
  year is already extracted from the timestamp.
- **The four tallies.** Each is a `method` whose `while` loop does what the source's `forEach`
  does. Each is proved equal to a pure summary function: `GenderSummary`, `AgeSummary`,
  `CountrySummary` and `YearSummary`. Lemmas state what those summaries mean: per-key counts are
  occurrence counts, the key sets are exact, the counters add up to the record count, and the keys
  come in a stated order.
- **Country list items.** `createCountryList` turns each entry into an item text. It is modelled
  as a method that appends to a list element's item texts.
- **The chart toggle.** `toggleChart` is modelled as a method on a page, where the page maps each
  element id to its inline `style.display`.

## JavaScript object semantics modelled

- **Gender.** The object starts as `{ male: 0, female: 0 }`. A record with any other tag creates
  an extra key holding `NaN`. The chart reads only `male` and `female`, so the model keeps those
  two counters. `GenderStep` proves that such a record changes neither of them.
- **Ages.** Seven keys are created in a fixed order. The if-chain ends in an unconditional `else`,
  so every age the six half-open ranges miss lands in `80+`. That includes every age under 20.
  The model keeps this behaviour as written (`BucketOf`, `YoungerThanTwenty`).
- **Countries.** A country name is a non-integer string key, so the object lists its keys in
  creation order. That is first-seen order over the records (`CountryOrder`). Later records only
  bump counters (`CountryKeysStable`).
- **Years.** A year becomes its decimal string when used as a key. Section 10.1.11.1 of
  ECMAScript 2023 (OrdinaryOwnPropertyKeys) lists array-index keys (the integers 0 .. 2^32 − 2)
  first, in ascending numeric order. All other keys follow in creation order. So `Object.keys` at
  `script.js:118` gives the years in ascending order, not first-seen order. The model keeps two key
  lists: array-index years kept ascending (`InsertSorted`) and other years, such as negative ones,
  in creation order. `YearOrder` states that the array-index years come first and ascend;
  `YearNamedFirstSeen` states that the other years keep first-seen order. `IncreasingUnique`
  shows that ascending order fixes the list, and `YearIndexKeysUnique` applies this to the
  array-index years. Insertion order does not apply to these keys: `Object.keys` sorts
  array-index keys.

## Model

| member | source | states |
|---|---|---|
| GenderData.ProcessGenderData | script.js:17-21 | the loop result is the two counters of `GenderSummary`: the number of records tagged "male" and the number tagged "female" |
| GenderData.GenderStep | script.js:19 | one more record bumps the counter of its own tag by one and leaves the other; a record with any other tag changes neither counter |
| GenderData.GenderTotal | script.js:18-20 | male + female never exceeds the record count, and equals it exactly when every record is tagged "male" or "female" |
| GenderData.GenderEmpty | script.js:18 | no records give `{male: 0, female: 0}` |
| AgeData.BucketOf | script.js:27-33 | bucket b < 6 holds exactly the ages in [20 + 10b, 30 + 10b); the `80+` bucket holds exactly the ages under 20 or at least 80 |
| AgeData.CountAge | script.js:26-33 | the if-chain bumps exactly the counter of the age's bucket by one and leaves the other six |
| AgeData.ProcessAgeData | script.js:23-36 | the loop result is `AgeSummary`: for each of the seven buckets in key order, the number of records whose age falls in it |
| AgeData.AgeStep | script.js:25-34 | one more record bumps exactly one counter, the one of its bucket, by one |
| AgeData.AgeTotal | script.js:24-35 | there are always seven counters, and they add up to the record count |
| AgeData.AgeEmpty | script.js:24 | no records give seven zero counters |
| CountryData.CountryCounts.Entries | script.js:105 | `Object.entries` lists every stored key exactly once, in key order, each paired with the counter stored under it |
| CountryData.ProcessCountryData | script.js:38-45 | the loop result is well formed and is `CountrySummary`: the distinct countries in first-seen order, each with its number of records |
| CountryData.CountryTallyValid | script.js:39-44 | the summary lists every stored key once and stores every listed key |
| CountryData.CountryStep | script.js:42 | one more record bumps its country's counter by one and appends the country to the keys if it is new; nothing else changes |
| CountryData.CountryCounted | script.js:39-44 | a country is a key exactly when some record has it, and its counter is the positive number of records from it |
| CountryData.CountryTotal | script.js:39-44 | the counters, read in key order, add up to the record count |
| CountryData.CountryOrder | script.js:40-42 | a country listed earlier first occurs among the records strictly before a country listed later |
| CountryData.CountryKeysStable | script.js:40-42 | appending records never reorders or removes keys: the old key list is a prefix of the new one |
| CountryData.CountryEmpty | script.js:39 | no records give an object with no keys |
| YearData.YearCounts.Keys | script.js:118 | `Object.keys` lists every array-index key first and the other keys after them; `YearOrder` gives the ascending order of the array-index part; `YearNamedFirstSeen` gives the first-seen order of the rest |
| YearData.YearCounts.Values | script.js:121 | `Object.values` lists one counter per key, in key order, and every stored counter appears at its key's position; `YearTotal` shows they add up to the record count |
| YearData.InsertSorted | script.js:51 | a new array-index key goes in at its ascending position: the result is ascending and holds exactly the old keys and the new one |
| YearData.CountYear | script.js:49-52 | the callback turns the object left by the records seen so far into the object for those records plus one more year |
| YearData.ProcessRegistrationYearData | script.js:47-54 | the loop result is `YearSummary`: the array-index years ascending, the other years in first-seen order, each with its number of records |
| YearData.KeysSnoc | script.js:51 | a new array-index year is inserted in ascending position; a new other year is appended after the other such years; a known year moves no key |
| YearData.YearKeys | script.js:48-53 | the summary is well formed, its keys are exactly the registration years, and each counter is the positive number of records of that year |
| YearData.YearOrder | script.js:118 | every key listed before an array-index year is itself an array-index year and is smaller |
| YearData.YearAscending | script.js:118 | when every year is an array index, there are no other keys and the listed years ascend strictly |
| YearData.YearNamedFirstSeen | script.js:118 | years outside the array-index range are listed in the order each first occurs among such years |
| YearData.IncreasingUnique | script.js:118 | two ascending key lists with the same keys are the same list, so the key order is fully determined |
| YearData.YearIndexKeysUnique | script.js:118 | any ascending list whose members are exactly the array-index registration years is the array-index key list |
| YearData.YearTotal | script.js:121 | `Object.values` adds up to the record count |
| YearData.YearEmpty | script.js:48 | no records give an object with no keys |
| CountryList.NatToString | script.js:107 | a count is written as decimal digits with no leading zero except for "0" |
| CountryList.ParseNatToString | script.js:107 | the decimal text of a count reads back as that count |
| CountryList.CountryLine | script.js:107 | an item text is the country, then ": ", then the count in plain decimal (at least one digit, no leading zero except in "0", reading back as the count), then " usuarios" |
| CountryList.CountryLines | script.js:105-107 | there is one item text per country key |
| CountryList.CreateCountryList | script.js:105-110 | the list gains, after its existing items, one item per entry in entry order, each with that entry's text |
| CountryList.CountryListOfUsers | script.js:105-109 | for the records' country object, the list has one item per distinct country; the i-th names the i-th country seen and its number of records |
| ChartToggle.Toggled | script.js:140-144 | the new display is always "block" or "none", and it is "block" exactly when the old one was "none" or "" |
| ChartToggle.ToggleTwice | script.js:140-144 | toggling "block" or "none" twice gives back the original value |
| ChartToggle.ToggleAlternates | script.js:140-144 | from any starting value, once toggled, further toggles alternate between the two values |
| ChartToggle.ContainerId | script.js:138 | a container id is the chart id followed by "Container" |
| ChartToggle.ContainerIdInjective | script.js:138 | different chart ids name different containers, so toggling one chart never touches another's container |
| ChartToggle.Page.ToggleChart | script.js:137-145 | the container with id chart id + "Container" is toggled and nothing else changes; with no such element nothing changes and `found` is false |
| Scenarios.TwoBraziliansGender | script.js:17-21 | two Brazilian records, one male and one female, give `{male: 1, female: 1}` |
| Scenarios.TwoBraziliansAge | script.js:23-36 | two 25-year-olds give 2 in "20-29" and 0 elsewhere |
| Scenarios.TwoBraziliansCountry | script.js:38-45 | two Brazilian records give the one key "Brazil" holding 2 |
| Scenarios.TwoBraziliansYearKeys | script.js:47-54 | records registered in 2020 then 2021 give the year keys 2020, 2021 in that order |
| Scenarios.TwoBraziliansYearCounts | script.js:47-54 | records registered in 2020 and 2021 give one record under each year |
| Scenarios.YoungerThanTwenty | script.js:33 | a 15-year-old is counted under "80+" |
| Scenarios.ThirdTag | script.js:19 | a record with a third tag is counted under neither "male" nor "female" |
| Scenarios.NoUsers | script.js:17-54 | no records give zero gender and age counters and empty country and year objects |

## Left out

- Fetching the records, JSON decoding and the `DOMContentLoaded` handler (`script.js:1-15`): network and event plumbing. The model starts from the record list.
- Chart rendering (`script.js:56-101`, `113-117`, `119-120`, `122-135`; `Object.keys` and `Object.values` at 118 and 121 are modelled by `YearCounts.Keys` and `YearCounts.Values`): configuration passed to a charting library that is not part of this model. This includes the `getComputedStyle` lookups of CSS variables.
- DOM operations: `getElementById`, `createElement`, `classList.add` and `appendChild` (`script.js:104-110`, `139`). Only the item texts and the `style.display` values are modelled.
- Date handling (`script.js:50`): `new Date(...).getFullYear()` depends on the host's date parsing and time zone, so the year is an integer field of the record. An invalid date, which gives a `NaN` key, is not modelled.
- GenderData.ProcessGenderData: the extra `NaN`-valued key created for a tag other than "male" or "female" is not represented, because nothing reads it. The model proves only that the two real counters are unaffected.
- AgeData.ProcessAgeData: ages are integers. JavaScript coercion of a non-numeric age, for which every comparison is false, is not modelled. Such an age would land in "80+".
- CountryData.ProcessCountryData: assumes no country name is an array-index string such as "7". Such a name would be listed before the others, in ascending order.
- CountryData.ProcessCountryData: assumes no country name is a property name inherited from `Object.prototype`, such as "constructor" or "toString". For such a name, `(countryCounts[country] || 0) + 1` reads the inherited function and concatenates strings instead of counting.
- YearData.ProcessRegistrationYearData: keeps the year keys as integers rather than their decimal strings. It does not state well-formedness in its own contract; that is `YearKeys`.
- Counters are unbounded naturals. JavaScript numbers lose precision only far beyond any realistic batch size.
- `toggleChart` when no element has the container id: the script throws on `null.style`. The model reports this as `found == false` and changes nothing.
