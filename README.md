# Pulso Esportivo: ranking reconciliation, modelled in Dafny

This project models the ranking reconciliation logic of Pulso Esportivo, a
dashboard of daily club rankings. It covers:

- how the web client reads club names, numbers and dates out of loosely
  shaped JSON rows;
- how it folds duplicate rows into one entry per club, sorts with missing
  values last, and gives "1224" competition ranks;
- how it compares the ranking with the previous day's (rank maps and
  up/down/flat badges);
- how it lines up several score series on one contiguous daily axis;
- how it picks the day's insights (leader, largest volume, best and worst
  sentiment, largest rise and fall);
- how the `club_series` API resolves a club name to an id through an ordered
  chain of lookups;
- how the Python pipeline aggregates a day of metrics per club.

JavaScript values are modelled by `Js.Value` (undefined, null, booleans,
finite numbers as exact `real`s, strings, objects as maps and arrays as sequences),
together with JavaScript truthiness, `??`, `||`, `&&` and `?.`. The parts of
the host that cannot be seen are fields of a `Js.Host` value passed in as a
parameter:

- `Number(string)`;
- `String` of a number or an object;
- `JSON.stringify`;
- `toLowerCase`;
- `normalize('NFD')`.

The remote store of the API route is an `Env` holding a function from a
request to a reply. The model states properties that hold for every host
and every store.

Where the code loops or mutates, the model does too, and each method is
proved against a specification function:

- the `byClub` map loop, the in-place sort and the rank loop of `rankedData`;
- the previous-day map loop;
- the daily label loop of `compareAligned`;
- the `insights` loop;
- the resolver loops of `resolveClubId`;
- the two loops of `aggregate_daily.py`.

The sorts are a stable insertion sort on an `array`, specified by
`Sorting.SortBy`. JavaScript's `Array.prototype.sort` is stable, and for a
strict weak order every stable sort gives the same result.

Modules:

| module | models |
|---|---|
| `Wrappers` | `Option` |
| `Js` | JavaScript values, `toNumber`, `String`, `replace` with a one-character pattern |
| `Calendar` | civil dates, `Date.UTC` normalisation, `setUTCDate(±1)`, `toISOString().slice(0, 10)` |
| `Sorting` | stable sort by a strict weak order, on sequences and in place on arrays |
| `RankingUtils` | `lib/rankingUtils.js` |
| `Trends` | the up/down/flat badge of `prev - curr` |
| `Ranking` | `rankedData` and `baseRows` of `Ranking.jsx` |
| `RankingPrev` | the previous-day maps and `renderTrend` of `Ranking.jsx` |
| `RankingCompare` | `compareAligned` and `formatDayMonth` of `Ranking.jsx` |
| `InsightsText` | `getDisplayName`, `normalizeClubKey` and `pickScore` of `InsightsPanel.jsx` |
| `Insights` | the `insights` memo of `InsightsPanel.jsx` |
| `RankCard` | `RankCard.jsx` |
| `ClubSeries` | `app/api/club_series/route.js` |
| `AggregateDaily` | the grouping and emitting part of `pipeline/aggregate_daily.py` |
| `EsportePage` | `effectiveDate`, `prevRankMap` and `itemsToShow` of `app/ranking/esporte/page.jsx` |

Notes on how the code was read:

- **Insights `prevScore`.** `InsightsPanel.jsx` reads the previous score as
  `toNumber(prev.score ?? prev.value ?? …)`. The entries of the previous-day
  map carry `score` as `toNumber`'s result, so `score` is either a number or
  `null`. When it is `null`, the other fields are absent. The model therefore
  uses the entry's `score` directly.
- **The card's `getClubName`.** `RankCard.jsx` has its own `getClubName`.
  Its text is the same as that of `lib/rankingUtils.js`, so the card uses
  `RankingUtils.ClubName`.
- **The card's rank.** `Number(rank_position) || rank` in `RankCard.jsx` and
  `esporte/page.jsx` differs from the table's `renderTrend`, which reads the
  rank with `toNumber` and falls back to `idx + 1`.
  `RankCard.CardTrendAgreesWithTable` states when the two agree.
- **`normalizeClubKey` spacing.** The key is trimmed and collapsed before the
  diacritics are removed. Removing a lone combining mark between two spaces
  therefore leaves two spaces together, so the key is not always free of
  repeated spaces. `InsightsText.StripMarksCanUntidy` exhibits such an
  input. `InsightsText.SpacesTidied` proves the property for the steps before
  the marks are removed.

## Model

| member | source | states |
|---|---|---|
| Js.ReplaceFirst | pulso-publico/lib/rankingUtils.js:31 | `replace` with a one-character pattern and replacement keeps the length |
| Js.ReplaceFirstAt | pulso-publico/lib/rankingUtils.js:31 | only the first occurrence of the pattern is replaced, and every other character is kept |
| Js.ReplaceFirstAbsent | pulso-publico/lib/rankingUtils.js:31 | a string without the pattern is unchanged |
| Js.ToNumber | pulso-publico/lib/rankingUtils.js:29-33 | null, undefined and `''` give no number; a non-empty string is read after its first comma becomes a dot; a finite number, 0 included, is kept; a boolean is 1 or 0 |
| Js.DigitChar | pulso-publico/lib/rankingUtils.js:71-72 | a digit below 10 is written as one decimal digit character |
| Js.NatToString | pulso-publico/lib/rankingUtils.js:70 | `String(n)` of a non-negative integer is a non-empty string of decimal digits |
| Calendar.Next | pulso-publico/components/Ranking.jsx:439 | `setUTCDate(getUTCDate() + 1)` gives a real date, strictly later |
| Calendar.Prev | pulso-publico/lib/rankingUtils.js:79 | `setUTCDate(getUTCDate() - 1)` gives a real date, strictly earlier |
| Calendar.NextIsImmediate | pulso-publico/components/Ranking.jsx:439 | `Next` and `Prev` are inverse, and no date lies between a date and its next day |
| Calendar.AddDays | pulso-publico/components/Ranking.jsx:439 | `n` days after a real date is a real date |
| Calendar.FromUtc | pulso-publico/lib/rankingUtils.js:65 | `Date.UTC` with overflowing month and day always denotes a real date |
| Calendar.AddDaysWithinMonth | pulso-publico/lib/rankingUtils.js:65 | moving forward within a month only changes the day |
| Calendar.FromUtcTwoDigitYear | pulso-publico/lib/rankingUtils.js:65 | a year from 0 to 99 is read as that year of the 1900s |
| Calendar.LeapTwoDigitYear | pulso-publico/lib/rankingUtils.js:65 | years 1 to 99 and 1901 to 1999 have the same leap years |
| Calendar.FromUtcTwoDigitDate | pulso-publico/lib/rankingUtils.js:65 | a real date of years 1 to 99 goes to the same day of the 1900s |
| Calendar.FromUtcOfValid | pulso-publico/lib/rankingUtils.js:65 | a real date of a year from 100 on comes back unchanged from `Date.UTC` |
| Calendar.Fixed | pulso-publico/lib/rankingUtils.js:71-72 | a fixed-width numeral has exactly that width and only digits |
| Calendar.DigitsValueFixed | pulso-publico/lib/rankingUtils.js:71-72 | reading back a fixed-width numeral gives the number written |
| Calendar.PadStart2Fixed | pulso-publico/lib/rankingUtils.js:71-72 | `padStart(2, '0')` of a number below 100 is its two-digit form |
| Calendar.NatToStringFourDigits | pulso-publico/lib/rankingUtils.js:70 | a four-digit year is written with four digits |
| Calendar.IsoDayParts | pulso-publico/components/Ranking.jsx:433 | `toISOString().slice(0, 10)` of a date of years 0 to 9999 has the `YYYY-MM-DD` shape, and its parts are that date's |
| Sorting.InsertPermutes | pulso-publico/components/Ranking.jsx:134-142 | inserting an element adds exactly that element |
| Sorting.SortByPermutes | pulso-publico/components/Ranking.jsx:134-142 | the sort's result is a permutation of its input |
| Sorting.ClassAppend | pulso-publico/components/Ranking.jsx:134-142 | the elements equivalent to `y` in `s + t` are those of `s`, then those of `t` |
| Sorting.ClassSingle | pulso-publico/components/Ranking.jsx:134-142 | a one-element sequence's class of `y` is that element exactly when it is equivalent to `y` |
| Sorting.InsertSorted | pulso-publico/components/Ranking.jsx:134-142 | inserting into a sorted sequence keeps it sorted |
| Sorting.SortBySorted | pulso-publico/components/Ranking.jsx:134-142 | the sort's result is ordered by the comparator |
| Sorting.InsertClass | pulso-publico/components/Ranking.jsx:134-142 | inserting `x` puts it after the elements equivalent to it: the class of `y` gains `x` at its end when `x` is equivalent to `y` |
| Sorting.SortByStable | pulso-publico/components/Ranking.jsx:134-142 | among equivalent elements the input order is kept |
| Sorting.DistinctCount | pulso-publico/components/Ranking.jsx:131 | a sequence without repetitions holds each element at most once |
| Sorting.TwoPositions | pulso-publico/components/Ranking.jsx:131 | an element at two positions occurs at least twice |
| Sorting.DistinctPermutation | pulso-publico/components/Ranking.jsx:131-142 | a permutation of a sequence without repetitions has none either |
| Sorting.InsertAt | pulso-publico/components/Ranking.jsx:134-142 | one insertion step on the array: the prefix becomes the `Insert` of the new element, and the rest is unchanged |
| Sorting.SortInPlace | pulso-publico/components/Ranking.jsx:134-142 | the array ends as `SortBy` of its old contents |
| RankingUtils.ClubName | pulso-publico/lib/rankingUtils.js:10-27 | the name is never nullish; it is falsy only through a falsy nested `club.name` or an empty JSON text; a row whose only truthy field of the chain is `club_id` gets at most eight characters followed by the ellipsis |
| RankingUtils.ClubNameOrder | pulso-publico/lib/rankingUtils.js:10-27 | the fallback order, one clause per step: a falsy row gives the marker; a nested club with a truthy `name` or `club_name` gives `name` unless it is nullish, else `club_name`; then a truthy `club_name`; then a truthy `name`; then a truthy `club` as itself when a string, else its JSON; then the first eight characters of `String(club_id)` followed by the ellipsis; else the marker |
| RankingUtils.TrimEnd | pulso-publico/lib/rankingUtils.js:36-42 | the result is a prefix of the input that does not end in whitespace |
| RankingUtils.TrimEndSpaces | pulso-publico/lib/rankingUtils.js:42 | dropping trailing whitespace gives back a name that does not end in it |
| RankingUtils.StripABRoundTrip | pulso-publico/lib/rankingUtils.js:35-43 | a name with a trailing "(A)" or "(B)" is recognised as that label, and `stripAB` gives the name back |
| RankingUtils.StripABPlain | pulso-publico/lib/rankingUtils.js:41-43 | a label with neither suffix is left as it is |
| RankingUtils.Cleaned | pulso-publico/lib/rankingUtils.js:45-51 | no more points than rows, every date has 1 to 10 characters |
| RankingUtils.LexIrreflexive | pulso-publico/lib/rankingUtils.js:53 | no date string is before itself |
| RankingUtils.LexTransitive | pulso-publico/lib/rankingUtils.js:53 | scalar-value order on strings is transitive |
| RankingUtils.LexTotal | pulso-publico/lib/rankingUtils.js:53 | two different strings are ordered one way or the other |
| RankingUtils.LexAsymmetric | pulso-publico/lib/rankingUtils.js:53 | scalar-value order on strings is asymmetric |
| RankingUtils.LexNegTransitive | pulso-publico/lib/rankingUtils.js:53 | "not before" is transitive |
| RankingUtils.DateBeforeIsStrictWeakOrder | pulso-publico/lib/rankingUtils.js:53 | the date comparator is a strict weak order |
| RankingUtils.NormalizeSeries | pulso-publico/lib/rankingUtils.js:45-55 | the output is sorted ascending by date and is a permutation of the kept points; equal dates keep input order; length is at most the input's; dates have at most 10 characters |
| RankingUtils.ParseYmd | pulso-publico/lib/rankingUtils.js:57-66 | a parsed date is a real calendar date |
| RankingUtils.FormatYmdPadded | pulso-publico/lib/rankingUtils.js:68-74 | month and day are always written with two digits, and a four-digit year gives the ISO form |
| RankingUtils.ParseIso | pulso-publico/lib/rankingUtils.js:57-66 | the ISO form of a date of years 1 to 9999 parses through `Date.UTC` with its own parts |
| RankingUtils.ParseIsoDay | pulso-publico/lib/rankingUtils.js:57-66 | parsing the ISO form of a date of years 100 to 9999 gives that date back |
| RankingUtils.ParseTwoDigitYear | pulso-publico/lib/rankingUtils.js:57-66 | years 1 to 99 are read as 1901 to 1999 |
| RankingUtils.PrevDayRejects | pulso-publico/lib/rankingUtils.js:57-81 | the empty string, a wrong shape, or a zero year, month or day gives no date; `prevDay` is `''` exactly when the input does not parse |
| RankingUtils.PrevDayOfIso | pulso-publico/lib/rankingUtils.js:76-81 | for a real date with four-digit years, `prevDay` gives the preceding calendar day across month and year ends, and it parses back to that day |
| RankingUtils.FormatDateBR | pulso-publico/lib/rankingUtils.js:88-94 | `''` gives the dash; a first-ten-characters that does not match `YYYY-MM-DD` is returned as it is |
| RankingUtils.FormatDateBROfIso | pulso-publico/lib/rankingUtils.js:88-94 | an ISO date is shown as `DD/MM/YYYY` |
| RankingUtils.Names | pulso-publico/lib/rankingUtils.js:97-98 | every kept name is usable: truthy and not the dash |
| RankingUtils.AbsentMembers | pulso-publico/lib/rankingUtils.js:103-104 | `entered`/`exited` hold exactly the names of one list missing from the other |
| RankingUtils.DeltaRowsMeaning | pulso-publico/lib/rankingUtils.js:119-140 | every delta row is for a common name with both scores present and has delta B minus A; every such name has a row |
| RankingUtils.DeltaBeforeIsStrictWeakOrder | pulso-publico/lib/rankingUtils.js:151 | the descending-delta comparator is a strict weak order |
| RankingUtils.BestUpIsFirstMax | pulso-publico/lib/rankingUtils.js:142 | `bestUp` is null exactly when there are no rows, and otherwise is the first row of greatest delta |
| RankingUtils.BestDownIsFirstMin | pulso-publico/lib/rankingUtils.js:143 | `bestDown` is null exactly when there are no rows, and otherwise is the first row of least delta |
| RankingUtils.ScanDeltas | pulso-publico/lib/rankingUtils.js:121-144 | the loop collects exactly the computable delta rows, with `bestUp`/`bestDown` as above |
| RankingUtils.BestStep | pulso-publico/lib/rankingUtils.js:142-143 | one more row replaces `bestUp` only on a strictly greater delta and `bestDown` only on a strictly smaller one, or when none is held |
| RankingUtils.KeepDelta | pulso-publico/lib/rankingUtils.js:142-143 | the two updates of one loop turn advance `bestUp`/`bestDown` to their values over one more row |
| RankingUtils.SortDeltas | pulso-publico/lib/rankingUtils.js:151 | the deltas are sorted descending, stably, as a permutation |
| RankingUtils.BuildAbSummary | pulso-publico/lib/rankingUtils.js:96-153 | `entered` and `exited` are the one-sided names; `bestUp`/`bestDown` are the first greatest and least delta; `deltas` is the stable descending sort of the delta rows (so equal deltas keep the order of the common names), sorted and a permutation |
| Trends.Classify | pulso-publico/components/Ranking.jsx:350-354 | the badge is up by delta for a positive delta, down by its absolute value for a negative one, flat with value 0 for zero |
| Trends.ClassifySigned | pulso-publico/components/Ranking.jsx:350-354 | the signed change a badge shows is exactly `prev - curr` |
| Trends.ClassifyByDelta | pulso-publico/components/RankCard.jsx:49-52 | the badge depends on the delta alone |
| Ranking.ByClubKeys | pulso-publico/components/Ranking.jsx:102-107 | the map's keys are distinct, and a name is a key exactly when some row carries it as a usable name |
| Ranking.NamesMember | pulso-publico/components/Ranking.jsx:106-107 | a row with a usable name contributes that name |
| Ranking.ByClubBest | pulso-publico/components/Ranking.jsx:110-128 | a club's entry is one of its rows, with that row's value, and no row of the club would replace it |
| Ranking.BestStep | pulso-publico/components/Ranking.jsx:113-128 | one turn of the loop keeps each club's entry the best of its rows |
| Ranking.DedupEntry | pulso-publico/components/Ranking.jsx:113-128 | what one turn leaves as a club's entry: the row, when it replaces or opens the entry, else the old entry |
| Ranking.BestOfInit | pulso-publico/components/Ranking.jsx:120-126 | a value the club's best row replaces or equals is replaced by no row of the club |
| Ranking.NoRowsOfClub | pulso-publico/components/Ranking.jsx:106-107 | a name absent from the map has no row |
| Ranking.NewRepresentativeFirst | pulso-publico/components/Ranking.jsx:120-126 | a row that becomes the entry is strictly better than every earlier row of its club |
| Ranking.ByClubFirst | pulso-publico/components/Ranking.jsx:120-126 | among rows of equal value the earliest wins |
| Ranking.Dedup | pulso-publico/components/Ranking.jsx:102-129 | the loop builds exactly `ByClub` of the rows, with its key order |
| Ranking.EntryBeforeIsStrictWeakOrder | pulso-publico/components/Ranking.jsx:134-142 | the comparator is a strict weak order |
| Ranking.ValuesOf | pulso-publico/components/Ranking.jsx:151 | one value per entry, in order |
| Ranking.SortedValues | pulso-publico/components/Ranking.jsx:134-142 | sorted entries have every number before every missing value, numbers non-increasing |
| Ranking.RankStep | pulso-publico/components/Ranking.jsx:150-162 | one turn of the rank loop appends exactly one rank |
| Ranking.RankScan | pulso-publico/components/Ranking.jsx:145-163 | one rank per value |
| Ranking.Above | pulso-publico/components/Ranking.jsx:145-163 | the count of greater values is at most the number of values |
| Ranking.AboveNone | pulso-publico/components/Ranking.jsx:145-163 | no value is above a missing value |
| Ranking.AboveAppend | pulso-publico/components/Ranking.jsx:145-163 | counting greater values over a longer list adds the new one |
| Ranking.AboveAll | pulso-publico/components/Ranking.jsx:145-163 | when all values are greater, all are counted |
| Ranking.AboveLast | pulso-publico/components/Ranking.jsx:150-162 | in rank order, a number equal to the one before it has as many values above it as that one, and any other number has all earlier values above it |
| Ranking.RankStepLast | pulso-publico/components/Ranking.jsx:150-162 | after one turn, the new position has its competition rank, and the loop remembers that number and its rank |
| Ranking.RankStepPrefix | pulso-publico/components/Ranking.jsx:150-162 | a turn of the loop leaves earlier ranks unchanged |
| Ranking.RankFactsStep | pulso-publico/components/Ranking.jsx:150-162 | one turn keeps the loop's meaning |
| Ranking.RankAtPrefix | pulso-publico/components/Ranking.jsx:150-162 | a position's rank depends only on the values up to it |
| Ranking.RankScanInOrder | pulso-publico/components/Ranking.jsx:145-163 | in rank order, the loop's ranks are competition ranks |
| Ranking.AboveWhole | pulso-publico/components/Ranking.jsx:145-163 | in rank order nothing after a number is greater than it |
| Ranking.CompetitionRanks | pulso-publico/components/Ranking.jsx:145-163 | a number's rank is one plus the count of strictly greater numbers, so equal numbers share a rank; a missing value gets its position |
| Ranking.AboveMonotone | pulso-publico/components/Ranking.jsx:145-163 | a smaller value has at least as many values above it |
| Ranking.RanksNonDecreasing | pulso-publico/components/Ranking.jsx:145-163 | in rank order the ranks start at 1, never decrease, and never exceed the position |
| Ranking.AssignRanks | pulso-publico/components/Ranking.jsx:145-163 | each array entry gets the rank `RankScan` gives its position, and nothing else changes |
| Ranking.ValidNameOfObject | pulso-publico/lib/rankingUtils.js:10-27 | a name other than the dash comes only from an object row |
| Ranking.ClubNameOfSet | pulso-publico/components/Ranking.jsx:166-172 | setting a field other than `club`, `club_name`, `name` and `club_id` keeps the row's name, so writing `rank_position` and `_computed_value` does |
| Ranking.OutputItemFields | pulso-publico/components/Ranking.jsx:166-172 | the output row is the chosen row with exactly the two fields set |
| Ranking.EntriesInOrder | pulso-publico/components/Ranking.jsx:131 | one entry per key of the map, in insertion order |
| Ranking.WithRanks | pulso-publico/components/Ranking.jsx:145-163 | the ranks are written position by position and nothing else changes |
| Ranking.RankedEntries | pulso-publico/components/Ranking.jsx:131-163 | as many ranked entries as sorted entries, each differing from its sorted entry only in its rank |
| Ranking.SortedEntriesPermute | pulso-publico/components/Ranking.jsx:131-142 | the sorted entries are a permutation of the map's entries, without repetitions |
| Ranking.SortedEntryOfClub | pulso-publico/components/Ranking.jsx:131-142 | each sorted entry is its club's entry in the map |
| Ranking.SortedClubsDistinct | pulso-publico/components/Ranking.jsx:131-142 | two sorted entries belong to two different clubs |
| Ranking.SortedCovers | pulso-publico/components/Ranking.jsx:131-142 | every usable name has a sorted entry |
| Ranking.RankedOnePerClub | pulso-publico/components/Ranking.jsx:102-172 | exactly one ranked entry per usable club name |
| Ranking.RankedBest | pulso-publico/components/Ranking.jsx:110-128 | each ranked entry stands for the best row of its club, and that row is an object |
| Ranking.RankedOrderAndRanks | pulso-publico/components/Ranking.jsx:134-163 | the ranked entries are numbers descending, missing values last, with competition ranks |
| Ranking.RankedStable | pulso-publico/components/Ranking.jsx:134-142 | among entries of equal value (or all missing), the sort keeps the map's insertion order |
| Ranking.RankExample | pulso-publico/components/Ranking.jsx:144-163 | values 80, 80, 50, 30 get ranks 1, 1, 3, 4 |
| Ranking.RankedData | pulso-publico/components/Ranking.jsx:99-173 | the memo: no rows for a non-array or empty input; otherwise the merged, sorted, ranked rows |
| Ranking.SortAndRank | pulso-publico/components/Ranking.jsx:131-163 | sorting in place then ranking gives `RankedEntries` |
| Ranking.RankedRows | pulso-publico/components/Ranking.jsx:166-172 | each output row is its entry's row with the two fields set and the club's name |
| Ranking.RankedNames | pulso-publico/components/Ranking.jsx:102-172 | the output holds exactly one row per usable club name |
| Ranking.KeepNamed | pulso-publico/components/Ranking.jsx:237 | no more rows than the input, each with a usable name |
| Ranking.KeepNamedSubset | pulso-publico/components/Ranking.jsx:237 | the filter only drops rows |
| Ranking.KeepNamedAll | pulso-publico/components/Ranking.jsx:237 | rows that all have a usable name are all kept, in order |
| Ranking.BaseRows | pulso-publico/components/Ranking.jsx:225-238 | no more display rows than ranked rows; each has a usable name and is the display row of a ranked row |
| Ranking.DisplayValueOfOutput | pulso-publico/components/Ranking.jsx:166-172 | the display value of an output row is the value its row was ranked by |
| Ranking.RankedValidName | pulso-publico/components/Ranking.jsx:102-107 | every output row has a usable name |
| Ranking.BaseRowsOfRanked | pulso-publico/components/Ranking.jsx:225-238 | every ranked row is displayed, in order, with its ranked value, or with 0 and `wasNull` when it has none |
| Ranking.RankedBaseRow | pulso-publico/components/Ranking.jsx:227-235 | the display row of one output row: the club, the ranked value or 0, and `wasNull` exactly when there is no value |
| RankingPrev.RankMap | pulso-publico/components/Ranking.jsx:301-315 | the rank map holds the same names as the metrics map, with their ranks |
| RankingPrev.BuildPrevMaps | pulso-publico/components/Ranking.jsx:301-315 | the loop builds exactly `PrevMap` and `RankMap` of the rows |
| RankingPrev.PrevMapKeys | pulso-publico/components/Ranking.jsx:303-304 | a name is in the map exactly when some row carries it as a usable name |
| RankingPrev.PrevMapLastWins | pulso-publico/components/Ranking.jsx:306-314 | the last row of a name decides its entry, with `rank_position` when numeric, else `i + 1` |
| RankingPrev.RenderTrend | pulso-publico/components/Ranking.jsx:343-355 | no badge exactly when there is no previous date, no previous rank, or a zero current rank; otherwise the signed change is `prev - curr` |
| RankingPrev.SameRankIsFlat | pulso-publico/components/Ranking.jsx:348-354 | the same rank as the day before gives the flat badge, not the dash |
| RankingCompare.FormatDayMonth | pulso-publico/components/Ranking.jsx:50-56 | `''` exactly for `''`, and never more than 10 characters |
| RankingCompare.FormatDayMonthOfIso | pulso-publico/components/Ranking.jsx:50-56 | an ISO date gives `DD/MM` |
| RankingCompare.DayRange | pulso-publico/components/Ranking.jsx:439-441 | every day of the range is a real date |
| RankingCompare.BeforeTotal | pulso-publico/components/Ranking.jsx:439 | chronological order is total |
| RankingCompare.BeforeStep | pulso-publico/components/Ranking.jsx:439 | a date not before the day after `a` is after `a` |
| RankingCompare.DayRangeContiguous | pulso-publico/components/Ranking.jsx:436-441 | the axis is empty exactly when the start is after the stop; otherwise it starts at the start, each day is followed by the next, and it ends at the stop |
| RankingCompare.DayRangeIncreasing | pulso-publico/components/Ranking.jsx:436-441 | every day lies between the ends and the days strictly increase |
| RankingCompare.DayRangeComplete | pulso-publico/components/Ranking.jsx:436-441 | no day between the ends is missing |
| RankingCompare.IsoDayInjective | pulso-publico/components/Ranking.jsx:433 | distinct dates give distinct labels, so the labels have no duplicates |
| RankingCompare.Selected | pulso-publico/components/Ranking.jsx:413 | exactly the selected labels whose series is loaded |
| RankingCompare.PointDates | pulso-publico/components/Ranking.jsx:417-421 | the dates of the points, one per point, in order |
| RankingCompare.DatesOfComplete | pulso-publico/components/Ranking.jsx:416-422 | every point of a selected series has its date collected |
| RankingCompare.DatesOfSound | pulso-publico/components/Ranking.jsx:416-422 | every collected date is a date of a point of a selected series |
| RankingCompare.SeriesIndexLast | pulso-publico/components/Ranking.jsx:446 | a date is indexed exactly when some point carries it, with the value of the last such point |
| RankingCompare.SeriesIndexKeys | pulso-publico/components/Ranking.jsx:446 | a date is indexed exactly when some point carries it |
| RankingCompare.Align | pulso-publico/components/Ranking.jsx:447 | one entry per label: the indexed value, or null |
| RankingCompare.AlignSeries | pulso-publico/components/Ranking.jsx:446-447 | each dataset is as long as the axis and holds a number on a day exactly when the series has a point that day |
| RankingCompare.Axis | pulso-publico/components/Ranking.jsx:429-441 | every axis day is a real date |
| RankingCompare.LexLessIsStrictWeakOrder | pulso-publico/components/Ranking.jsx:426 | scalar-value order on strings is a strict weak order |
| RankingCompare.SortedEnds | pulso-publico/components/Ranking.jsx:426-437 | the first and last sorted dates are input dates, and no date is below the first or above the last |
| RankingCompare.DayLabels | pulso-publico/components/Ranking.jsx:436-441 | the label loop gives the ISO forms of the days from `lo` to `hi` |
| RankingCompare.AlignAll | pulso-publico/components/Ranking.jsx:444-464 | one dataset per selected label, each the series aligned on the labels |
| RankingCompare.CompareAligned | pulso-publico/components/Ranking.jsx:412-467 | no labels and no datasets when no selected series is loaded or none has a point; otherwise the contiguous axis and one aligned dataset per selected label |
| InsightsText.FirstTruthy | pulso-publico/components/InsightsPanel.jsx:15 | one of the values, or the fallback |
| InsightsText.FirstTruthyUnfold | pulso-publico/components/InsightsPanel.jsx:15 | the `\|\|` chain is `FirstTruthy` of its five values |
| InsightsText.DisplayName | pulso-publico/components/InsightsPanel.jsx:14-16 | the display name is always truthy |
| InsightsText.DisplayNameIsFirstTruthy | pulso-publico/components/InsightsPanel.jsx:14-16 | the display name is the first truthy of `club.name`, `club_name`, `name`, `club`, `label`, else the dash |
| InsightsText.DropSpaces | pulso-publico/components/InsightsPanel.jsx:20 | a suffix of the input, not starting with whitespace, that drops only whitespace |
| InsightsText.Trim | pulso-publico/components/InsightsPanel.jsx:20 | neither end is whitespace |
| InsightsText.Collapse | pulso-publico/components/InsightsPanel.jsx:21 | never longer than the input; with `CollapseSingleSpaced`, `CollapseKeepsText` and `CollapseGap`, every whitespace run becomes exactly one space and the other characters are kept in order |
| InsightsText.NonSpaces | pulso-publico/components/InsightsPanel.jsx:19-21 | the result holds no whitespace |
| InsightsText.CollapseEnds | pulso-publico/components/InsightsPanel.jsx:21 | collapsing gives `''` exactly for `''`, and keeps the kind (space or not) of the first and last character |
| InsightsText.CollapseSingleSpaced | pulso-publico/components/InsightsPanel.jsx:21 | collapsing leaves single plain spaces only |
| InsightsText.CollapseKeepsText | pulso-publico/components/InsightsPanel.jsx:21 | collapsing keeps every non-space character, in order |
| InsightsText.CollapseGap | pulso-publico/components/InsightsPanel.jsx:21 | a whitespace run between two pieces of text becomes exactly one space, so the words on either side stay apart (`'a b'` and `'ab'` collapse differently) |
| InsightsText.CollapseGapAfterSpace | pulso-publico/components/InsightsPanel.jsx:21 | the one-space gap when the text before the run starts with whitespace |
| InsightsText.CollapseGapAfterWord | pulso-publico/components/InsightsPanel.jsx:21 | the one-space gap when the text before the run starts with a non-space |
| InsightsText.CollapseLeadingRun | pulso-publico/components/InsightsPanel.jsx:21 | a leading whitespace run becomes one space, followed by the collapse of what comes after the run |
| InsightsText.DropSpacesAppend | pulso-publico/components/InsightsPanel.jsx:20 | dropping leading whitespace stops inside text that ends with a non-space, leaving what follows untouched |
| InsightsText.DropSpacesRun | pulso-publico/components/InsightsPanel.jsx:20 | a pure whitespace run in front of text that does not start with whitespace is dropped whole |
| InsightsText.DropSpacesText | pulso-publico/components/InsightsPanel.jsx:20 | dropping leading whitespace keeps the text |
| InsightsText.TrimEndText | pulso-publico/components/InsightsPanel.jsx:20 | dropping trailing whitespace keeps the text |
| InsightsText.NonSpacesAppend | pulso-publico/components/InsightsPanel.jsx:19-21 | the text of a concatenation is the concatenation of the texts |
| InsightsText.SpacesTidied | pulso-publico/components/InsightsPanel.jsx:19-21 | trimming then collapsing gives no space at either end, no two spaces together, and keeps the text |
| InsightsText.TrimCollapseTidy | pulso-publico/components/InsightsPanel.jsx:19-21 | collapsing text with no space at either end gives tidy text |
| InsightsText.TrimText | pulso-publico/components/InsightsPanel.jsx:20 | trimming keeps the text |
| InsightsText.CollapseTidy | pulso-publico/components/InsightsPanel.jsx:19-21 | single-spaced text that does not start with a space is left unchanged by collapsing |
| InsightsText.CollapseTail | pulso-publico/components/InsightsPanel.jsx:21 | single-spaced text is left unchanged by collapsing |
| InsightsText.TrimTidy | pulso-publico/components/InsightsPanel.jsx:20 | trimming tidy text keeps it |
| InsightsText.StripMarks | pulso-publico/components/InsightsPanel.jsx:23 | no combining diacritic is left, and the text is no longer |
| InsightsText.StripMarksNone | pulso-publico/components/InsightsPanel.jsx:23 | text without diacritics is unchanged |
| InsightsText.NormalizeClubKey | pulso-publico/components/InsightsPanel.jsx:18-24 | the key holds no combining diacritic |
| InsightsText.NormalizeFalsyName | pulso-publico/components/InsightsPanel.jsx:19 | every falsy name gets the key of `''` |
| InsightsText.NormalizeClubKeyFixed | pulso-publico/components/InsightsPanel.jsx:18-24 | a key that is already normal is its own key |
| InsightsText.ClubKeyOrder | pulso-publico/components/InsightsPanel.jsx:69 | the lookup key is the text of a truthy `__club_key`, else of a truthy `_club_key`, else the normalized display name |
| InsightsText.StripMarksCanUntidy | pulso-publico/components/InsightsPanel.jsx:21-23 | a tidy name can leave a key with two adjacent spaces |
| InsightsText.FirstDefined | pulso-publico/components/InsightsPanel.jsx:28-35 | the first value that is not nullish, else null |
| InsightsText.FirstDefinedUnfold | pulso-publico/components/InsightsPanel.jsx:28-35 | the `??` chain is `FirstDefined` of its five values |
| InsightsText.PickScore | pulso-publico/components/InsightsPanel.jsx:27-36 | all five fields nullish gives no score |
| InsightsText.PickScoreIsFirstDefined | pulso-publico/components/InsightsPanel.jsx:27-36 | the score is `toNumber` of the first of `value`, `_computed_value`, `iap_score`, `score`, `iap` that is defined |
| Insights.ArgBest | pulso-publico/components/InsightsPanel.jsx:76-93 | the index found is among the first `n` and holds a present value |
| Insights.ArgBestFinds | pulso-publico/components/InsightsPanel.jsx:76-93 | the scan finds nothing exactly when no value is present, and otherwise the first best |
| Insights.ArgBestIsFirstBest | pulso-publico/components/InsightsPanel.jsx:76-93 | the scan's index is the first best, and the first best is what the scan finds |
| Insights.PrevOf | pulso-publico/components/InsightsPanel.jsx:96-99 | the entry found by display name, else the one found by key, else none |
| Insights.Volumes | pulso-publico/components/InsightsPanel.jsx:72 | one volume per row, that row's |
| Insights.Sentiments | pulso-publico/components/InsightsPanel.jsx:73 | one sentiment per row, that row's |
| Insights.Moves | pulso-publico/components/InsightsPanel.jsx:96-104 | one change per row, that row's |
| Insights.Deltas | pulso-publico/components/InsightsPanel.jsx:104 | one entry per row: the delta of its change, or none |
| Insights.NamedStep | pulso-publico/components/InsightsPanel.jsx:77-80 | keeping the next reading moves the first best on by one row |
| Insights.MoveStep | pulso-publico/components/InsightsPanel.jsx:106-107 | keeping the next change moves the first best delta on by one row |
| Insights.ScanNamedFindsBest | pulso-publico/components/InsightsPanel.jsx:76-93 | the held reading is the one at the first best index |
| Insights.ScanChangeFindsBest | pulso-publico/components/InsightsPanel.jsx:103-108 | the held change is the one at the first best delta |
| Insights.SummaryOf | pulso-publico/components/InsightsPanel.jsx:45-125 | null exactly for no rows |
| Insights.InsightsMaxVol | pulso-publico/components/InsightsPanel.jsx:76-81 | `maxVol` is the first counted row of greatest volume, and null exactly when no counted row has one |
| Insights.InsightsSentiment | pulso-publico/components/InsightsPanel.jsx:84-93 | `bestSent` and `worstSent` are the first rows of greatest and least sentiment, and null exactly when no counted row has one |
| Insights.InsightsMoves | pulso-publico/components/InsightsPanel.jsx:96-108 | `bestUp` and `bestDown` are the changes of the first rows of greatest and least delta among rows with both scores, and null exactly when none has both |
| Insights.MoveOfMeaning | pulso-publico/components/InsightsPanel.jsx:96-104 | a change is `curr - prev` against the entry found by name, then by key |
| Insights.InsightsLeaderAndPrev | pulso-publico/components/InsightsPanel.jsx:48-121 | the leader is the first row, counted or not; `hasPrev` holds exactly with a previous date and a non-empty map |
| Insights.KeepNamed | pulso-publico/components/InsightsPanel.jsx:77-80 | the held reading is replaced exactly when there is none or the new one strictly beats it |
| Insights.KeepMove | pulso-publico/components/InsightsPanel.jsx:106-107 | the held change is replaced exactly when there is none or its delta strictly beats it |
| Insights.MoveOfRow | pulso-publico/components/InsightsPanel.jsx:96-104 | the change of a counted row, in terms of what the loop reads |
| Insights.SummaryOfRows | pulso-publico/components/InsightsPanel.jsx:111-124 | the summary of some rows, field by field |
| Insights.VisitMeasures | pulso-publico/components/InsightsPanel.jsx:64-93 | one row's volume and sentiment update the three running bests |
| Insights.VisitMove | pulso-publico/components/InsightsPanel.jsx:64-108 | one row's change updates the two running bests |
| Insights.ScanRowsStep | pulso-publico/components/InsightsPanel.jsx:63-109 | one more row moves each running best on by that row |
| Insights.ScanRows | pulso-publico/components/InsightsPanel.jsx:63-109 | after the loop each running best is the first best over all rows |
| Insights.ComputeInsights | pulso-publico/components/InsightsPanel.jsx:45-125 | the memo computes `SummaryOf` |
| RankCard.IapNum | pulso-publico/components/RankCard.jsx:41-42 | null when `score ?? iap` is nullish; otherwise that value read after its first comma becomes a dot |
| RankCard.IapNumAsToNumber | pulso-publico/components/RankCard.jsx:41-42 | for a non-empty string this agrees with `toNumber` |
| RankCard.SparkPoint | pulso-publico/components/RankCard.jsx:43 | a falsy entry or value, 0 included, gives null |
| RankCard.Sparkline | pulso-publico/components/RankCard.jsx:43 | one point per series entry, pointwise `SparkPoint`; none for a non-array |
| RankCard.SparkZeroIsGap | pulso-publico/components/RankCard.jsx:43 | a zero value is a gap, not a point at zero |
| RankCard.CardRank | pulso-publico/components/RankCard.jsx:45 | `Number(rank_position)` when it is a non-zero number, else `rank` |
| RankCard.CardTrend | pulso-publico/components/RankCard.jsx:46-53 | no trend exactly when the name has no previous rank or the rank is 0; otherwise the signed change is `prev - currRank` |
| RankCard.CardTrendAgreesWithTable | pulso-publico/components/RankCard.jsx:45-53 | for a non-zero numeric `rank_position` the card and the table show the same badge |
| ClubSeries.Ask | pulso-publico/app/api/club_series/route.js:53-65 | a thrown fetch propagates; a non-ok reply is a miss; the lookup hits exactly when the reply is ok and the first parsed row has a truthy `field`, and then the hit is that first row |
| ClubSeries.ResolveFromMeaning | pulso-publico/app/api/club_series/route.js:34-91 | the chain resolves through the first hit, naming it in `matchedBy`, and only so; it gives null exactly when every attempt misses |
| ClubSeries.ResolvedTag | pulso-publico/app/api/club_series/route.js:64-86 | every tag the chain gives names a `clubs` lookup |
| ClubSeries.ResolvedIdTruthy | pulso-publico/app/api/club_series/route.js:63-95 | a resolved id is truthy |
| ClubSeries.ResolveClubId | pulso-publico/app/api/club_series/route.js:34-91 | the two loops compute `Resolve` |
| ClubSeries.Point | pulso-publico/app/api/club_series/route.js:182-192 | `date` is `aggregation_date`, `value` is `score`, `club_id` defaults to the resolved id, `club_name` is the parameter |
| ClubSeries.FetchSeries | pulso-publico/app/api/club_series/route.js:153-202 | a non-ok reply is a 500 carrying the body as `details` with the club and its id; a thrown fetch or an ok reply with a `null` row is an internal error; an ok reply with no `null` row is the 200 series, one point per row in the store's order |
| ClubSeries.LimitDays | pulso-publico/app/api/club_series/route.js:16 | a missing or empty parameter means 90 |
| ClubSeries.HandleGet | pulso-publico/app/api/club_series/route.js:2-151 | the handler computes `Route` |
| ClubSeries.ConfigFirst | pulso-publico/app/api/club_series/route.js:7-12 | missing configuration is a 500, before anything else |
| ClubSeries.TrimBlank | pulso-publico/app/api/club_series/route.js:15 | trimming leaves nothing exactly when the text is blank |
| ClubSeries.BlankClubRejected | pulso-publico/app/api/club_series/route.js:15-23 | a missing or blank `club` is a 400, and only that is |
| ClubSeries.ServeNotFound | pulso-publico/app/api/club_series/route.js:93-131 | a 404 comes exactly when every lookup misses, and it names the club |
| ClubSeries.NotFoundMeaning | pulso-publico/app/api/club_series/route.js:93-131 | the same for the whole handler |
| ClubSeries.ServeFallbackOnlyAfterChain | pulso-publico/app/api/club_series/route.js:95-123 | a series matched by the view exists only when every `clubs` lookup missed |
| ClubSeries.FallbackOnlyAfterChain | pulso-publico/app/api/club_series/route.js:95-123 | the same for the whole handler |
| ClubSeries.ServeHasClubId | pulso-publico/app/api/club_series/route.js:112-143 | a series answer carries a truthy club id |
| ClubSeries.SeriesHasClubId | pulso-publico/app/api/club_series/route.js:112-143 | the same for the whole handler |
| AggregateDaily.Mean | pipeline/aggregate_daily.py:71-76 | no mean exactly for an empty list |
| AggregateDaily.Aggregate | pipeline/aggregate_daily.py:36-79 | nothing to insert exactly when there are no rows |
| AggregateDaily.KeysMember | pipeline/aggregate_daily.py:42-50 | a club is a key exactly when some row carries it |
| AggregateDaily.KeysDistinct | pipeline/aggregate_daily.py:42-50 | no key repeats |
| AggregateDaily.CollectMeaning | pipeline/aggregate_daily.py:52-59 | a list holds exactly the non-None readings of its club |
| AggregateDaily.CollectAbsent | pipeline/aggregate_daily.py:52-59 | a club no row carries has empty lists |
| AggregateDaily.ClubIds | pipeline/aggregate_daily.py:63-79 | one id per record, in order |
| AggregateDaily.EmitFollowsKeys | pipeline/aggregate_daily.py:63-79 | the records follow the keys with raw volumes, one each, each its club's record |
| AggregateDaily.WithRawMeaning | pipeline/aggregate_daily.py:63-65 | the kept keys are distinct and are exactly those with raw volumes |
| AggregateDaily.AggregateMeaning | pipeline/aggregate_daily.py:36-79 | one record per club with a raw volume and none for others, on the given day, with the sum of the raw volumes, and means that are None exactly for empty lists |
| AggregateDaily.GroupOfStep | pipeline/aggregate_daily.py:42-59 | one more row changes only its own club's group |
| AggregateDaily.GroupOfAbsent | pipeline/aggregate_daily.py:42-59 | a club no row carries has an empty group |
| AggregateDaily.GroupMetrics | pipeline/aggregate_daily.py:40-59 | the loop gives the keys in first-appearance order and each club's group |
| AggregateDaily.AggregateDay | pipeline/aggregate_daily.py:36-79 | `main` past the query computes `Aggregate` |
| EsportePage.EffectiveDate | pulso-publico/app/ranking/esporte/page.jsx:28-30 | the resolved date first, then the selected date, then the first row's date, else `''` |
| EsportePage.FirstRowDate | pulso-publico/app/ranking/esporte/page.jsx:30 | the first row's `aggregation_date ?? metric_date ?? date`: none when it is nullish; a string gives its first ten characters and an array its first ten items (all of them when shorter); any other value throws |
| EsportePage.EffectiveDateShort | pulso-publico/app/ranking/esporte/page.jsx:29-30 | a date not selected by the user has at most 10 characters |
| EsportePage.PageRank | pulso-publico/app/ranking/esporte/page.jsx:41 | the rank is never 0 |
| EsportePage.PageKeyIn | pulso-publico/app/ranking/esporte/page.jsx:38-43 | every row's key is in the map |
| EsportePage.PageKeyFrom | pulso-publico/app/ranking/esporte/page.jsx:38-43 | every key of the map is some row's key |
| EsportePage.PageRankMapLastWins | pulso-publico/app/ranking/esporte/page.jsx:40-42 | the last row with a key decides its rank |
| EsportePage.PageRanksNonZero | pulso-publico/app/ranking/esporte/page.jsx:41 | every rank in the map is non-zero |
| EsportePage.BuildPageRankMap | pulso-publico/app/ranking/esporte/page.jsx:36-45 | the loop builds exactly `PageRankMap` |
| EsportePage.ItemsToShow | pulso-publico/app/ranking/esporte/page.jsx:47-50 | the first `min(modeTop, len)` rows, in order |

## Left out

- Fetching, SWR, `AbortController` and the `cancelled` flag in `Ranking.jsx` are I/O and concurrency. So are the previous-day fetch around the map loop, the series loading of the comparison, and `useFetcher.js`. The responses are parameters of the model.
- The early returns of `fetchPrevRanking` are not modelled. They fire when there is no effective date or it does not parse, and they leave `prevDateUsed` as `''` and both maps empty. The model takes `prevDateUsed` and the maps as inputs.
- The `effectiveDate` memo of `Ranking.jsx` and `getAggregationDateFromItem` are not modelled. `EsportePage.EffectiveDate` models the page's version of the same priority.
- The page's previous-day key goes through `new Date(effectiveDate).getTime() - 24h`, which parses arbitrary date strings with time zones. It is not modelled.
- The HTTP mechanics of the API route are not modelled: URL and header building, `fetch`, response headers and JSON text. The store is a function from a request to a reply (ok flag and text) or a thrown error. Its parser is a function from text to a JSON value.
- Number parsing (`Number(string)`), `String` of numbers and objects, `JSON.stringify`, `toLowerCase` and NFD normalisation are host functions. The model proves properties for every such function.
- NaN and the infinities are all "no number". As a result, `Number(rank_position) \|\| rank` with an infinite rank falls back to `rank` in the model.
- `localeCompare` and the default `sort()` on date strings are modelled as lexicographic order of Unicode scalar values.
- Strings are sequences of Unicode scalar values, not of UTF-16 code units. For characters beyond U+FFFF this changes both the order of strings and the lengths that `slice` and `padStart` count. Dates and club names in ASCII are not affected.
- Arithmetic on finite numbers is exact in the model, where JavaScript and Python round to IEEE doubles. This covers `bs - as` in `buildAbSummary`, `currScore - prevScore` in `InsightsPanel.jsx` and `sum(volume_raw)` in `aggregate_daily.py`. Rounding can make two deltas equal or unequal, and so change which row is the first best or the tie order of the delta sort.
- JavaScript `Map` keys are compared as values (`SameValueZero`); the model compares `Js.Value`s structurally. Object keys are therefore not modelled by identity.
- `RankingPrev.PrevMap` records the previous-day metrics as in `Ranking.jsx`. `InsightsPanel.jsx` reads only the `score` of an entry.
- The previous-day maps are never given `null` ranks, since the loop always stores a number. The `null` checks of `renderTrend` and `RankCard` are therefore not modelled.
- AggregateDaily.Mean: the `round(sum / len, 2)` of floats is a parameter `round2` of the model. Only its absence for an empty list is stated.
- The clock stamps `calculated_at` and `created_at` and the `get_day_window` query of `aggregate_daily.py` read the wall clock and are not modelled. Neither is the final insert and its print.
- The colours, palette and chart options of `compareAligned` and the table are presentation and are not modelled. So are `NF`, `clubOptions`, the selected-club filter and the React rendering.
- RankingCompare.ParseUtcDay: `toUTCDate` is modelled only for `YYYY-MM-DD` strings. For any other shape there is no axis.
- RankingCompare.DatesOf: the dates are collected as a sequence that keeps repetitions instead of a `Set`. Repetitions change neither the least nor the greatest date.
- EsportePage.FirstRowDate: a first-row date that is a number, a boolean or a plain object has no `slice` and throws. The model marks it as `Broken` and does not model the crash itself. An array date is sliced to its first ten items (`Listed`) and becomes the page date as it is, because an array is truthy even when empty; what the page then shows for it is not modelled.
- RankingCompare.CompareAligned: takes the points of `compareMap` as they are. The `r && r.date` filter, the `String(r.date).slice(0, 10)` at pulso-publico/components/Ranking.jsx:419-420 and the same slice at line 445 are left out. The only producer of `compareMap` is `normalizeSeries` (Ranking.jsx:392), and on its output these steps change nothing: every point it gives has a date of 1 to 10 characters (`RankingUtils.Cleaned`).
- InsightsText.NormalizeClubKey: the key is not proved free of repeated spaces, because it need not be (see `InsightsText.StripMarksCanUntidy`).
- ClubSeries.FetchSeries: a `null` row makes `r.aggregation_date` throw. The handler's catch turns this into a 500, which the model gives as `Internal` without the logging.
