# Quarterly language-share chart of the GitHub activity dashboard

This project models the data logic of the dashboard component
`frontend/src/components/Main.js` and proves properties of that model. The
component takes the event records of one activity source: pull requests,
pushes, issues or stars. Each record is a language, a year, a quarter and a
count. From the records the component builds a line chart of each leading
language's share of activity, quarter by quarter.

The callback of `useEffect` does this in seven steps:

1. It sums the counts per quarter key `"year-quarter"`, both in total and per language.
2. It sorts the keys as strings and takes the last one.
3. It ranks that quarter's languages by count, using a stable descending sort, and keeps the first `numLanguages`.
4. It keeps only the records of those languages.
5. It builds one dataset per distinct language (`constructDatasets`).
6. It builds the labels: the distinct keys of the kept records, in first-seen order.
7. It fills every dataset's `data` with, for each label, the language's count as a percentage of the summed counts of the selected languages in that quarter.

The model also covers three helpers:

- the x-axis tick callback;
- the hex colour encoding and `getFadedColor`;
- the hover restyling of the datasets.

Modules, one per file:

- `Wrappers` (`wrappers.dfy`): an `Option` type.
- `Text` (`text.dfy`): the JavaScript string operations used, on `seq<char>`:
  - `toString(base)`, `String(n)`, `padStart`, `substring`, `split`;
  - `parseInt` with its sign, its `0x` prefix and `NaN`;
  - the order of the default `sort()` on strings.
- `Unique` (`unique.dfy`): `[...new Set(xs)]` with its first-occurrence order.
- `Colors` (`colors.dfy`): `randomChannel`/`getRandomColor` once the channel
  values are drawn, and `getFadedColor`.
- `Grouping` (`grouping.dfy`):
  - the records;
  - the accumulator of the `reduce` (keys in insertion order, and per quarter
    the languages in property insertion order);
  - the `reduce` as a loop over an accumulator updated in place (`GroupByQuarter`).
- `Ranking` (`ranking.dfy`): the key sort and the last key; the stable
  descending sort by count; `topLanguages`.
- `Series` (`series.dfy`):
  - the filter and `constructDatasets` as a loop;
  - the share cells and the `forEach` that reassigns each dataset's `data`;
  - the whole callback as the method `Aggregate`, proved equal to the function `ChartOf`.
- `Shares` (`shares.dfy`): the denominator in terms of the records, the bounds
  of a share, and the sum of a column.
- `ChartFacts` (`chart.dfy`): the properties of the finished chart, stated
  in terms of the source records.
- `Axis` (`axis.dfy`): the tick callback.
- `Hover` (`hover.dfy`): `fadedDatasets` and `chartDataWithStyle`.

`Math.random` becomes a parameter `palette: nat -> Rgb`: the `i`-th dataset
gets the `i`-th colour. Percentages are exact `real`s and the rounding of
`toFixed(2)` is not modelled. A share cell is one of four values:

- `Percent(p)` for a language present in the quarter;
- `Zero` for the literal `0` of an absent language;
- `NaN` for the 0/0 of a language with count 0 in a quarter whose selected counts are all zero;
- `Infinity` for a positive count over a selected total of 0. Only an unselected language can reach it, so no cell of the chart is `Infinity` (`ChartFacts.NoInfinityCell`).

Behaviours of the code worth knowing:

- Empty input: the code throws at line 74, because the last key is
  `undefined`. `ChartOf` is `None` exactly for empty input.
- Quarter order: the keys are sorted as strings. `Ranking.KeyOrder` and
  `Ranking.LastKeyIsLatest` prove that string order is chronological order
  when all years have the same number of digits and every quarter has one digit.
- Label order: the labels keep the first-occurrence order of the kept records
  and are not sorted. `ChartFacts.ChartLabels` states that order.
- Ties at the `numLanguages` cut: the sort is stable, so among equally counted
  languages of the last quarter the one whose first record in that quarter
  comes first is kept (`ChartFacts.TopFirstSeen`).
- `numLanguages` is used as given, without clamping.

## Model

| member | source | states |
|---|---|---|
| Text.Digits | frontend/src/components/Main.js:57 | definition of `n.toString(base)`: at least one digit; properties in `Text.DigitsAreDigits`, `Text.ValueOfDigits` and `Text.ParseIntOfDigits` |
| Text.Decimal | frontend/src/components/Main.js:65 | definition of `String(n)`, the rendering in a template literal: at least one digit; properties in `Text.DecimalInjective` and `Text.DecimalOrder` |
| Text.PadStart | frontend/src/components/Main.js:57 | definition of `padStart(width, c)`; properties in `Text.PadStartSpec` |
| Text.LexLess | frontend/src/components/Main.js:73 | definition of the order of the default `sort()` on strings; properties in `Text.LexIrreflexive`, `LexAsymmetric`, `LexTransitive`, `LexTotal` and `LexConcat` |
| Text.ParseInt | frontend/src/components/Main.js:170-172 | definition of `parseInt(s, radix)`: optional sign, `0x` for radix 16, the longest digit run, `None` for `NaN`; properties in `Text.ParseIntOfDigits` and `Colors.HexChannelRoundTrip` |
| Text.Substring | frontend/src/components/Main.js:170-172 | `substring(a, b)` with `a <= b <= length` is the slice `s[a..b]`; the slices of the colour text are stated by `Colors.ColorTextFields` |
| Text.Split | frontend/src/components/Main.js:139-141 | `split` of a one-character separator always gives at least one part, so destructuring `[year]` is defined; properties in `Text.SplitFirst`/`Grouping.KeySplit` |
| Text.ParseIntOfDigits | frontend/src/components/Main.js:170-172 | `parseInt(n.toString(base), base)` gives back `n` |
| Text.DecimalOrder | frontend/src/components/Main.js:73 | decimal renderings of equal length sort as strings in the order of the numbers |
| Text.DecimalInjective | frontend/src/components/Main.js:65 | distinct numbers have distinct decimal renderings |
| Text.PadStartSpec | frontend/src/components/Main.js:57 | `padStart(width, c)` gives a string of length `max(width, |s|)` that ends with `s` and is `c` before it |
| Colors.HexChannel | frontend/src/components/Main.js:57 | definition of `randomChannel` once the channel is drawn: hex digits padded to two with `0`; properties in `Colors.HexChannelRoundTrip` |
| Colors.ColorText | frontend/src/components/Main.js:58 | definition of `getRandomColor` once the channels are drawn: `#` and three two-digit channels; properties in `Colors.ColorTextFields` and `Colors.FadedColorKeepsChannels` |
| Colors.FadedColor | frontend/src/components/Main.js:169-175 | definition of `getFadedColor`; properties in `Colors.FadedColorKeepsChannels` and `Hover.FadedBorder` |
| Colors.HexChannelRoundTrip | frontend/src/components/Main.js:57 | a channel 0..255 is written as exactly two hex digits, and `parseInt(…, 16)` reads back the channel |
| Colors.NumberText | frontend/src/components/Main.js:173 | definition of how the template literal renders `parseInt`'s result, `NaN` or the integer; properties in `Colors.ParseIntOfChannel` |
| Colors.ParseIntOfChannel | frontend/src/components/Main.js:170-173 | parsing a written channel and putting it in a template literal gives the channel's decimal text |
| Colors.FadedColorKeepsChannels | frontend/src/components/Main.js:169-175 | `getFadedColor` of the colour `getRandomColor` wrote for `(r, g, b)` is `rgba(r, g, b, opacity)` with those same three numbers |
| Unique.Distinct | frontend/src/components/Main.js:32 | definition of `[...new Set(s)]`, also used at line 82; properties in `Unique.DistinctSpec` |
| Unique.DistinctOrder | frontend/src/components/Main.js:32 | two elements come in the same order in `[...new Set(s)]` as their first occurrences in `s` |
| Unique.DistinctSpec | frontend/src/components/Main.js:82 | `[...new Set(s)]` has no duplicates, has exactly the elements of `s`, and lists them in first-occurrence order |
| Grouping.QuarterKey | frontend/src/components/Main.js:65 | definition of the key `${year}-${quarter}`; properties in `Grouping.KeySplit` and `Grouping.KeyInjective` |
| Grouping.KeyOf | frontend/src/components/Main.js:82 | the key of one record, the same template at lines 65 and 82; properties in `Grouping.KeyInjective` |
| Grouping.KeySplit | frontend/src/components/Main.js:139-141 | `split('-')` of a key gives back its year and quarter texts |
| Grouping.KeyInjective | frontend/src/components/Main.js:65 | two records have the same key exactly when they have the same year and quarter |
| Grouping.QuarterOf | frontend/src/components/Main.js:66 | definition of `totals[yearQuarter] || { total: 0, languages: {} }` |
| Grouping.Lookup | frontend/src/components/Main.js:68 | definition of `languages[name] || 0`; properties in `Grouping.LookupAbsent` and `Grouping.BumpLookup` |
| Grouping.Bump | frontend/src/components/Main.js:68 | definition of `languages[name] = (languages[name] || 0) + count`; properties in `Grouping.BumpLookup`, `BumpNames` and `BumpSum` |
| Grouping.Add | frontend/src/components/Main.js:63-71 | definition of one step of the `reduce` callback; its effect is stated by `Grouping.AddKeys`, `Grouping.AddNames`, `Grouping.BumpLookup` and `Grouping.BumpNames` |
| Grouping.AddKeys | frontend/src/components/Main.js:65-69 | one step adds the record's key to the accumulator and no other key |
| Grouping.AddNames | frontend/src/components/Main.js:68 | after one step a quarter lists a language exactly when it did before or the record is of that quarter and language |
| Grouping.Tally | frontend/src/components/Main.js:63-71 | definition of the whole `reduce` from `{}`; properties in `Grouping.TallyWellFormed`, `TallyKeys`, `TallyTotal`, `TallyLanguage` and `TallyLanguageListed` |
| Grouping.GroupByQuarter | frontend/src/components/Main.js:63-71 | the in-place `reduce` ends with the accumulator `Tally(source)`, and that accumulator is well formed |
| Grouping.TallyWellFormed | frontend/src/components/Main.js:63-71 | the accumulator lists each key once, has exactly the keys listed, lists each language of a quarter once, and each quarter's `total` is the sum of its languages |
| Grouping.TallyKeys | frontend/src/components/Main.js:65-69 | a key is in the accumulator exactly when some record has that key |
| Grouping.TallyTotal | frontend/src/components/Main.js:67 | a quarter's `total` is the sum of the counts of all records with that key |
| Grouping.TallyLanguage | frontend/src/components/Main.js:68 | `languages[name]` is the sum of the counts of all records with that key and name, so duplicate records accumulate |
| Grouping.TallyLanguageListed | frontend/src/components/Main.js:68 | a quarter lists a language exactly when some record has that key and name |
| Grouping.BumpLookup | frontend/src/components/Main.js:68 | one update adds the count to its own language and leaves every other language's count unchanged |
| Grouping.BumpNames | frontend/src/components/Main.js:68 | one update appends the language to the property order exactly when it is new |
| Grouping.NamesAt | frontend/src/components/Main.js:63-68 | definition of the names of the records with one key, in record order; properties in `Grouping.LanguagesFirstSeen` |
| Grouping.LanguagesFirstSeen | frontend/src/components/Main.js:63-71 | a quarter's `languages` properties are the distinct names of that quarter's records, in the order the `reduce` first meets them |
| Grouping.TallyNonEmpty | frontend/src/components/Main.js:73-74 | a non-empty source gives at least one key |
| Ranking.InsertKey | frontend/src/components/Main.js:73 | definition of one insertion step of the key sort; properties in `Ranking.InsertKeySpec` |
| Ranking.SortKeys | frontend/src/components/Main.js:73 | definition of `Object.keys(...).sort()`; properties in `Ranking.SortKeysSpec` |
| Ranking.SortKeysSpec | frontend/src/components/Main.js:73 | the key sort is a permutation of the keys, in string order |
| Ranking.LastKey | frontend/src/components/Main.js:73-74 | the last sorted key is one of the keys, and no key sorts after it |
| Ranking.KeyOrder | frontend/src/components/Main.js:73 | when both years are written with the same number of digits and both quarters have one digit, key string order is chronological order, in both directions |
| Ranking.LastKeyIsLatest | frontend/src/components/Main.js:73-74 | under those digit conditions the last sorted key is the key of a record that no record is later than |
| Ranking.InsertByCount | frontend/src/components/Main.js:75 | definition of one insertion step of the stable descending sort by count; properties in `Ranking.InsertByCountSpec` and `Ranking.InsertByCountStable` |
| Ranking.InsertByCountSpec | frontend/src/components/Main.js:75 | inserting an entry into a descending list gives a descending permutation of the list plus the entry |
| Ranking.InsertByCountStable | frontend/src/components/Main.js:75 | an inserted entry goes before every entry of equal count already there |
| Ranking.SortByCount | frontend/src/components/Main.js:75 | definition of the stable descending sort by count; properties in `Ranking.SortByCountSpec` and `Ranking.SortByCountStable` |
| Ranking.SortByCountSpec | frontend/src/components/Main.js:75 | the ranking is a permutation of the quarter's entries, in non-increasing count order |
| Ranking.SortByCountStable | frontend/src/components/Main.js:75 | entries with equal counts keep their property order (the sort is stable) |
| Ranking.SortByCountUnique | frontend/src/components/Main.js:75 | the ranking has the same entries as the quarter, so distinct language names stay distinct |
| Ranking.RankedFacts | frontend/src/components/Main.js:73-75 | the ranking of the last quarter has exactly its entries, as many, with distinct names, in non-increasing count order, each carrying that language's count in the quarter |
| Ranking.SortByCountKeepsTies | frontend/src/components/Main.js:75 | two entries of equal count come in the same order before and after the sort |
| Ranking.TopTie | frontend/src/components/Main.js:74-77 | a selected language comes before every equally counted unselected language in the property order of the last quarter |
| Ranking.Ranked | frontend/src/components/Main.js:74-75 | definition of the sorted `Object.entries` of the last quarter's `languages`; properties in `Ranking.RankedFacts` |
| Ranking.TopLanguages | frontend/src/components/Main.js:74-77 | definition of `topLanguages`: the names of the first `numLanguages` entries of the ranking; properties in `Ranking.TopLanguagesSpec` |
| Ranking.TopLanguagesSpec | frontend/src/components/Main.js:74-77 | `topLanguages` has exactly `min(numLanguages, languages of the last key)` entries. The entries are pairwise distinct and all listed in the last key, in non-increasing count order there. No unselected language of that quarter has a higher count than a selected one. Where a selected and an unselected language have equal counts, the selected one comes first in the quarter's property order |
| Series.LanguageNames | frontend/src/components/Main.js:32 | definition of `data.map((item) => item.name)`; properties in `Series.DatasetLabels` |
| Series.QuarterKeys | frontend/src/components/Main.js:82 | definition of the `map` to `${item.year}-${item.quarter}`; properties in `ChartFacts.ChartLabels` |
| Series.Filtered | frontend/src/components/Main.js:79 | definition of `sourceData.filter(...)`; properties in `Series.FilteredIsSubsequence` and `Series.FilteredMembers` |
| Series.FilteredIsSubsequence | frontend/src/components/Main.js:79 | `filteredData` is the subsequence of `sourceData` at the increasing positions whose record names a selected language |
| Series.FilteredMembers | frontend/src/components/Main.js:79 | a record is kept exactly when it is in the source and names a selected language |
| Series.NewDataset | frontend/src/components/Main.js:46-51 | definition of the object pushed for one language, with the drawn colour and empty `data` |
| Series.DatasetsFor | frontend/src/components/Main.js:30-54 | one dataset per language, the `i`-th with the `i`-th colour; `Series.ConstructDatasets` computes it and `Series.LabelsOfDatasetsFor` reads back its labels |
| Series.ConstructDatasets | frontend/src/components/Main.js:30-54 | the loop pushes one dataset per distinct language, in first-seen order, unfilled, with the `i`-th colour drawn |
| Series.LabelsOfDatasetsFor | frontend/src/components/Main.js:30-54 | the labels of the built datasets are the given languages, position by position |
| Series.DatasetLabels | frontend/src/components/Main.js:32-51 | the dataset labels are the distinct languages of the input, pairwise distinct, each naming some record, in first-occurrence order |
| Series.FilteredKeysPresent | frontend/src/components/Main.js:82-87 | every label is a key of the accumulator, so `quarterLanguageTotals[yearQuarter]` is defined |
| Series.SelectedTotal | frontend/src/components/Main.js:89-91 | definition of `totalForSelectedLanguages`; properties in `Shares.TallySelected`, `SelectedTotalAgree` and `LookupSumIsSelected` |
| Series.ShareCell | frontend/src/components/Main.js:85-97 | definition of one cell; properties in `Shares.ShareValue`, `Shares.ShareBounds`, `Shares.ShareNaN`, `Shares.ShareInfinity` and `ChartFacts.ShareFromRecords` |
| Series.SharesFor | frontend/src/components/Main.js:85-98 | the `map` over the labels gives one cell per label; the value of each is stated by `ChartFacts.ChartCells` |
| Series.WithShares | frontend/src/components/Main.js:84-99 | the `forEach` keeps the number of datasets; `Series.FillShares` computes it step by step and `ChartFacts.ChartCells` states the cells |
| Series.FillShares | frontend/src/components/Main.js:84-99 | the `forEach` replaces every dataset's `data` by its shares at the labels and changes nothing else |
| Series.Top | frontend/src/components/Main.js:74-77 | `topLanguages` for a non-empty source; properties in `Ranking.TopLanguagesSpec` and `ChartFacts.ChartDatasets` |
| Series.ChartFrom | frontend/src/components/Main.js:61-103 | definition of the chart built for a non-empty source; properties in the `ChartFacts` lemmas |
| Series.ChartOf | frontend/src/components/Main.js:61-106 | definition of the callback's outcome, `None` on an empty source; `Series.Aggregate` computes it step by step |
| Series.Aggregate | frontend/src/components/Main.js:61-106 | the step-by-step callback computes `ChartOf(source)`, and fails (line 74) exactly on an empty source |
| Shares.BumpSelected | frontend/src/components/Main.js:68 | one update raises the selected total by the count exactly when the language is selected |
| Shares.TallySelected | frontend/src/components/Main.js:89-91 | `totalForSelectedLanguages` is the sum of the counts of the records with that key whose language is selected |
| Shares.SelectedTotalAgree | frontend/src/components/Main.js:89-91 | the selected total depends only on which of the quarter's languages are selected |
| Shares.LookupAtMostSelected | frontend/src/components/Main.js:89-94 | a selected language's count never exceeds the selected total |
| Shares.ShareBounds | frontend/src/components/Main.js:93-95 | every percentage of a selected language lies between 0 and 100 |
| Shares.ShareValue | frontend/src/components/Main.js:93-95 | with a positive selected total, the plotted value is the count over the selected total times 100, and 0 for an absent language |
| Shares.LookupSumIsSelected | frontend/src/components/Main.js:89-91 | the counts of a duplicate-free list of languages sum to their selected total |
| Shares.ColumnTotalOfShares | frontend/src/components/Main.js:85-97 | a column's values sum to the summed counts of its languages over the selected total, times 100 |
| Shares.ColumnSumsTo100 | frontend/src/components/Main.js:84-98 | with a positive selected total, the values of the selected languages at one label sum to exactly 100 |
| Shares.ShareNaN | frontend/src/components/Main.js:93-95 | a cell is `NaN` exactly when the quarter lists the language with count 0 and the selected total is 0 |
| Shares.ShareInfinity | frontend/src/components/Main.js:93-95 | a cell is `Infinity` exactly when the quarter lists the language with a positive count and the selected total is 0, which never happens to a selected language |
| ChartFacts.ShareFromRecords | frontend/src/components/Main.js:85-97 | each cell computed from the accumulator equals the share computed from the records: `Zero` if no record of that language and quarter exists; if the selected records of the quarter sum to 0, `NaN` when that language's records also sum to 0 and `Infinity` otherwise; else their count ratio times 100 |
| ChartFacts.TopFirstSeen | frontend/src/components/Main.js:63-77 | where a selected and an unselected language have equal summed counts in the last sorted quarter, the selected one has the earlier first record in that quarter |
| ChartFacts.TopReported | frontend/src/components/Main.js:74-79 | every selected language has a record in the last quarter, so it survives the filter |
| ChartFacts.FilteredLanguages | frontend/src/components/Main.js:79-81 | the languages of the filtered records are exactly the selected languages |
| ChartFacts.FilteredKey | frontend/src/components/Main.js:79-82 | a key occurs among the kept records exactly when a source record of a selected language has it |
| ChartFacts.KeptLabels | frontend/src/components/Main.js:79-87 | for any selection, the distinct keys of the kept records are each listed once, are exactly the keys of source records of selected languages, keep first-occurrence order and are all in the accumulator |
| ChartFacts.ChartLabels | frontend/src/components/Main.js:82-102 | the labels are the distinct keys of the selected records, each once, in first-occurrence order, and all present in the accumulator |
| ChartFacts.ChartDatasets | frontend/src/components/Main.js:74-103 | there is one dataset per selected language, pairwise distinct, in first-occurrence order, as many as `topLanguages`. Each is unfilled, in its drawn colour, with no background colour or border width |
| ChartFacts.ChartCells | frontend/src/components/Main.js:84-103 | every dataset's `data` is aligned with the labels, and each cell is the record-based share of that language at that label |
| ChartFacts.ChartColumn | frontend/src/components/Main.js:84-98 | the values of all datasets at one label are the shares of the dataset languages in that quarter |
| ChartFacts.ChartColumnsSumTo100 | frontend/src/components/Main.js:84-98 | at every label whose selected records have a positive total, the values of all datasets sum to 100 and none is `NaN` or `Infinity` |
| ChartFacts.NoInfinityCell | frontend/src/components/Main.js:84-98 | every cell of every dataset of the chart exists and is not `Infinity` |
| Axis.Tick | frontend/src/components/Main.js:137-143 | definition of the tick callback, `None` where `label.split` would throw; properties in `Axis.FirstTickShown`, `LaterTick`, `KeyTicks` and `ChartTicks` |
| Axis.FirstTickShown | frontend/src/components/Main.js:137-143 | the first label is always shown, as `year - Qquarter` |
| Axis.LaterTick | frontend/src/components/Main.js:137-143 | a later label is shown as `year - Qquarter` exactly when its year differs from the previous label's year, and is `''` otherwise |
| Axis.ChartLabelsAreKeys | frontend/src/components/Main.js:82 | every label of the chart is the key of some record |
| Axis.SameYearOfPair | frontend/src/components/Main.js:137-141 | for keys of two records, some records of those keys share a year exactly when these two records do |
| Axis.KeyTicks | frontend/src/components/Main.js:137-143 | on labels that are all keys of records, the callback never fails, shows the first label, and blanks a later label exactly when it and the previous label share a year |
| Axis.ChartTicks | frontend/src/components/Main.js:137-143 | on the chart's labels the callback never fails and shows the first label. A later label is blank exactly when a record of that label and a record of the previous label have the same year |
| Hover.FadeOr | frontend/src/components/Main.js:178-179 | definition of `color ? getFadedColor(color, opacity) : fallback`; properties in `Hover.FadedBorder` and `Hover.StyleColors` |
| Hover.KeepsColor | frontend/src/components/Main.js:182-183 | definition of `hoveredDatasetIndex === null || hoveredDatasetIndex === index`; properties in `Hover.StyleColors` |
| Hover.Faded | frontend/src/components/Main.js:177-185 | definition of one element of `fadedDatasets`; properties in `Hover.StyleColors` |
| Hover.FadedDatasets | frontend/src/components/Main.js:177-185 | `fadedDatasets` has one element per dataset |
| Hover.Styled | frontend/src/components/Main.js:189-194 | definition of one dataset of `chartDataWithStyle`; properties in `Hover.StyleWidth` and `Hover.StyleColors` |
| Hover.StyleChart | frontend/src/components/Main.js:187-195 | definition of `chartDataWithStyle`; properties in `Hover.StyleKeepsData`, `StyleWidth`, `StyleColors` and `StyledChartColors` |
| Hover.StyleKeepsData | frontend/src/components/Main.js:187-195 | restyling keeps the labels, the number of datasets, and each dataset's label, data and fill |
| Hover.StyleWidth | frontend/src/components/Main.js:191 | the border width is 12 exactly at the hovered index and 4 everywhere else |
| Hover.StyleColors | frontend/src/components/Main.js:177-195 | with nothing hovered, and for the hovered dataset, colours are unchanged. Every other dataset gets the faded border and background colours |
| Hover.FadedBorder | frontend/src/components/Main.js:178 | fading a `#rrggbb` border colour gives `rgba(r, g, b, 0.5)` with its own channels |
| Hover.StyledChartColors | frontend/src/components/Main.js:177-195 | on the built chart, a dataset faded by hovering another is drawn as `rgba(r, g, b, 0.5)` of its drawn colour, with background `rgba(0, 0, 0, 0.1)` |

## Left out

- React state, hooks and effect scheduling are left out; the callback is a function of `sourceData` and `numLanguages`. Also left out: Chart.js registration and defaults, the JSX markup, the slider and buttons, and the `onHover` handler that sets `hoveredDatasetIndex`. None of these compute anything the chart depends on beyond the hovered index, which is a parameter.
- The JSON fixtures imported at lines 6-9 are not part of this model; records are an input sequence.
- `Math.random` (line 57) becomes the `palette` parameter. Only the encoding of given channel values is modelled.
- Floating point and `toFixed(2)` (line 94): shares are exact reals, so rounding and the string type of the rounded value are not modelled.
- Counts and sums are unbounded naturals; JavaScript numbers add exactly only below 2^53, so sums beyond that are not modelled as the source computes them.
- `parseInt(count, 10)` of the record counts (lines 67-68): counts are natural numbers, so a non-numeric count (which gives `NaN`) is not representable.
- Text.ParseInt: JavaScript's `parseInt` skips leading white space and the model does not, so on a string such as `"# f0000"` `Colors.FadedColor` reads the red channel as `NaN` where JavaScript reads 15. On the charts `ChartFrom` builds, every string `getFadedColor` parses is `#` followed by two hex digits per channel (`Colors.ColorTextFields`), so the difference does not arise there.
- `numLanguages` arriving as a string from the slider is not modelled; it is a natural number.
- `year` and `quarter` are naturals. A record's year or quarter given as text is assumed to be its plain decimal rendering, so the key `${year}-${quarter}` is `Decimal(year) + "-" + Decimal(quarter)`.
- The `sourceData !== undefined` guard (line 62): the source is always a sequence.
- The per-language `countsByYearQuarter` values built in `constructDatasets` (lines 37-45) are overwritten at line 85 before the chart is stored, so the model's datasets start with empty `data`.
- In-place mutation of the dataset objects and of the accumulator is modelled on values: `GroupByQuarter` and `FillShares` update local values and sequences. Object identity and aliasing are not modelled.
- Inherited properties of the `languages` object are not modelled. The model only sees the quarter's own languages. In the source, a language named like an `Object.prototype` member such as `toString` or `constructor` is found by `in` at line 93. At line 68, `languages[name] || 0` then yields the inherited function, and `+` joins it with the count as a string.
- Integer-index-like property names (such as `"1"`) are listed first by `Object.entries`, in ascending numeric order; other names, including numeric-looking ones such as `"1.5"` or `"01"`, keep their insertion position. The model keeps pure insertion order for language names.
- Characters are compared as code points, where `sort()` compares UTF-16 code units; the two orders agree below U+10000.
- `Axis.Tick` returns `None` at an index with no label, where `label.split` would throw; Chart.js only calls it with indices of existing labels.
