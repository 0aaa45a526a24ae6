# Exoplanet dashboard: the tabular pipeline

This project models the data core of a browser dashboard for exoplanet catalogues. It is written in Dafny, and every operation carries a contract the verifier proves. The modelled core:

- **`JsValues`**: the JavaScript values a parsed spreadsheet cell can hold (`null`, a string, a number). It also has the string and number primitives the pipeline calls:
  - `toLowerCase`, `toUpperCase` and `trim`;
  - one-character `replace`;
  - `String(number)`;
  - `Number(text)` with `Number.isFinite`.
- **`KeyNames`**: `normalizeKeyName`, the header normalisation.
- **`Resolver`**: field resolution. It covers `getAny` in `app.js` and `alone.js`, which tries an exact pass and then a normalised-dictionary pass. It also covers `key` in `ai-predict.js`, which uses a trimmed, lower-cased dictionary.
- **`Coercion`**: the cell coercions `toNum` (and `n`) and `toYear`.
- **`StableSort`**: a stable comparison sort. It stands for `Array.prototype.sort` with a comparator.
- **`Grouping`**: the grouping and counting idioms.
  - `(g[k] ||= []).push(v)` groups values by key. The model builds one group per key and lists the groups in the order their keys are first met. See "## Left out" for integer-like keys and for keys that name `Object.prototype` members.
  - A `Map` of counts is read back with its keys sorted.
- **`Csv`**: `toCSV`, the export. It has a reader for the text it writes, so the export is proved to round-trip.
- **`Dashboard`** (`app.js`) covers:
  - API address joining and the APOD date rewrite and query;
  - `normalizeRow` into planet rows;
  - `groupByYear`;
  - the `applyFilters` filter and comparator.
  - The table state (`ALL_ROWS`, `FILTERED`, `sortState`) is a class. Its methods are load, header click, reset and export.
- **`Predict`** (`ai-predict.js`): `parseRow`, `groupByLabel`, `anovaF` and `computeSignalsCategorical`, the ANOVA F-score ranking of numeric columns against a class column.
- **`Alone`** (`alone.js`) covers:
  - the star–planet row normalisation, with the derived semi-major axis and equilibrium temperature;
  - `calcKPIs`;
  - the disposition groups of `makeTraces`;
  - the earth-like overlay.
- **`Charts`** (`charts3d.js`): `fmt`, `clamp` and `by`, plus the data behind four charts:
  - the 3-D scatter;
  - the method-by-year count surface;
  - the cumulative discoveries line;
  - the year-by-radius heatmap.

A raw row is a `Record`, an ordered list of `(header, value)` pairs in `Object.keys` order. Records built from JavaScript objects never repeat a header. The type does not forbid a repeat, and a lookup then takes the first pair; the lemmas hold for such records too, but no source input produces them. A missing property (`undefined`) is `None`. `Number.isFinite` numbers are `real`s, and a non-finite number is absent. `parseFloat` and `parseInt` results on the filter boxes are `JsNumber` (`NaN`, `±Infinity` or a finite value). Two library calls are parameters:

- `localeCompare` is a `collate` function.
- `Math.pow(·, 2/3)` and `Math.sqrt` are functions whose laws the lemmas state as preconditions.

## Model

| member | source | states |
|---|---|---|
| JsValues.ToLower | app.js:309 | Same length; each character is mapped to its lower-case form. |
| JsValues.ToUpper | alone.js:81 | Same length; each character is mapped to its upper-case form. |
| JsValues.Trim | app.js:309 | Neither end of the result is JavaScript white space. |
| JsValues.TrimUnchanged | app.js:309 | Text with no white space at either end is unchanged by `trim`. |
| JsValues.ReplaceFirst | app.js:198 | A one-character `replace` keeps the length. |
| JsValues.ReplaceFirstSpec | app.js:198 | `replace` turns the first occurrence of the character, if any, into the replacement and leaves every other position as it was. |
| JsValues.ReplaceFirstAbsent | app.js:198 | Without the pattern character, `replace` leaves the text unchanged. |
| JsValues.ParseUnsigned | app.js:198 | A decimal literal reads as a non-negative value, and a plain digit string reads as the number its digits denote. |
| JsValues.ParseDecimal | app.js:198 | Digits, a point and digits read as the whole part plus the fraction digits over the matching power of ten. |
| JsValues.DigitsOfNat | app.js:198 | The decimal digits of a natural number denote that number. |
| JsValues.ParseNat | app.js:198 | `Number` of the decimal text of a natural number gives that number back. |
| JsValues.CommaNumber | ai-predict.js:129-131 | The `anovaF` sample reading: an empty cell reads as 0. |
| JsValues.WordIsNotNumber | ai-predict.js:130 | Text starting with a letter is not a number. |
| JsValues.CommaNumberOfMissing | ai-predict.js:129-131 | A missing or `null` cell (`"undefined"`, `"null"`) yields no sample. |
| KeyNames.RemoveAll | app.js:171 | No occurrence of the character is left; text without it is unchanged. |
| KeyNames.ReplaceAll | app.js:172 | Same length; exactly the occurrences of `a` become `b`. |
| KeyNames.RemoveSpaces | app.js:175 | No white space is left, and the text is no longer than before. |
| KeyNames.RemoveSpacesKeepsOthers | app.js:175 | Removing white space works piece by piece: a space goes, and any other character stays, in order. |
| KeyNames.KeepWordChars | app.js:176 | Only letters, digits and `_` remain. |
| KeyNames.KeepWordCharsKeepsWords | app.js:176 | Dropping other characters works piece by piece: a letter, digit or `_` stays, in order, and any other character goes. |
| KeyNames.NormalizedIsKeyName | app.js:169-177 | A normalised header has only lower-case letters, digits and `_`, and no white space. |
| KeyNames.IdentityOnKeyName | app.js:174-176 | Each step leaves a normalised header unchanged. |
| KeyNames.NormalizeIdempotent | app.js:169-177 | Normalising twice is normalising once. |
| Resolver.GetFromRow | app.js:180 | `obj[k]` is a value stored under `k`; `undefined` means no property is named `k`. |
| Resolver.DictFromRow | app.js:183 | Every dictionary entry comes from a property whose normalised name is the key. |
| Resolver.BuildDict | app.js:182-183 | The loop builds exactly the normalised dictionary. |
| Resolver.FirstExactAt | app.js:179-181 | The exact pass returns the first candidate holding a present value. |
| Resolver.FirstExactNone | app.js:179-181 | With no present exact value, the exact pass finds nothing. |
| Resolver.FirstExactFound | app.js:179-181 | When the exact pass finds a value, some candidate holds it and it is present. |
| Resolver.FirstInDictAt | app.js:184-187 | The dictionary pass returns the first candidate whose normalised name holds a present value. |
| Resolver.FirstInDictNone | app.js:184-187 | With no present dictionary value, the dictionary pass finds nothing. |
| Resolver.FirstInDictFound | app.js:184-187 | When the dictionary pass finds a value, some candidate holds it and it is present. |
| Resolver.DictLastWins | app.js:183 | When two headers normalise alike, the later property's value is kept. |
| Resolver.CollisionHidesEarlier | app.js:183 | An empty later duplicate hides an earlier present value from the dictionary pass. |
| Resolver.ResolveExactFirst | app.js:178-181 | An exact match beats every normalised match, and the earliest present candidate wins. |
| Resolver.ResolveNormalizedFirst | app.js:182-187 | With no exact match, the earliest candidate present in the normalised dictionary wins. |
| Resolver.ResolveEmpty | app.js:188 | An object without properties resolves to `null`. |
| Resolver.ResolveNullIff | app.js:178-189 | `getAny` returns `null` exactly when neither pass finds a present value. |
| Resolver.ResolveStored | app.js:178-189 | The result is `null` or a present value stored in the row. |
| Resolver.ScanExact | app.js:179-181 | The exact loop returns the exact-pass result. |
| Resolver.ScanDict | app.js:184-187 | The dictionary loop returns the dictionary-pass result. |
| Resolver.GetAny | app.js:178-189 | The method computes exactly the two-pass resolution. |
| Resolver.LooseResolveFirst | ai-predict.js:6-11 | `key` returns the earliest lower-cased candidate present in the trimmed, lower-cased dictionary. |
| Resolver.LooseResolveNullIff | ai-predict.js:6-11 | `key` returns `null` exactly when no candidate holds a present value. |
| Resolver.Key | ai-predict.js:6-11 | The method computes exactly the loose resolution. |
| Coercion.ToNum | app.js:198 | `null` and `""` are absent, and a number cell is its own value. Text without a comma is read by `Number`. Text with a comma is read with its first comma turned into a point. |
| Coercion.DecimalComma | app.js:198 | `"1,5"` reads as 1.5. |
| Coercion.SecondCommaIsNotDecimal | app.js:198 | Only the first comma is replaced, so `"1,000,5"` is absent. |
| Coercion.SecondCommaRemains | app.js:198 | `"1.000,5"` is absent. |
| Coercion.WordsAreAbsent | app.js:198 | `"abc"` is absent. |
| Coercion.ParseOnePointFive | app.js:198 | `Number("1.5")` is 1.5. |
| Coercion.FirstRun | app.js:199 | Returns the leftmost run of four digits as a year in 0..9999, or nothing when there is no such run. |
| Coercion.ToYear | app.js:199 | `null` and `""` are absent; a year is in 0..9999. |
| Coercion.YearInText | app.js:199 | `"Discovered 2014"` gives 2014. |
| Coercion.YearOfLongRun | app.js:199 | `"12345"` gives 1234, its first four digits. |
| Coercion.ShortNumberIsNoYear | app.js:199 | The number 14 has no four-digit run and gives no year. |
| StableSort.Sort | app.js:326-333 | The result is a permutation of the input. |
| StableSort.SortSorted | app.js:326-333 | Under a total preorder the result is ordered by the comparator. |
| StableSort.InsertTied | app.js:326-333 | Inserting keeps the relative order of elements tied with any given one. |
| StableSort.SortStable | app.js:326-333 | Sorting keeps the input order of every set of tied elements. |
| Grouping.Find | ai-predict.js:41 | Gives the first index of the key, or the length when the key is absent. |
| Grouping.Push | ai-predict.js:41 | Adds at most one group. |
| Grouping.Select | ai-predict.js:41 | Keeps the values of the elements with one key, and no more of them than there are elements. |
| Grouping.GroupContents | ai-predict.js:40-42 | The keys are distinct. Each group holds exactly its key's values in input order and is non-empty. A group exists exactly for the keys met. |
| Grouping.GroupSizes | ai-predict.js:40-42 | The group sizes add up to the number of elements. |
| Grouping.GroupSnoc | ai-predict.js:41 | One more element is one more push onto its group. |
| Grouping.GroupInto | ai-predict.js:41 | The `forEach` loop builds exactly the groups. |
| Grouping.Bump | app.js:272 | `m.set(y, (m.get(y)\|\|0)+1)` adds at most one entry. |
| Grouping.TallyKeys | app.js:268-273 | Each key is counted once, and exactly the keys met are counted. |
| Grouping.TallyMultiplicity | app.js:268-273 | Each count is the key's number of occurrences, at least 1. |
| Grouping.TallySum | app.js:268-273 | The counts add up to the number of keys. |
| Grouping.SumCountsPermutation | app.js:274-275 | Reordering the entries keeps the total. |
| Grouping.TallyInto | app.js:269-273 | The counting loop builds exactly the tally. |
| Grouping.SortedTallyAscending | app.js:274 | The sorted keys are strictly ascending. |
| Grouping.SortedTallyCounts | app.js:274-275 | The sorted entries keep the keys met, each with its number of occurrences, and the total. |
| Csv.EscapeQuotes | app.js:51 | Quote doubling adds and removes no other character, and keeps whether a quote occurs. |
| Csv.Keys | app.js:46 | Gives one header per property of the first row. |
| Csv.Cells | app.js:49-53 | Gives one cell per header. |
| Csv.ToCsv | app.js:44-57 | The loop builds the export text of the rows. |
| Csv.ReadQuoted | app.js:52 | The reader of a quoted field always consumes input. |
| Csv.FieldEnd | app.js:52 | Gives the first comma or line break, or the end of the text. |
| Csv.ReadField | app.js:49-53 | Reading a field never grows the input. |
| Csv.ReadRecord | app.js:53 | A record ends at a line break or at the end of the text. |
| Csv.QuotedRoundTrip | app.js:51-52 | A quoted, escaped field reads back as itself. |
| Csv.FieldRoundTrip | app.js:49-53 | Every written field reads back as the original text, followed by what came after it. |
| Csv.RecordRoundTrip | app.js:49-54 | A written line reads back as its fields. |
| Csv.TableRoundTrip | app.js:47-56 | Written lines joined by line breaks read back as the table. |
| Csv.PlainFieldUnchanged | app.js:47 | A header needing no quotes is written as it is. |
| Csv.PlainLine | app.js:47 | The header line, written unquoted, is the same line the quoting writer gives for plain headers. |
| Csv.CsvReadsBack | app.js:44-57 | The export of a non-empty row list reads back as the headers followed by each row's cells. |
| Csv.EmptyCsv | app.js:45 | No rows give the empty text. |
| Dashboard.TrimSlashes | app.js:19 | Removes exactly the trailing slashes. |
| Dashboard.ApiUrl | app.js:17-20 | With no base the path is returned. Otherwise the address starts with the trimmed base and one slash, ends with the path, and is exactly as long as the base, the path and one slash together. |
| Dashboard.ApiUrlTrailingSlash | app.js:19 | A trailing slash on the base makes no difference. |
| Dashboard.ApiUrlLeadingSlash | app.js:19 | A path with or without its leading slash gives the same address. |
| Dashboard.ApodDate | app.js:111-115 | `MM/DD/YYYY` becomes `YYYY-MM-DD` with the same digits; anything else is kept as typed. |
| Dashboard.ApodDateRoundTrip | app.js:112-114 | The rewrite loses nothing and leaves a rewritten date alone. |
| Dashboard.ApodParams | app.js:110-117 | The key is always sent: the trimmed input, or `DEMO_KEY` when that is empty. A date is sent exactly when one was typed, and it is the rewritten `ApodDate` of the input, in ISO form when typed as `MM/DD/YYYY`. |
| Dashboard.ApodParamsStable | app.js:110-117 | Typing back the key and date that were sent gives the same request. |
| Dashboard.NormalizeRow | app.js:190-202 | Text fields are `null` or a present value from the row; a year is in 0..9999. |
| Dashboard.NormalizeAll | app.js:218 | Maps `normalizeRow` over the rows, one for one. |
| Dashboard.NormalizeRecord | app.js:190-202 | The method resolves each field exactly as `normalizeRow` does. |
| Dashboard.EmptyRecordRow | app.js:190-202 | A record with none of the headers gives a row of nulls. |
| Dashboard.Records | app.js:419 | Gives one object per planet row. |
| Dashboard.Column | app.js:327-328 | `r[key]` on a planet row is the property of its object form. |
| Dashboard.ExportReadsBack | app.js:417-419 | Exported rows read back as the six headers followed by each row's cells. |
| Dashboard.PlainHeaders | app.js:46-47 | The six headers need no quoting. |
| Dashboard.Years | app.js:270-271 | The years of the rows that have one. |
| Dashboard.Firsts | app.js:274 | The keys of the count entries, in order. |
| Dashboard.CountYears | app.js:268-273 | The counting loop is the tally of the years. |
| Dashboard.YearSeries | app.js:274-275 | Years are strictly ascending and are exactly those met. Each count is that year's number of occurrences, and the counts add up. |
| Dashboard.GroupByYear | app.js:267-276 | The series is ascending and distinct, and the counts are exact. Together they cover every row with a year. |
| Dashboard.NameOkAsWrittenAgrees | app.js:316 | The name test as written throws exactly on a non-zero numeric name, and otherwise agrees with the string test. |
| Dashboard.NumericNameThrows | app.js:316 | A planet named 2014 throws on the query "20", which its text matches. |
| Dashboard.FilterRows | app.js:315-322 | The filter never adds rows. |
| Dashboard.BoundsBehaviour | app.js:317-320 | An empty (NaN) bound checks nothing, and a missing value passes every bound. Otherwise the bound is a plain `>=` or `<=`. |
| Dashboard.FilterKeepsPassing | app.js:315-322 | Keeps exactly the passing rows, each as often as it occurs. |
| Dashboard.FilterRowsInOrder | app.js:315-322 | The filter works piece by piece, so the kept rows stay in their original order. |
| Dashboard.FilterRowsSingle | app.js:315-322 | A single row is kept exactly when it passes. |
| Dashboard.FilterAllPass | app.js:315-322 | Rows that all pass are kept as they are. |
| Dashboard.FilterIdempotent | app.js:315-322 | Filtering twice is filtering once. |
| Dashboard.EmptyQueryKeepsAll | app.js:309-322 | With every box empty, every row is kept. |
| Dashboard.NumericSortCell | app.js:327-329 | A numeric column compares its value as a number and a missing one as `""`. |
| Dashboard.NumericOrderConsistent | app.js:326-333 | On a numeric column the comparator is a total preorder. |
| Dashboard.NumericSortOrder | app.js:324-334 | Ascending puts rows without a value first and then ascending values; descending is the reverse. |
| Dashboard.Table.constructor | app.js:23-24 | Starts with no rows and no sort. |
| Dashboard.Table.ApplyFilters | app.js:308-334 | `FILTERED` becomes the filtered rows, sorted when a sort key is set. |
| Dashboard.Table.Load | app.js:236-238 | Stores the normalised rows, clears the sort and shows the filtered rows. |
| Dashboard.Table.ClickHeader | app.js:340-349 | The same key flips the direction; another key sorts ascending. |
| Dashboard.Table.Reset | app.js:410-415 | Clears the boxes and the sort, so every row is shown in load order. |
| Dashboard.Table.Export | app.js:417-419 | Gives nothing when no row is shown, and otherwise the CSV of the shown rows. |
| Dashboard.ShownIsFilteredRows | app.js:315-334 | Whatever the sort, `FILTERED` holds exactly the passing rows. |
| Predict.LabelOf | ai-predict.js:15 | The label is always truthy. |
| Predict.ParseRow | ai-predict.js:13-29 | The parsed row's label is truthy. |
| Predict.LabelKept | ai-predict.js:15 | A truthy label found under a label header is kept. |
| Predict.UnlabelledIsOther | ai-predict.js:15 | A row with no label header is labelled "Other". |
| Predict.GroupByLabel | ai-predict.js:40-42 | The method builds the label groups. |
| Predict.GroupByLabelPartition | ai-predict.js:40-42 | Gives one group per label met, each holding exactly that label's rows in order. The sizes add up. |
| Predict.MeanBounds | ai-predict.js:124 | The mean lies within any bounds of the values. |
| Predict.SqDev | ai-predict.js:143 | A sum of squared deviations is never negative. |
| Predict.FRatio | ai-predict.js:145-147 | F is non-negative for non-negative sums. It is 0 when either sum is 0, and positive when both are. |
| Predict.BetweenTermPositive | ai-predict.js:141-142 | A class whose mean is off the overall mean adds a positive share to the between sum. |
| Predict.EqualMeansNoBetween | ai-predict.js:140-143 | When every class has the overall mean, the between sum is 0. |
| Predict.UnequalMeansBetween | ai-predict.js:140-143 | When some class's mean is off the overall mean, the between sum is positive. |
| Predict.EqualMeansScoreZero | ai-predict.js:134-148 | A column whose every class has the same mean scores 0. |
| Predict.UnequalMeansScorePositive | ai-predict.js:134-148 | With ten or more samples in two or more classes, unequal class means and a positive within sum, the score is positive. |
| Predict.Score | ai-predict.js:134-148 | The score is non-negative. Fewer than two classes give `(0, 0)`. Otherwise the count is all the samples, and fewer than ten samples score 0. |
| Predict.TargetText | ai-predict.js:128 | A missing or `null` target is "Other". |
| Predict.Buckets | ai-predict.js:126-133 | No bucket is empty. |
| Predict.AnovaGuards | ai-predict.js:125-149 | The score is never negative. With two or more classes, the count is the number of finite samples. Fewer than two classes, or fewer than ten samples, score 0. |
| Predict.EmptyCellIsZero | ai-predict.js:129-131 | An empty cell is a sample 0 (unlike `n`), and a missing or null cell is skipped. |
| Predict.Bucketize | ai-predict.js:127-133 | The first loop builds exactly the class buckets. |
| Predict.SumsOfSquares | ai-predict.js:139-144 | The second loop computes exactly the between and within sums. |
| Predict.ScoreBuckets | ai-predict.js:134-148 | The guards and the F ratio give exactly `Score`. |
| Predict.AnovaF | ai-predict.js:125-149 | The method computes exactly the modelled `anovaF`. |
| Predict.Candidates | ai-predict.js:153-157 | No more candidates than columns. |
| Predict.ScoreColumns | ai-predict.js:153-157 | The loop keeps exactly the candidates. |
| Predict.ComputeSignalsCategorical | ai-predict.js:151-160 | The method returns the ranked candidates. |
| Predict.CandidateSound | ai-predict.js:154-157 | Every candidate is a listed column with `n >= 10`, carrying its score. |
| Predict.CandidateComplete | ai-predict.js:154-157 | Every listed column with `n >= 10` is a candidate. |
| Predict.CandidatesDistinct | ai-predict.js:154-157 | Distinct columns give distinct candidates. |
| Predict.RankingSound | ai-predict.js:154-158 | The sorted entries are still sound. |
| Predict.RankingComplete | ai-predict.js:154-158 | The sorted entries are still complete. |
| Predict.RankingDistinct | ai-predict.js:154-158 | The sorted entries name each column at most once. |
| Predict.RankingOrder | ai-predict.js:158 | The scores do not increase. |
| Predict.SignalsRanking | ai-predict.js:151-160 | The signals are sound, complete, distinct and in non-increasing score order. |
| Predict.SignalsStable | ai-predict.js:158 | Equal scores keep the fixed column order. |
| Alone.AxisEstimate | alone.js:33-37 | A supplied axis is kept; the axis is absent exactly when the axis and the period are both absent. |
| Alone.DerivedAxisNonNegative | alone.js:34-36 | A derived axis is never negative. |
| Alone.NonPositivePeriodAxis | alone.js:35-36 | A period of zero or less gives axis 0. |
| Alone.AxisFromPeriod | alone.js:35-36 | The derived axis is `pow23(P / 365.25)`. |
| Alone.StellarRatio | alone.js:41-42 | `r_au / (2 a)` is non-negative for a non-negative stellar radius. |
| Alone.TeqEstimate | alone.js:39-43 | A supplied temperature is kept. A derived one needs a finite `teff`, stellar radius and positive axis. |
| Alone.DerivedTeq | alone.js:40-42 | The derived temperature is `teff · sqrt(ratio)`, and non-negative for a non-negative `teff`. |
| Alone.NoTeqWithoutAxis | alone.js:40 | With no positive axis, no temperature is derived. |
| Alone.NormalizeRow | alone.js:23-45 | Name and disposition are `null` or present values from the row. The radius is the coerced cell. A supplied axis and temperature win. |
| Alone.Filter | alone.js:64 | The filter never adds rows. |
| Alone.FilterMembers | alone.js:64-66 | Keeps exactly the elements that pass. |
| Alone.FilterCount | alone.js:64-66 | Each element that passes is kept as often as it occurs, and every other is dropped. |
| Alone.FilterInOrder | alone.js:64-66 | The filter works piece by piece, so the kept elements stay in order. |
| Alone.FilterLength | alone.js:64-66 | The filter keeps as many elements as there are positions that pass. |
| Alone.FilterKeepsAll | alone.js:64-66 | Nothing is dropped exactly when every element passes. |
| Alone.CalcKpis | alone.js:62-68 | `total` is the row count. `named` is the number of rows with a truthy name, and `small` the number with a finite radius of at most 1.5. `withYear` is 0. |
| Alone.KpisFull | alone.js:62-68 | `named == total` exactly when all rows are named, and likewise for small planets. |
| Alone.Add | alone.js:80-86 | A push adds the row to its category's group only. |
| Alone.GroupRowsSlot | alone.js:79-86 | Each group holds exactly its category's rows, with multiplicity. |
| Alone.GroupRowsMembers | alone.js:79-86 | A row lands in its category's group and no other. |
| Alone.GroupRowsPartition | alone.js:79-86 | The four groups together hold every row exactly once. |
| Alone.LowerCaseConfirmed | alone.js:81-82 | A lower-case "confirmed" is CONFIRMED. |
| Alone.ConfirmedFirst | alone.js:82-85 | A text naming CONFIRMED is CONFIRMED, whatever else it names. |
| Alone.MissingIsOther | alone.js:81-85 | A missing disposition is OTHER. |
| Alone.MakeGroups | alone.js:77-86 | The method groups exactly the clean rows. |
| Alone.EarthLikeIff | alone.js:106 | A row is earth-like exactly when it is clean and inside both ranges. |
| Charts.Fmt | charts3d.js:4 | `null` and NaN become `null`; anything else is returned as it is. |
| Charts.Clamp | charts3d.js:7 | The result is in range, and a value already in range is kept. |
| Charts.ClampEnds | charts3d.js:7 | Values below the range go to the bottom, and values above it to the top. |
| Charts.By | charts3d.js:6 | The method builds the groups keyed by `String(r[key] ?? '—')`. |
| Charts.ByPartition | charts3d.js:6 | Keys are distinct and groups are exact, non-empty and in order. The sizes add up. |
| Charts.ByMissing | charts3d.js:6 | A missing or `null` value is filed under '—'. |
| Charts.Plotted | charts3d.js:12-14 | Keeps only rows with a period, a radius and a year. |
| Charts.PlottedMembers | charts3d.js:12-14 | Keeps exactly the plottable rows. |
| Charts.PlottedInOrder | charts3d.js:12-14 | The scatter works piece by piece, so the plotted rows stay in order; one row is plotted exactly when it is plottable. |
| Charts.PlottedCount | charts3d.js:12-14 | Each plottable row is plotted as often as it occurs, and no other row is. |
| Charts.Scatter3d | charts3d.js:10-19 | Gives one point per plottable row, carrying that row's coordinates, caption and colour. |
| Charts.Zeros | charts3d.js:37 | Gives an `m` by `n` matrix of zeros. |
| Charts.Tabulate | charts3d.js:37-38 | The counting matrix keeps its shape. |
| Charts.TabulateCell | charts3d.js:38 | Each cell counts its position's increments. |
| Charts.TabulateTotal | charts3d.js:38 | The cells add up to the number of increments. |
| Charts.Running | charts3d.js:149-150 | Gives one running total per entry. |
| Charts.RunningValues | charts3d.js:149-150 | Entry `i` is the sum of the first `i+1` counts. |
| Charts.RunningIncreasing | charts3d.js:149-150 | With positive counts the totals strictly increase, and the last one is the sum. |
| Charts.Accumulate | charts3d.js:149-150 | The loop gives the years and their running totals. |
| Charts.CumulativeLine | charts3d.js:144-150 | Years come from the sorted tally, and totals are its running sums. |
| Charts.CumulativeSeries | charts3d.js:144-150 | Years strictly ascend and totals strictly increase. The last total is the number of rows with a year. |
| Charts.Labels | charts3d.js:34 | Gives one method label per row: the text of `discoverymethod || 'Other'`. |
| Charts.IndexOf | charts3d.js:36 | Gives the first position of `k`, or the length when `k` is absent. |
| Charts.Surface3d | charts3d.js:31-38 | The method gives the year axis, the method axis and the count matrix. |
| Charts.CountCells | charts3d.js:38 | The counting loop gives exactly the tabulated cells. |
| Charts.SurfaceCellsCount | charts3d.js:36-38 | Position `(a, b)` is incremented once per row with that method and year. |
| Charts.SurfaceCellsAll | charts3d.js:38 | Every row with a year increments one cell. |
| Charts.SurfaceYearsAxis | charts3d.js:33-35 | The year axis strictly ascends and holds exactly the years met. |
| Charts.SurfaceMethodsAxis | charts3d.js:33-35 | The method axis names each method once, and every row's method is on it. |
| Charts.SurfaceMethodsOrdered | charts3d.js:35 | Under a consistent collation the methods are in order. |
| Charts.SurfaceCounts | charts3d.js:37-38 | `Z[m][y]` is the number of rows with method `m` and year `y`. |
| Charts.SurfaceTotal | charts3d.js:37-38 | The surface counts every row with a year once. |
| Charts.CountAtNone | charts3d.js:38 | With no dated row of the method, every count of that method is 0. |
| Charts.SurfaceIdleMethod | charts3d.js:34-38 | A method with no dated rows has a full row of zeros. |
| Charts.HeatData | charts3d.js:160 | Keeps only rows with a year and a radius. |
| Charts.HeatDataEmpty | charts3d.js:160-161 | There is no data exactly when no row has both a year and a radius. |
| Charts.Bin | charts3d.js:171 | Radius bins: 10 and above go to bin 10, `[0, 10)` to the floor, and negatives to 0. |
| Charts.MinOf | charts3d.js:162 | Gives a least element. |
| Charts.MaxOf | charts3d.js:163 | Gives a greatest element. |
| Charts.HeatOf | charts3d.js:158-174 | Gives no heatmap exactly when there is no data. |
| Charts.HeatYearRadius | charts3d.js:158-174 | The method gives the modelled heatmap. |
| Charts.HeatGrid | charts3d.js:164-174 | The method gives the year columns `minY..maxY` and the filled matrix. |
| Charts.FillHeat | charts3d.js:167-174 | The loop gives exactly the tabulated `Z[bi][yi]++` cells. |
| Charts.HeatStep | charts3d.js:168-173 | Each row adds one `Z[bi][yi]++`, with both indexes in range. |
| Charts.CountBinYearData | charts3d.js:160 | Counting over the filtered data equals counting over all rows. |
| Charts.HeatGridCell | charts3d.js:171-173 | `Z[b][k]` counts the rows in bin `b` from year `minY + k`. |
| Charts.HeatGridTotal | charts3d.js:168-174 | Every row adds exactly one to the matrix. |
| Charts.HeatBetweenCounts | charts3d.js:164-174 | The matrix has 11 rows and one column per year. Each cell counts its bin and year, and the cells add up to the row count. |
| Charts.HeatCounts | charts3d.js:158-174 | Each cell counts the rows in its radius bin and year column; the total is the number of rows with a year and a radius. |
| Charts.HeatBetweenYears | charts3d.js:164 | The columns run from `minY` to `maxY` in steps of one year, and contain each row's year. |
| Charts.HeatYears | charts3d.js:162-164 | The columns are the consecutive years from the earliest counted year to the latest. They hold every counted year. |
| Charts.HeatSpan | charts3d.js:160-164 | Gives the counted rows and their earliest and latest year, with every counted row in between. |

## Left out

- Rendering is not modelled: Plotly, Chart.js, DOM updates, `alert`, downloads and the APOD image. `fetch`, `FileReader`, `readFile`, `XLSX`, `localStorage` and the API base settings form are left out too. The model starts from the parsed records and from the values typed in the input boxes.
- Parsing text into records (`smartParse` and `Papa.parse` with its delimiter retries) is left out. Booleans from `dynamicTyping` are also left out; a cell is `null`, a string or a number.
- `Object.keys` and `Object.entries` put integer-like keys first, in ascending order, in JavaScript. A record here keeps its insertion order. The same holds for the groups of Predict.GroupByLabel, Predict.Buckets and Charts.By: they are listed in the order their keys are first met, so labels "1" then "0" come out as "1", "0" here and as "0", "1" in JavaScript. Over the reals the F score does not depend on this order.
- Predict.GroupByLabel / Predict.Buckets / Predict.Bucketize / Charts.By: the source groups into plain `{}` objects (ai-predict.js:41, ai-predict.js:132, charts3d.js:6). A key that names an inherited `Object.prototype` member, such as `"constructor"`, `"toString"`, `"valueOf"`, `"hasOwnProperty"` or `"__proto__"`, already reads as a truthy value there, so no array is created and `.push` throws a TypeError. A row labelled `"constructor"` makes `groupByLabel` throw. A target cell `"toString"` makes `anovaF` throw, which stops `computeSignalsCategorical` and `loadCSVText` before the feature plot. A method `"constructor"` makes `by` throw. The model keeps such keys as ordinary groups, so GroupByLabelPartition, ByPartition, AnovaGuards, Predict.AnovaF and Predict.ComputeSignalsCategorical describe a result the source does not produce for these keys.
- Numbers are unbounded reals, not IEEE doubles, so rounding is not modelled. A non-finite result (NaN, ±Infinity) is an absent value.
- JsValues.ParseUnsigned: `Number(text)` is modelled for decimal literals with an optional sign and fraction. Exponents and hexadecimal, octal or binary prefixes read as absent, not as their JavaScript values.
- Dashboard.FilterRows / Dashboard.Table.ApplyFilters: the filter uses the corrected name test (see "## Findings"). As written, a non-empty name query and any row whose `pl_name` is a non-zero number make the filter throw, so `applyFilters` stops and `FILTERED`, the table and the charts keep their previous contents. The model keeps the matching rows instead.
- JsValues.NumberToString: `String(number)` writes the exact decimal expansion, with the fraction digits bounded by fuel and never in exponent form.
- KeyNames.NormalizedIsKeyName: NFKC normalisation is not modelled. Unicode letter and digit classes are limited to ASCII and the Arabic letters and digits the headers use. Case mapping is ASCII only.
- `parseFloat` and `parseInt` on the filter boxes are inputs (`JsNumber` values), not parsers.
- `localeCompare` (with the Arabic locale and numeric collation) is the `collate` parameter. Dashboard.NumericOrderConsistent proves the comparator consistent only for the numeric columns. On text columns, consistency depends on the collation.
- Charts.Surface3d / Charts.SurfaceMethodsAxis / Charts.Labels: the surface turns each method value into text before it collects and sorts the methods. The source keeps the raw values in its `Set` and sorts them with `a.localeCompare(b)`. With `dynamicTyping` a numeric method cell is a number, so two filtered rows with methods 1 and 2 make the sort throw (`localeCompare` is not a function of a number). `draw3DCharts` then catches the error: no surface is drawn and the correlation surface is skipped. The model instead returns the methods "1" and "2" and their counts. Which mixes of numbers and text throw depends on the comparisons the engine's sort makes, so that path is not modelled.
- Charts.SurfaceMethodsAxis: a method cell holding the number 1 and one holding the text "1" are one method here, as both read as "1". The source's `Set` and `Map` keep them apart as two methods (when the sort does not throw first).
- `Math.pow(·, 2/3)` and `Math.sqrt` are function parameters. Only the laws the lemmas use are stated: pow is non-negative and zero at zero, and sqrt is non-negative on non-negative input. Alone.TeqEstimate models the NaN square root of a negative ratio as an absent temperature.
- Predict.MeanBounds requires a non-empty list. `mean([])` is NaN in JavaScript and is never reached from `anovaF`.
- The other charts of `charts3d.js` (`corr` and the correlation matrix, the radius histogram, the box plot by method, parallel coordinates) are left out. So are the other panels of `ai-predict.js` (summary KPIs, scatter and box plots, feature plot), which only render.
- Charts.FillHeat requires every row to have a year and a radius inside the columns, which `heatYearRadius` guarantees before its loop.
- A `Set` or `Map` read back with sorted keys is modelled as sorting the tally entries by key. The result is the same.

## Findings

| source | as written | input that shows it | evidently intended | confidence | as-written member | corrected member |
|---|---|---|---|---|---|---|
| app.js:316 | `r.pl_name && r.pl_name.toLowerCase().includes(nameQ)` calls `toLowerCase` on whatever `pl_name` holds | a planet whose name cell parses as the number 2014, with the name query "20": `toLowerCase` is not a function, and `applyFilters` throws | match the query against the text of the name, `String(pl_name)` | not executed | Dashboard.NumericNameThrows | Dashboard.NameOkAsWrittenAgrees |
