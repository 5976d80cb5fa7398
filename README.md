# NYC taxi ride duration: the feature pipeline, the temporal split, the month list and the report plan

This project models the deterministic core of an end-to-end taxi ride duration
prediction system. The system reads NYC yellow-taxi trip records. It derives a
ride `duration` in minutes, keeps plausible trips, turns identifier columns
into categories and builds a pickup/dropoff location pair key. It then splits
the table into time-ordered training and test windows, flattens the targets,
lists the months to download, names the cached and per-month parquet files,
and plans a monitoring report.

Modules:

- `Frames` (`frames.dfy`) models a materialised polars frame. A frame is a
  schema of named, typed columns plus rows mapping every column name to a
  cell. The module gives `with_columns` of one column, `filter`,
  `select(pl.exclude(c))` and `select(c)` their cell-by-cell meaning. A read
  of a missing column fails with `ColumnNotFound`; a read of a column of the
  wrong type fails with `InvalidType`. `Keep` is the order-keeping filter
  over a sequence. It comes with its subsequence, idempotence and fusion laws.
- `Preprocessing` (`preprocessing.dfy`) models `calculate_duration`,
  `filter_by_date_range`, `filter_valid_durations`,
  `cast_categorical_columns`, `create_pickup_dropoff_pairs` and the
  `basic_preprocessing` pipe chain.
- `Training` (`training.dfy`) models `time_series_train_test_split` and
  `vectorize_target`.
- `Ingestion` (`ingestion.dfy`) models the year-month comprehension, the
  cache file path, the per-month file name and the download URL.
- `Text` (`text.dfy`) models Python's `str(i)` and the `{:0Nd}` format
  spec, each with the parser that inverts it.
- `PreprocessingFixture` (`fixture.dfy`) proves what `basic_preprocessing`
  returns on the five trips of the repository's preprocessing test fixture,
  for January 2025: the rows and the schema.
- `Options` (`options.dfy`) holds the `Option` type shared by the modules.
- `Monitoring` (`monitoring.dfy`) models the preset selection and the
  `model_path` checks of `generate_monitoring_report`.

A datetime cell is a whole number of seconds since the epoch: `dt.total_seconds()`
gives whole seconds. The duration is the seconds difference divided by 60, as
an exact real. `Preprocessing.ValidDurationSeconds` proves that the validity
filter on that real is exactly `0 < seconds <= 3600`.

Facts about the code that the model keeps:

- The date filter of the preprocessing reads the column
  `tpep_pickup_datetime` (`preprocessing.py:18-21`).
- A step that reads a missing column, or a column whose type the step cannot
  use, fails when the frame is collected (`preprocessing.py:8, 19-20, 25, 40,
  46`). The model returns an error for it.
- The pair key is built after the categorical cast (`preprocessing.py:76-77`),
  so it reads the categorised ids. `Preprocessing.PairKeyAfterCast` proves
  that the key equals the key of the raw ids.
- An identifier column is cast to text and then to a category
  (`preprocessing.py:40`). The model's category is that text.

## Model

| member | source | states |
|---|---|---|
| Frames.Lookup | e2e_taxi_ride_duration_prediction/preprocessing.py:8 | a column's type is found exactly when the schema has the name, and it is the type of that column |
| Frames.ColumnError | e2e_taxi_ride_duration_prediction/preprocessing.py:8 | reading a column fails with ColumnNotFound exactly when it is absent and with InvalidType exactly when its type is not allowed; there is no error otherwise |
| Frames.Replace | e2e_taxi_ride_duration_prediction/preprocessing.py:5-11 | the `with_columns` schema: a column of the same name is replaced where it stands, otherwise the column is appended; the names stay distinct |
| Frames.LookupReplace | e2e_taxi_ride_duration_prediction/preprocessing.py:5-11 | after `with_columns` the new column has its new type and every other column keeps its type |
| Frames.WithColumn | e2e_taxi_ride_duration_prediction/preprocessing.py:45-49 | `with_columns` of one computed column: the frame stays well formed, the row count is kept, each row gains the new cell and every other cell is unchanged |
| Frames.Keep | e2e_taxi_ride_duration_prediction/preprocessing.py:18-21 | the kept elements are exactly the input elements satisfying the predicate, and there are no more of them than inputs |
| Frames.KeepIsSubsequence | e2e_taxi_ride_duration_prediction/preprocessing.py:18-25 | a filter's output is a subsequence of its input: the kept positions increase and hold the kept rows |
| Frames.KeepIdempotent | e2e_taxi_ride_duration_prediction/preprocessing.py:18-25 | filtering twice by the same predicate is filtering once |
| Frames.KeepCongruent | e2e_taxi_ride_duration_prediction/preprocessing.py:72-78 | two predicates that agree on every element keep the same rows |
| Frames.KeepApply | e2e_taxi_ride_duration_prediction/preprocessing.py:72-78 | filtering after a row map is mapping the rows the composed predicate keeps |
| Frames.KeepKeep | e2e_taxi_ride_duration_prediction/preprocessing.py:72-78 | two filters in a row are one filter on the conjunction |
| Frames.KeepAppend | e2e_taxi_ride_duration_prediction/preprocessing.py:18-21 | a filter distributes over concatenation, so the rows keep their input order |
| Frames.KeepIsFilter | e2e_taxi_ride_duration_prediction/preprocessing.py:18-25 | a filter's output is exactly the input's subsequence at the positions whose element satisfies the predicate: every satisfying position is kept and no other |
| Frames.DatetimeWindow | e2e_taxi_ride_duration_prediction/preprocessing.py:18-21 | the window predicate holds only on rows with a datetime cell in the column, and on those exactly when `start <= t < end`; a null or missing cell is dropped |
| Frames.FilterRows | e2e_taxi_ride_duration_prediction/training.py:29-36 | polars `filter`: the schema stays, the rows are the kept rows in order, and the frame stays well formed |
| Frames.RemoveField | e2e_taxi_ride_duration_prediction/training.py:41-42 | the schema without the excluded column is the input schema filtered by name: the other fields keep their types and their order, the names stay distinct, and the names are exactly the input names minus the excluded one |
| Frames.ExcludeColumn | e2e_taxi_ride_duration_prediction/training.py:41-42 | `select(pl.exclude(c))`: the schema is the input schema without `c`, in the input order with the input types; each row loses exactly its `c` cell; the row count and order are kept |
| Frames.SelectColumn | e2e_taxi_ride_duration_prediction/training.py:38-39 | `select(c)`: the schema is the single field `c` with the input's type of `c`; each row holds exactly its `c` cell, with the row count and order kept |
| Preprocessing.DurationOf | e2e_taxi_ride_duration_prediction/preprocessing.py:4-12 | a row's duration cell is a float exactly when both timestamps are present datetimes, and then 60 times it is the seconds from pickup to dropoff; otherwise it is null |
| Preprocessing.CalculateDuration | e2e_taxi_ride_duration_prediction/preprocessing.py:4-12 | succeeds exactly when both timestamp columns are datetimes. Each error names one of them. On success the row count, row order and every other cell are kept, and `duration * 60` is `dropoff - pickup` in seconds. The cell is null exactly when either time is null |
| Preprocessing.NegativeDurationKept | e2e_taxi_ride_duration_prediction/preprocessing.py:8-10 | a duration is negative exactly when the dropoff precedes the pickup; nothing is clamped |
| Preprocessing.DurationLookup | e2e_taxi_ride_duration_prediction/preprocessing.py:5-11 | after the duration step `duration` is a float column and every other column keeps its type |
| Preprocessing.FilterByDateRange | e2e_taxi_ride_duration_prediction/preprocessing.py:15-21 | succeeds exactly when the pickup column is a datetime; otherwise raises that column's error. Keeps exactly the rows with `start <= pickup < end`, in input order, and a null pickup is dropped |
| Preprocessing.DateRangeBoundaries | e2e_taxi_ride_duration_prediction/preprocessing.py:19-20 | a pickup exactly at `start` is kept and one exactly at `end` is dropped |
| Preprocessing.FilterByDateRangeSubsequence | e2e_taxi_ride_duration_prediction/preprocessing.py:15-21 | the date filter's rows are a subsequence of its input |
| Preprocessing.FilterByDateRangeIdempotent | e2e_taxi_ride_duration_prediction/preprocessing.py:15-21 | applying the date filter twice equals applying it once |
| Preprocessing.ValidDuration | e2e_taxi_ride_duration_prediction/preprocessing.py:25 | a duration cell passes exactly when it is an int in 1..60 or a float in (0, 60]; a null or any other cell fails |
| Preprocessing.DurationFilter | e2e_taxi_ride_duration_prediction/preprocessing.py:25 | the row predicate holds exactly when the row has a `duration` cell that passes |
| Preprocessing.FilterValidDurations | e2e_taxi_ride_duration_prediction/preprocessing.py:24-25 | succeeds exactly when `duration` is an int or float column; keeps exactly the rows with `0 < duration <= 60`, in order |
| Preprocessing.ValidDurationSeconds | e2e_taxi_ride_duration_prediction/preprocessing.py:8-10 | a duration computed from whole seconds passes the filter exactly when the trip lasts 1 to 3600 seconds |
| Preprocessing.ValidDurationBoundaries | e2e_taxi_ride_duration_prediction/preprocessing.py:25 | 0 is dropped, 60 is kept, 75 and -10 are dropped, and a null is dropped |
| Preprocessing.FilterValidDurationsSubsequence | e2e_taxi_ride_duration_prediction/preprocessing.py:24-25 | the duration filter's rows are a subsequence of its input |
| Preprocessing.FilterValidDurationsIdempotent | e2e_taxi_ride_duration_prediction/preprocessing.py:24-25 | applying the duration filter twice equals applying it once |
| Preprocessing.Categorize | e2e_taxi_ride_duration_prediction/preprocessing.py:40 | an int becomes a category whose text is in canonical decimal form (no leading zero, no `-0`) and parses back to the int; a string becomes the category of the same text; categories and nulls are unchanged |
| Preprocessing.CategorizeExamples | e2e_taxi_ride_duration_prediction/preprocessing.py:40 | 100 becomes the category "100" and "N" stays "N" |
| Preprocessing.CheckColumns | e2e_taxi_ride_duration_prediction/preprocessing.py:39-41 | the cast list is accepted exactly when its names are distinct and each names a present, renderable column. Otherwise the error names a listed column and says why: absent, wrong type, or listed twice |
| Preprocessing.CastCategorical | e2e_taxi_ride_duration_prediction/preprocessing.py:28-41 | on success each listed column becomes categorical where it stands. Each listed cell is categorised. Every other column and cell, the row count and the order are unchanged. On failure the error is the cast list's error |
| Preprocessing.CastValid | e2e_taxi_ride_duration_prediction/preprocessing.py:39-41 | casting renderable columns keeps the frame well formed |
| Preprocessing.CastLookup | e2e_taxi_ride_duration_prediction/preprocessing.py:40 | every cast column is categorical afterwards |
| Preprocessing.CastAgainSucceeds | e2e_taxi_ride_duration_prediction/preprocessing.py:39-41 | after a successful cast, casting the same list again succeeds |
| Preprocessing.CastCategoricalIdempotent | e2e_taxi_ride_duration_prediction/preprocessing.py:28-41 | casting the same columns a second time returns the same frame |
| Preprocessing.DefaultCategoricalNames | e2e_taxi_ride_duration_prediction/preprocessing.py:30-37 | the six default columns are distinct and none is `duration` |
| Preprocessing.CastDefaultSucceeds | e2e_taxi_ride_duration_prediction/preprocessing.py:30-41 | the default cast succeeds after the duration step exactly when it would succeed on the input |
| Preprocessing.Rendered | e2e_taxi_ride_duration_prediction/preprocessing.py:40 | `cast(pl.Utf8)` of an int, string or category cell: an int gives its canonical decimal text, which parses back to it; a string or category gives its own text; categorising the cell gives the category of that text |
| Preprocessing.PairKey | e2e_taxi_ride_duration_prediction/preprocessing.py:46-47 | for two int, string or category ids the key is a category: the pickup's text, `_`, then the dropoff's text; for int ids both parts parse back to the ids |
| Preprocessing.PairCell | e2e_taxi_ride_duration_prediction/preprocessing.py:46-47 | a row's pair cell is the key of its two locations exactly when both are present and rendered (int, string or category); it is null otherwise, in particular when either is null |
| Preprocessing.CreatePickupDropoffPairs | e2e_taxi_ride_duration_prediction/preprocessing.py:44-49 | succeeds exactly when both location columns are present and renderable. On success each row gains the categorical key of its pickup and dropoff locations, pickup first. The key is null exactly when either location is null. Every other cell and the row count are kept |
| Preprocessing.PairKeyInjective | e2e_taxi_ride_duration_prediction/preprocessing.py:46 | two integer location pairs give the same key exactly when both locations agree |
| Preprocessing.PairKeyOrdered | e2e_taxi_ride_duration_prediction/preprocessing.py:46 | swapping two different locations gives a different key |
| Preprocessing.PairKeyAfterCast | e2e_taxi_ride_duration_prediction/preprocessing.py:76-77 | the key is the same whether the locations were categorised first or not |
| Preprocessing.PairKeyExamples | e2e_taxi_ride_duration_prediction/preprocessing.py:46 | (100, 110) gives "100_110" and categories "200", "250" give "200_250" |
| Preprocessing.DurationExamples | e2e_taxi_ride_duration_prediction/preprocessing.py:8-10 | trips lasting 15 minutes and -10 minutes get the durations 15.0 and -10.0 |
| Preprocessing.BasicPreprocessing | e2e_taxi_ride_duration_prediction/preprocessing.py:52-78 | the five steps in their fixed order. A successful result is a well-formed frame. Its schema is the input schema with `duration` a float column, the six default identifier columns categorical where they stand, and the categorical `pickup_dropoff_pair` column |
| Preprocessing.BasicPreprocessingSucceeds | e2e_taxi_ride_duration_prediction/preprocessing.py:72-78 | the pipeline succeeds exactly when both timestamps are datetime columns and the six identifier columns are present and renderable |
| Preprocessing.RawFilterAgrees | e2e_taxi_ride_duration_prediction/preprocessing.py:73-75 | on one row, the date and duration filters read after the duration map equal the filter `start <= pickup < end` and `0 < dropoff - pickup <= 3600` on the raw timestamps |
| Preprocessing.FilterFusion | e2e_taxi_ride_duration_prediction/preprocessing.py:73-75 | the two filters after the duration map keep the mapped images of exactly the raw rows passing the raw-timestamp filter |
| Preprocessing.MapFusion | e2e_taxi_ride_duration_prediction/preprocessing.py:73-77 | the duration, cast and pair row maps applied one after another are the single per-row map `PreprocessRow` |
| Preprocessing.BasicPreprocessingRows | e2e_taxi_ride_duration_prediction/preprocessing.py:72-78 | on an input with both datetime columns and the six renderable identifier columns the pipeline succeeds, and its rows are exactly the input rows with `start <= pickup < end` and `0 < dropoff - pickup <= 3600`, in input order, each mapped by `PreprocessRow` |
| PreprocessingFixture.FixtureKept | tests/preprocessing_test.py:17-54 | of the five fixture trips only the first two pass the January 2025 date range and the duration bounds |
| PreprocessingFixture.PreprocessedCells | e2e_taxi_ride_duration_prediction/preprocessing.py:72-78 | after the row maps, a row with int location ids has the pair key of its raw ids and the duration of its raw timestamps |
| PreprocessingFixture.BasicPreprocessingFixture | tests/preprocessing_test.py:133-167 | on any well-formed frame with the fixture's timestamps and ids the pipeline succeeds and keeps the first two trips in order, with durations 15.0 and 30.0 and pair keys `100_110` and `200_250`. On the fixture's ten columns the result schema is the test's expected schema |
| PreprocessingFixture.FixtureOutputSchema | tests/preprocessing_test.py:133-165 | the fixture's ten columns become the expected twelve: the identifier columns categorical where they stand, the timestamps and the float columns unchanged, then `duration` as a float and `pickup_dropoff_pair` as a categorical |
| PreprocessingFixture.FixtureRetype | tests/preprocessing_test.py:155-163 | the default cast makes exactly the six identifier columns of the fixture categorical |
| PreprocessingFixture.FixtureNames | tests/preprocessing_test.py:17-44 | the fixture's ten columns are distinct and include neither `duration` nor `pickup_dropoff_pair`, so both are appended |
| PreprocessingFixture.FixtureApplies | tests/preprocessing_test.py:17-44 | the fixture's schema passes the pipeline's column checks: both timestamps are datetimes and the six identifier columns are integers or strings |
| PreprocessingFixture.FixtureFrameApplies | tests/preprocessing_test.py:17-44 | the test's five-trip frame, with all ten columns and their values, is well formed, passes the column checks and has the timestamps and ids `BasicPreprocessingFixture` reads |
| Training.TrainEnd | e2e_taxi_ride_duration_prediction/training.py:25-27 | an omitted `train_end` is `test_start`; a given one is kept |
| Training.TimeSeriesTrainTestSplit | e2e_taxi_ride_duration_prediction/training.py:16-44 | the four frames exist exactly when the timestamp column is a datetime; otherwise all four fail with that column's error. The two feature frames are well formed and their schemas are the input schema without the target, in the input order with the input types. Each target frame exists exactly when the target column does, and fails with ColumnNotFound of the target otherwise. An existing target frame is well formed, and its schema is the single target field with its input type |
| Training.SelectTarget | e2e_taxi_ride_duration_prediction/training.py:38-39 | `select(c)` as collected: a frame when `c` exists, with only `c`, and ColumnNotFound of `c` otherwise |
| Training.MissingTargetSplit | e2e_taxi_ride_duration_prediction/training.py:29-43 | without the target column the two feature frames are exactly the window rows, and only the two target frames fail with ColumnNotFound |
| Training.DefaultTrainEnd | e2e_taxi_ride_duration_prediction/training.py:25-27 | omitting `train_end` gives the same split as passing `train_end = test_start` |
| Training.TrainRows | e2e_taxi_ride_duration_prediction/training.py:29-32 | the training features and targets share the length and order of the training window. Each feature row is the window row minus its target cell, and each target row is exactly that cell. Recombining them gives the window row |
| Training.TestRows | e2e_taxi_ride_duration_prediction/training.py:33-36 | the same for the test window `[test_start, test_end)` |
| Training.WindowMembers | e2e_taxi_ride_duration_prediction/training.py:29-36 | a window holds exactly the input rows whose timestamp lies in it, as a subsequence of the input, not re-sorted |
| Training.WindowsDisjoint | e2e_taxi_ride_duration_prediction/training.py:29-36 | with `train_end <= test_start` no row lies in both windows |
| Training.InvertedWindowEmpty | e2e_taxi_ride_duration_prediction/training.py:29-36 | an empty or inverted window yields no rows and no error |
| Training.TrainWindowExample | e2e_taxi_ride_duration_prediction/training.py:29-32 | on the five fixture pickups, the window 2024-12-31 .. 2025-01-02 takes the first three rows, in order |
| Training.TestWindowExample | e2e_taxi_ride_duration_prediction/training.py:33-36 | the window 2026-01-01 .. 2026-01-03 takes only the fourth row |
| Training.DefaultTestWindowExample | e2e_taxi_ride_duration_prediction/training.py:33-36 | the window 2025-01-02 .. 2026-01-03 takes the last two rows in input order, although the later one comes first |
| Training.RowValues | e2e_taxi_ride_duration_prediction/training.py:70 | a row's cells listed in schema order |
| Training.Ravel | e2e_taxi_ride_duration_prediction/training.py:70-71 | `to_numpy().ravel()` holds rows * columns cells |
| Training.RavelCell | e2e_taxi_ride_duration_prediction/training.py:70-71 | cell (k, i) of the frame lies inside the flat array at position k * width + i |
| Training.RavelRowMajor | e2e_taxi_ride_duration_prediction/training.py:70-71 | the flat array is row-major: cell (k, i) sits at position k * width + i |
| Training.RavelSingleColumn | e2e_taxi_ride_duration_prediction/training.py:70-71 | for a one-column target frame the flat array is that column, with the same length and order |
| Training.VectorizeTarget | e2e_taxi_ride_duration_prediction/training.py:66-73 | both flat arrays hold rows * columns cells of their frames |
| Training.VectorizeTargetExample | e2e_taxi_ride_duration_prediction/training.py:66-73 | the durations [15, 30, 45] and [75, -10] come out as flat arrays in the same order |
| Ingestion.MonthsOfYear | e2e_taxi_ride_duration_prediction/ingestion.py:33-35 | the inner loop for one year, from a month on, yields only in-range pairs of that year whose month lies between that month and 12 |
| Ingestion.YearsFrom | e2e_taxi_ride_duration_prediction/ingestion.py:30-36 | the outer loop from a year on yields only in-range pairs with a month in 1..12 and a year between that year and the end year |
| Ingestion.MonthsOfYearMembers | e2e_taxi_ride_duration_prediction/ingestion.py:33-35 | one year's inner loop yields exactly the months from the loop position on that fall in the range |
| Ingestion.YearsFromMembers | e2e_taxi_ride_duration_prediction/ingestion.py:30-36 | the outer loop from a year on yields exactly the in-range pairs of the later years |
| Ingestion.YearMonthTuples | e2e_taxi_ride_duration_prediction/ingestion.py:30-36 | the month list contains exactly the pairs `(y, m)` with `1 <= m <= 12` and `start <= (y, m) <= end` |
| Ingestion.YearMonthTuplesIncreasing | e2e_taxi_ride_duration_prediction/ingestion.py:30-36 | the month list is strictly increasing lexicographically, hence free of duplicates |
| Ingestion.YearMonthTuplesLength | e2e_taxi_ride_duration_prediction/ingestion.py:30-36 | for `start <= end` with months in 1..12 the list has `(ey - sy) * 12 + (em - sm) + 1` entries |
| Ingestion.YearMonthTuplesEmpty | e2e_taxi_ride_duration_prediction/ingestion.py:30-36 | the list is empty when `start > end` |
| Ingestion.IncreasingUnique | e2e_taxi_ride_duration_prediction/ingestion.py:30-36 | two strictly increasing lists with the same members are equal, so the members determine the month list |
| Ingestion.YearMonthTuplesCharacterized | e2e_taxi_ride_duration_prediction/ingestion.py:30-36 | any strictly increasing list of exactly the in-range pairs is the month list |
| Ingestion.YearMonthTuplesSingle | e2e_taxi_ride_duration_prediction/ingestion.py:30-36 | when `start == end` the list is that single month |
| Ingestion.AcrossYearsExample | e2e_taxi_ride_duration_prediction/ingestion.py:30-36 | (2019, 11) .. (2020, 3) gives the five months across the year boundary, in order |
| Ingestion.SingleYearExample | e2e_taxi_ride_duration_prediction/ingestion.py:30-36 | (2023, 1) .. (2023, 12) gives all twelve months of 2023 |
| Ingestion.YearMonthText | e2e_taxi_ride_duration_prediction/ingestion.py:15 | `{year:04d}-{month:02d}` of a 4-digit year and a month of at most 2 digits is 7 characters with `-` at position 4 |
| Ingestion.YearMonthTextRoundTrip | e2e_taxi_ride_duration_prediction/ingestion.py:15 | in that text the first four characters and the last two are digits that parse back to the year and the month |
| Ingestion.YearMonthTextInjective | e2e_taxi_ride_duration_prediction/ingestion.py:15 | different padded year-months get different texts |
| Ingestion.MonthFileNameInjective | e2e_taxi_ride_duration_prediction/ingestion.py:47 | different padded months get different per-month file names |
| Ingestion.CacheFileNameInjective | e2e_taxi_ride_duration_prediction/ingestion.py:15 | the cache file name determines both the start and the end month |
| Ingestion.JoinPath | e2e_taxi_ride_duration_prediction/ingestion.py:13-16 | `root / rel` of pathlib: the result ends with `rel`. Under the root `""` or `"."` it is `rel` itself; otherwise it starts with the root and a `/` stands right before `rel` |
| Ingestion.CacheFileName | e2e_taxi_ride_duration_prediction/ingestion.py:15 | the cache file name starts with `yellow_tripdata_` and ends with `.parquet`; for padded months it is 15 characters between them: the start text, `_`, and the end text |
| Ingestion.CachePath | e2e_taxi_ride_duration_prediction/ingestion.py:13-16 | the cache path is `data/raw/` followed by the cache file name, joined under the root |
| Ingestion.MonthFileName | e2e_taxi_ride_duration_prediction/ingestion.py:47 | the per-month file name starts with `yellow_tripdata_` and ends with `.parquet`; for a padded month the part between them is the month text |
| Ingestion.MonthFilePath | e2e_taxi_ride_duration_prediction/ingestion.py:45-48 | the temporary file is the per-month file name joined under the temporary directory |
| Ingestion.MonthUrl | e2e_taxi_ride_duration_prediction/ingestion.py:41-50 | `base.format(year, month)` is the download base followed by the per-month file name |
| Ingestion.MonthUrlEndsWithFileName | e2e_taxi_ride_duration_prediction/ingestion.py:41-47 | the download URL is the base followed by the per-month file name, and the temporary file is that name under the directory |
| Ingestion.CachePathUnderRoot | e2e_taxi_ride_duration_prediction/ingestion.py:13-16 | the cache path is `root/data/raw/` followed by the cache file name |
| Ingestion.CacheFileNameFrom | e2e_taxi_ride_duration_prediction/ingestion.py:15 | the cache file name is the prefix, the start text, `_`, the end text and `.parquet` |
| Ingestion.CacheFileNameExample | e2e_taxi_ride_duration_prediction/ingestion.py:15 | (2023, 1), (2023, 3) gives `yellow_tripdata_2023-01_2023-03.parquet` |
| Ingestion.CacheFileNameAcrossYearsExample | e2e_taxi_ride_duration_prediction/ingestion.py:15 | (2022, 12), (2023, 2) gives `yellow_tripdata_2022-12_2023-02.parquet` |
| Ingestion.YearMonthTextExamples | e2e_taxi_ride_duration_prediction/ingestion.py:15 | (2023, 1) gives "2023-01", (2022, 12) gives "2022-12" and the like |
| Ingestion.FormatExamples | e2e_taxi_ride_duration_prediction/ingestion.py:15 | a small year is zero-padded, a negative year puts its sign first, and wide numbers are not truncated |
| Text.Digits | e2e_taxi_ride_duration_prediction/ingestion.py:15 | the decimal digits of a number: at least one digit and no leading zero, and the text starts with `0` exactly for 0 |
| Text.DigitsOfParse | e2e_taxi_ride_duration_prediction/ingestion.py:15 | every canonical digit string is the digit text of the number it parses to, so the canonical strings are exactly the texts of the naturals |
| Text.DigitsRoundTrip | e2e_taxi_ride_duration_prediction/ingestion.py:15 | the digits parse back to the number |
| Text.Decimal | e2e_taxi_ride_duration_prediction/preprocessing.py:40 | `str(i)`: a minus sign exactly for negative numbers, then only digits, in canonical form: no leading zero and no `-0` |
| Text.DecimalRoundTrip | e2e_taxi_ride_duration_prediction/preprocessing.py:40 | `int(str(i)) == i` |
| Text.DecimalCanonical | e2e_taxi_ride_duration_prediction/preprocessing.py:40 | every canonical decimal text parses and is the `str` of the number it parses to; with `Text.DecimalRoundTrip` the texts `str` produces are exactly the canonical ones |
| Text.DecimalInjective | e2e_taxi_ride_duration_prediction/preprocessing.py:40 | different ints render differently |
| Text.FormatInt | e2e_taxi_ride_duration_prediction/ingestion.py:15 | `{i:0Nd}`: at least N characters and never empty, with a minus sign first exactly for negative numbers |
| Text.FormatIntRoundTrip | e2e_taxi_ride_duration_prediction/ingestion.py:15 | `{n:0Nd}` of a non-negative number is a digit string of max(N, digit count) characters that parses back to the number |
| Text.FormatIntNegative | e2e_taxi_ride_duration_prediction/ingestion.py:15 | for a negative number, the characters after the sign are digits that parse back to its magnitude |
| Text.FormatIntFixedWidth | e2e_taxi_ride_duration_prediction/ingestion.py:15 | a number below 10^N formatted with `{:0Nd}` takes exactly N characters |
| Text.DecimalNoUnderscore | e2e_taxi_ride_duration_prediction/preprocessing.py:46 | a rendered int contains no `_`, so the separator of the pair key is unambiguous |
| Monitoring.SelectPresets | e2e_taxi_ride_duration_prediction/monitoring.py:59-66 | a preset list exists exactly when a flag is set. It contains DataDrift exactly when `data_drift` is set and Regression exactly when `regression` is set, holds one entry per set flag, and lists DataDrift first |
| Monitoring.PresetTable | e2e_taxi_ride_duration_prediction/monitoring.py:59-66 | the four rows: both flags give [DataDrift, Regression], one flag gives its preset, no flag raises |
| Monitoring.Truthy | e2e_taxi_ride_duration_prediction/monitoring.py:74 | Python truthiness of the model path: a string is true exactly when it is non-empty, and a `Path` object is always true |
| Monitoring.PlanReport | e2e_taxi_ride_duration_prediction/monitoring.py:59-82 | refused exactly when no flag is set or `regression` is set without a model path. The flag error comes first. Otherwise the presets are the selected ones and predictions are added exactly when `regression` is set and the model path is truthy |
| Monitoring.PredictionsOnlyForRegression | e2e_taxi_ride_duration_prediction/monitoring.py:74 | predictions are only added when the Regression preset is planned |
| Monitoring.EmptyModelPathSkipsPredictions | e2e_taxi_ride_duration_prediction/monitoring.py:68-74 | with `regression` set and `model_path = ""` the report is planned with the Regression preset, yet no predictions are added |
| Monitoring.PlanReportChecked | e2e_taxi_ride_duration_prediction/monitoring.py:68-74 | with the guard testing truthiness, a regression report without a truthy model path is refused and the flag error still comes first |
| Monitoring.CheckedRegressionHasPredictions | e2e_taxi_ride_duration_prediction/monitoring.py:68-74 | with the corrected guard, a planned report adds predictions exactly when it has the Regression preset |
| Monitoring.CheckedAgreesOtherwise | e2e_taxi_ride_duration_prediction/monitoring.py:68-74 | the corrected guard decides as the original does for every input except `regression` with an empty-string model path |

## Left out

- The HTTP download, the temporary directory, the parquet scan, concatenation, sort and sink, and the existence check of the cache file (`ingestion.py:18-25, 38-87`) are I/O and library calls. The model names the files and URLs and lists the months; it does not touch a filesystem or the network.
- The logging calls (`ingestion.py:19-25`, `training.py:26`) and the progress bar are output only.
- DictVectorizer fit and transform, LinearRegression, the sklearn metrics and joblib (`training.py:47-64, 76-109`) are foreign library calls over floating point.
- The evidently `Report`/`Dataset` construction, HTML saving and the model loading of `add_predictions_to_data` (`monitoring.py:15-30, 71-102`) depend on external libraries and the filesystem. The model keeps only the decision of which presets run and whether predictions are added.
- `serving/main.py`, `mlflow_utils.py`, `scripts/*.py` and `models.py` are a web route, tracking configuration, orchestration and a typing protocol; they are not part of this model.
- Lazy and streaming evaluation and `pl.Config.set_engine_affinity` (`training.py:13`) do not change results; every frame, or the error it raises, is what collecting it would give.
- Categorical interning (`pl.Categorical`, the string cache) is not modelled; a category is its text.
- Floating point: the duration is the exact real `seconds / 60`, so the model does not capture rounding of the float division. Timestamps are whole seconds; sub-second precision is not modelled.
- Preprocessing.CastCategorical: refuses a Float or Datetime column with InvalidType, while polars would render such a column as text; float and datetime text rendering is not modelled.
- Preprocessing.CreatePickupDropoffPairs: refuses Float or Datetime location columns with InvalidType for the same reason; the location columns of the trip data are integers.
- Preprocessing.PairCell: gives null for a float or datetime location cell, where polars would join its text; no frame that CreatePickupDropoffPairs accepts holds such a cell.
- Training.VectorizeTarget: its own contract states the lengths; the contents and order are stated by Training.RavelRowMajor and Training.RavelSingleColumn.
- Preprocessing.CalculateDuration: when both timestamp columns are wrong, the model reports the dropoff column, the one read first; the contract allows either.
- Preprocessing.CheckColumns: polars does not document which error of several comes first; the model checks the cast list from the front and reports, for the first column that fails, its absence or wrong type before a repeat of it later in the list.
- Ingestion.JoinPath: handles the roots `""` and `"."` and a trailing slash on the root, as pathlib does; it does not collapse repeated slashes or drop `.` components, which pathlib does, and an absolute `rel` is not handled. Ingestion.JoinUnderRoot, Ingestion.CachePathUnderRoot and Ingestion.MonthUrlEndsWithFileName state the exact path only for a non-empty root other than `.` without a trailing slash.
- `tests/ingestion_test.py:9-168` and `tests/training_test.py:14-167` import `generate_year_month_tuples`, `get_data_path`, `download_parquet_file`, `concatenate_parquet_files`, `train_model`, `validate_model` and `save_model_and_vectorizer`, which `ingestion.py` and `training.py` do not define, and unpack three results from `dict_vectorize_features`, which returns two; the model follows the code of those modules.
- `trip_distance`, `fare_amount` and other columns are carried as opaque cells and are never inspected.

## Findings

| source | as written | input that shows it | evidently intended | confidence | as-written member | corrected member |
|---|---|---|---|---|---|---|
| e2e_taxi_ride_duration_prediction/monitoring.py:68-74 | the guard refuses only `model_path is None`, while predictions are added only when `model_path` is truthy | `regression=True`, `model_path=""` | a regression report without a usable model path is refused, so a regression report always has predictions | low, not executed | Monitoring.EmptyModelPathSkipsPredictions | Monitoring.CheckedRegressionHasPredictions |

`Monitoring.PlanReport` models the checks as written. `Monitoring.PlanReportChecked` is the corrected decision, and no other member depends on the plan. `Monitoring.CheckedAgreesOtherwise` shows that the two differ only on the empty-string input.
