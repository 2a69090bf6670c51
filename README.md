# Regional inequality time series, modelled in Dafny

The Go program reads a semicolon-separated file of income shares by world
region. Each row holds a percentile code, a year and seven regional shares,
which are fractions of national income. It turns the rows into one
chart line per (region, percentile) pair over a common year axis. A line is
named "<region> <label>", where the label is the friendly name of the
percentile code ("p90p100" is "Top 10%").

The repository has two versions of the series builder, and both are modelled.

- **Version two** (`InequalityTimeSeries`, `time_series.dfy`) is an accumulator
  class, `TimeSeriesData`.
  - It holds a column-to-region map and a percentile-label map.
  - It also holds three fields that rows are folded into: the year axis, the
    list of keys seen so far, and a table from key to integer points.
  - The class keeps its fields and updates them in place. The constructor
    starts from the empty state, and the two setters replace a map and leave
    the state alone. Every other method is proved to perform exactly one
    transition of a pure specification on `State`: `PointAdded`, `YearAdded`,
    `FieldAdded`, `ColumnsAdded`, `RowAdded` or `RowsAdded`.
  - Lemmas about those functions state what the fold means:
    - the invariant it keeps;
    - one point per column;
    - a gap for an empty field;
    - other keys untouched;
    - an agreement with an independent column-wise reference definition.
  - `countDigitsInInt` is a loop method proved against a power-of-ten bracket.
- **Version one** (`VersionOne`, `version_one.dfy`) converts every row into a
  fixed nine-field record.
  - An empty field becomes the marker -1.
  - The records are then grouped into lines named after the record's field
    names. The marker -1 becomes a gap and every other value is scaled to a
    percentage.
  - The in-place sort by year is an array method proved sorted and a
    permutation.
  - The grouping loop is proved equal to a fold (`SeriesOf`).
  - The fold's lines are proved equal to a per-column reference
    (`ColumnPoints`).
- **Shared parts**:
  - `Sequences` (`sequences.dfy`): the "append unless present" step and
    first-seen deduplication.
  - `Series` (`series.dfy`): keys, gaps, the abstract number parsers and line
    names.

Parsing is a parameter, so the model does not depend on a particular parser.
`strconv.Atoi` and `strconv.ParseFloat` are functions returning `None` on
error. As in the Go code, an error is only logged and the value the parser
returns with it is used; after a syntax error that is 0 (`IntOrZero`,
`FloatOrZero`). After a range error Go returns another value, which is not
modelled (see "Left out"). Reading the file, and
splitting it into rows and fields, is not modelled. The models start from the
data rows as sequences of fields, with the header row already skipped.

## Model

| member | source | states |
|---|---|---|
| Sequences.AppendIfAbsent | Go/version_two/inequalityTimeSeries/inequalityTimeSeries.go:52-56 | afterwards the element is present; a list that had it is unchanged, otherwise it is appended at the end; membership is the old members plus it; a duplicate-free list stays duplicate-free |
| Sequences.Dedup | Go/version_one/main.go:182-185 | the year axis built by the record loop is duplicate-free, holds exactly the years met, and is no longer than the input |
| Sequences.DedupKeepsFirstSeenOrder | Go/version_one/main.go:182-185 | the axis lists years in the order of their first occurrence in the input |
| Series.SeriesName | Go/version_two/inequalityTimeSeries/inequalityTimeSeries.go:137 | for any label map, a line's name is its region, then one space, then the label of its percentile (empty for an unknown code); the parts are stated separately: region prefix, the space, and the exact label text after it |
| Series.TopTenPercentName | Go/version_two/main.go:32-38 | the percentile code "p90p100" is shown as "<region> Top 10%" |
| Series.UnknownPercentileName | Go/version_one/main.go:224 | a percentile code missing from the label map is not an error: the line is named "<region> " |
| Series.SeriesNameDeterminesLabel | Go/version_one/main.go:224 | two equal names with equally long regions have the same region and the same label |
| Series.KnownPercentilesHaveDistinctNames | Go/version_one/main.go:211-215 | within a region, the three known percentile codes give three different line names |
| Series.UnknownPercentilesShareName | Go/version_one/main.go:224 | two unknown percentile codes of one region give the same line name, so their lines cannot be told apart in the legend |
| InequalityTimeSeries.RegionColumnsDistinct | Go/version_two/main.go:21-31 | the seven region columns 2..8 are all mapped, to pairwise different region names |
| InequalityTimeSeries.EmptyIsConsistent | Go/version_two/main.go:16-20 | the accumulator as the handler creates it (empty axis, key list and table) satisfies the invariant |
| InequalityTimeSeries.TruncateToInt | Go/version_two/inequalityTimeSeries/inequalityTimeSeries.go:114 | `int(valInCol*100)` drops the fraction toward zero: the result is within one of the value, on the side of zero |
| InequalityTimeSeries.PointAddedEffect | Go/version_two/inequalityTimeSeries/inequalityTimeSeries.go:39-50 | addDataPoint keeps the invariant; a new key joins the key list once, at the end; the year axis is untouched; exactly one point is added in total |
| InequalityTimeSeries.PointAddedAt | Go/version_two/inequalityTimeSeries/inequalityTimeSeries.go:39-50 | addDataPoint never resets an existing line: the key's line grows by one point (nil when setToNil, the value otherwise) and every other line is unchanged |
| InequalityTimeSeries.YearAddedEffect | Go/version_two/inequalityTimeSeries/inequalityTimeSeries.go:52-56 | appendIfNotInYearsList: the year is on the axis afterwards; an axis that had it is unchanged, otherwise the year is appended; keys and table untouched; invariant kept |
| InequalityTimeSeries.FieldPoint | Go/version_two/inequalityTimeSeries/inequalityTimeSeries.go:96-117 | a field gives a gap if and only if it is empty; a parsed share gives its value times 100 truncated; unparseable text gives 0 |
| InequalityTimeSeries.FieldAddedEffect | Go/version_two/inequalityTimeSeries/inequalityTimeSeries.go:96-117 | recording one field keeps the invariant, leaves the axis alone and adds one point |
| InequalityTimeSeries.FieldAddedAt | Go/version_two/inequalityTimeSeries/inequalityTimeSeries.go:96-117 | recording one field appends its point to the line of its column's region and the row's percentile, and to no other line |
| InequalityTimeSeries.ColumnsAddedSnoc | Go/version_two/inequalityTimeSeries/inequalityTimeSeries.go:95 | proof helper: the column loop over one more column is one more field step |
| InequalityTimeSeries.ColumnsAddedConsistent | Go/version_two/inequalityTimeSeries/inequalityTimeSeries.go:95-118 | the column loop keeps the invariant, leaves the axis alone and adds one point per column after the year |
| InequalityTimeSeries.ColumnsAddedTracked | Go/version_two/inequalityTimeSeries/inequalityTimeSeries.go:95-118 | the column loop keeps the key list and the table in agreement about every key |
| InequalityTimeSeries.ColumnsAddedStep | Go/version_two/inequalityTimeSeries/inequalityTimeSeries.go:95-118 | one more column adds exactly that column's contribution to a key's line |
| InequalityTimeSeries.ColumnsAddedAt | Go/version_two/inequalityTimeSeries/inequalityTimeSeries.go:95-118 | the column loop appends to each key's line exactly the points of the columns that map to that key, in column order (reference `PointsFor`) |
| InequalityTimeSeries.RowAddedConsistent | Go/version_two/inequalityTimeSeries/inequalityTimeSeries.go:84-119 | a row keeps the invariant, appends its year to the axis if absent (0 for an unparseable year), and adds one point per field after the year |
| InequalityTimeSeries.RowAddedAt | Go/version_two/inequalityTimeSeries/inequalityTimeSeries.go:84-119 | a row appends to each key's line exactly the points of the row's columns that map to it |
| InequalityTimeSeries.PointsForNoMatch | Go/version_two/inequalityTimeSeries/inequalityTimeSeries.go:95-118 | columns none of which map to a key contribute nothing to its line |
| InequalityTimeSeries.PointsForSingleMatch | Go/version_two/inequalityTimeSeries/inequalityTimeSeries.go:95-118 | when exactly one column maps to a key, the row contributes exactly that column's point |
| InequalityTimeSeries.OtherPercentilesUntouched | Go/version_two/inequalityTimeSeries/inequalityTimeSeries.go:98-113 | a row never changes the line of a key of another percentile |
| InequalityTimeSeries.StandardRowOnePointPerRegion | Go/version_two/inequalityTimeSeries/inequalityTimeSeries.go:95-118 | with the handler's column map and a nine-field row, each region's line of the row's percentile grows by exactly its field's point: a gap for an empty field, never a numeric 0 |
| InequalityTimeSeries.RowsAddedSnoc | Go/version_two/inequalityTimeSeries/inequalityTimeSeries.go:71-81 | proof helper: the row loop over one more row is one more row step |
| InequalityTimeSeries.YearsOfLines | Go/version_two/inequalityTimeSeries/inequalityTimeSeries.go:85 | one year per row, in row order: element i is row i's column 1 as parsed, or 0 when it does not parse |
| InequalityTimeSeries.LoadedFromEmpty | Go/version_two/inequalityTimeSeries/inequalityTimeSeries.go:58-82 | folding rows into a fresh accumulator gives a consistent state whose axis is the rows' years without repeats in first-seen order, holding one point per field after the year columns |
| InequalityTimeSeries.ColumnOfLines | Go/version_two/inequalityTimeSeries/inequalityTimeSeries.go:95-118 | reference line: one point per row of the percentile |
| InequalityTimeSeries.LoadedSeries | Go/version_two/inequalityTimeSeries/inequalityTimeSeries.go:58-119 | with the handler's column map, the line of each region and percentile is exactly that region's column over the rows of that percentile, in row order (the reference `ColumnOfLines`) |
| InequalityTimeSeries.TwoRowExample | Go/version_two/inequalityTimeSeries/inequalityTimeSeries.go:84-119 | two rows of one percentile, years y1 then y2, a share then an empty field in the Africa column: axis [y1, y2], Africa line [share*100 truncated, gap] |
| InequalityTimeSeries.TimeSeriesData.constructor | Go/version_two/main.go:16-20 | an accumulator with empty axis, key list, table and maps |
| InequalityTimeSeries.TimeSeriesData.SetCSVFileColumnToRegionNameMap | Go/version_two/inequalityTimeSeries/inequalityTimeSeries.go:28-30 | replaces the column-to-region map; nothing else changes |
| InequalityTimeSeries.TimeSeriesData.SetColumnRenamingMap | Go/version_two/inequalityTimeSeries/inequalityTimeSeries.go:32-34 | replaces the percentile-label map; nothing else changes |
| InequalityTimeSeries.TimeSeriesData.AddDataPoint | Go/version_two/inequalityTimeSeries/inequalityTimeSeries.go:39-50 | in place, performs exactly the `PointAdded` transition (see PointAddedEffect, PointAddedAt); the maps are unchanged |
| InequalityTimeSeries.TimeSeriesData.AppendIfNotInYearsList | Go/version_two/inequalityTimeSeries/inequalityTimeSeries.go:52-56 | in place, performs exactly the `YearAdded` transition (see YearAddedEffect) |
| InequalityTimeSeries.TimeSeriesData.UpdateYearsAndRegionAndPercentileDataWithNewRow | Go/version_two/inequalityTimeSeries/inequalityTimeSeries.go:84-119 | in place, performs exactly the `RowAdded` transition with the object's own column map; a row needs its year column |
| InequalityTimeSeries.TimeSeriesData.RecordFields | Go/version_two/inequalityTimeSeries/inequalityTimeSeries.go:95-118 | the column loop, in place: exactly the `ColumnsAdded` transition over all columns after the year |
| InequalityTimeSeries.TimeSeriesData.RecordField | Go/version_two/inequalityTimeSeries/inequalityTimeSeries.go:96-117 | the column loop's body, in place: exactly the `FieldAdded` transition |
| InequalityTimeSeries.TimeSeriesData.LoadRows | Go/version_two/inequalityTimeSeries/inequalityTimeSeries.go:71-81 | the row loop, in place: exactly the `RowsAdded` fold over the rows |
| InequalityTimeSeries.BuildInequalityData | Go/version_two/main.go:15-39 | the handler's accumulator is fresh, carries the fixed region columns and labels, and its state is the fold of all rows from empty |
| InequalityTimeSeries.Pow10 | Go/version_two/inequalityTimeSeries/inequalityTimeSeries.go:121-128 | proof helper: powers of ten used to state digit counts are at least 1 |
| InequalityTimeSeries.Pow10Monotone | Go/version_two/inequalityTimeSeries/inequalityTimeSeries.go:121-128 | a larger power of ten is at least ten times a smaller one |
| InequalityTimeSeries.DigitCountUnique | Go/version_two/inequalityTimeSeries/inequalityTimeSeries.go:121-128 | a positive number has exactly one digit count d with 10^(d-1) <= n < 10^d |
| InequalityTimeSeries.DropDigit | Go/version_two/inequalityTimeSeries/inequalityTimeSeries.go:123-126 | proof helper: one loop step (`intIn /= 10`) keeps the number bracketed between consecutive multiples of the next power of ten |
| InequalityTimeSeries.CountDigitsInInt | Go/version_two/inequalityTimeSeries/inequalityTimeSeries.go:121-128 | 0 for zero and every negative number; for a positive number, the d with 10^(d-1) <= n < 10^d |
| VersionOne.FieldNamesDistinct | Go/version_one/main.go:19-29 | the nine record fields have pairwise different names, so each region gets its own line |
| VersionOne.ConvertRow | Go/version_one/main.go:86-161 | column 0 is the percentile; the year is the parsed column 1, or 0; each regional field is -1 when empty, the parsed share when it parses, and 0 when it does not; fewer than nine columns is excluded (an index panic) |
| VersionOne.LoadCSVData | Go/version_one/main.go:65-75 | one record per data row, in row order, each the conversion of its row |
| VersionOne.SwapStep | Go/version_one/main.go:164-168 | proof helper: one swap of the sinking record keeps the partial order and the records, within the first i+1 positions and overall, and leaves the records after i alone |
| VersionOne.SinkDone | Go/version_one/main.go:164-168 | proof helper: when the sinking stops, the prefix is ordered by year |
| VersionOne.SinkIntoPlace | Go/version_one/main.go:164-168 | the next record is inserted into the ordered prefix: the first i+1 records end up ordered by year and are a permutation of the first i+1 records before; the records after i are unchanged |
| VersionOne.SortRowsByYear | Go/version_one/main.go:164-168 | in place, the records end up ordered by year and are a permutation of the records before |
| VersionOne.PointOf | Go/version_one/main.go:199-203 | a value gives a gap if and only if it is -1; otherwise the value times 100 |
| VersionOne.YearsOf | Go/version_one/main.go:182-185 | the year of each record, in order |
| VersionOne.PercentilesOf | Go/version_one/main.go:193 | the percentile of each record, in order |
| VersionOne.ColumnPoints | Go/version_one/main.go:189-204 | reference line: one point per record of the percentile |
| VersionOne.FieldsAddedKeys | Go/version_one/main.go:189-197 | the field loop creates a line exactly for each regional field name met, under the record's percentile |
| VersionOne.FieldsAddedMiss | Go/version_one/main.go:189-204 | the field loop leaves every other line unchanged |
| VersionOne.FieldsAddedHit | Go/version_one/main.go:189-204 | the field loop appends exactly one point, that field's, to the line of each regional field under the record's percentile |
| VersionOne.SeriesOfAt | Go/version_one/main.go:177-209 | after all records, the line of field i and percentile p is the reference column of points, one per record of percentile p |
| VersionOne.SeriesOfKeys | Go/version_one/main.go:177-209 | the table has a line exactly for each regional field name and each percentile occurring in the records |
| VersionOne.OverwriteHidesReset | Go/version_one/main.go:194-203 | proof helper: resetting a new key's line to empty does not matter once the line is overwritten |
| VersionOne.AppendRecordFields | Go/version_one/main.go:188-205 | the field loop for one record performs exactly the `FieldsAdded` step and keeps the key list and the table in agreement |
| VersionOne.ConvertRowsToSeries | Go/version_one/main.go:177-209 | the table is the fold `SeriesOf` of the records, and the year axis is the records' years without repeats in first-seen order |
| VersionOne.LineName | Go/version_one/main.go:211-215 | a known code is named "<region> <label>"; an unknown code "<region> " |
| VersionOne.FirstSeenAxisFollowsInput | Go/version_one/main.go:170-185 | as written: two records whose years go down give an axis that goes down |
| VersionOne.DedupOfSortedIsIncreasing | Go/version_one/main.go:182-185 | removing repeats from a non-decreasing year list gives a strictly increasing axis |
| VersionOne.SortedRowsGiveIncreasingAxis | Go/version_one/main.go:170-185 | records sorted by year, as the grouping function assumes, give a strictly increasing year axis |
| VersionOne.DisplayInequalityData | Go/version_one/main.go:41-46 | as written: records in file order, each the conversion of its row; table and axis are those of the grouping |
| VersionOne.DisplayInequalityDataSorted | Go/version_one/main.go:41-46 | corrected: the records are the converted rows sorted by year (a permutation), and the year axis is strictly increasing |

## Left out

- File handling is not modelled. That covers opening the file, the deferred
  close, the csv reader with `;` as separator, skipping the header row, and
  logging. The model starts from rows already split into fields.
- A file that cannot be opened makes the request handler panic in both
  versions. The error is only logged, and reading from the nil file then
  fails with an error that is not end-of-file. That error is logged too, and
  a record holding one empty field, returned with it, is converted.
  Converting it fails on an index: Go/version_one/main.go:91, or
  Go/version_two/inequalityTimeSeries/inequalityTimeSeries.go:85. A row that
  is too short, for example after a read error, panics the same way. The
  models exclude these rows by their preconditions: `VersionOne.AllWide`
  (nine fields) and `InequalityTimeSeries.AllHaveYear` (two fields).
- The HTTP server, `main`, and `os.Args` are not modelled.
- Chart rendering (go-echarts) is left out. That covers the title, axis and
  legend options and the rendered page. Of the chart code only the series name
  (Go/version_two/inequalityTimeSeries/inequalityTimeSeries.go:137,
  Go/version_one/main.go:224) and the use of the year list as the x axis are
  kept. The order in which a Go map is iterated, which is the order of the
  series in the chart, is unspecified in Go and not modelled.
- Floating point is not modelled. Shares are exact reals, and a parser is an
  abstract function, so float64 and float32 rounding are not captured.
  - Examples: `ParseFloat(s, 32)` in version one, and `0.29*100` truncating
    to 28 in version two.
  - Range errors are also not captured. `ParseFloat` then returns ±Inf, and
    `strconv.Atoi` returns the largest or smallest 64-bit integer, where
    `IntOrZero` gives 0.
- InequalityTimeSeries.CountDigitsInInt: integers are unbounded, and Go's
  64-bit `int` is not modelled. The loop never overflows, so no result within
  the int64 range differs.
- VersionOne.SortRowsByYear: `sort.Slice` is an unstable pattern-defeating
  quicksort. The model is an insertion sort proved against the same contract:
  sorted by year, and a permutation. The order among records of equal year is
  not specified, by Go or by the model.
- Version one reads its fields by reflection. The model uses the fixed field
  names of the record type (`FieldNames`) and a field accessor (`Field`)
  instead.
- The comment at Go/version_one/main.go:83-84 says an unparseable share
  becomes -1. The code stores what `ParseFloat` returns, which is 0 after a
  syntax error. The model follows the code.
- A year that does not parse is 0 in both versions. In version two it joins
  the year axis as 0 like any other year, and it is not skipped. The model
  follows the code.
- A share that parses to exactly -1 is indistinguishable from an empty field
  in version one and becomes a gap. The model reproduces this.
- Some Go loops are split into helper methods. This changes only the layout,
  not the behaviour.
  - `RecordFields` and `RecordField` are the column loop of
    updateYearsAndRegionAndPercentileDataWithNewRow and its body.
  - `LoadRows` is the row loop of LoadCSVDataIntoInequalityTimeSeries.
  - `AppendRecordFields` is the field loop of version one's grouping function.
- The Go setter `SetColumnRenamingmap` is named
  `TimeSeriesData.SetColumnRenamingMap` in the model.

## Findings

| source | as written | input that shows it | evidently intended | confidence | as-written member | corrected member |
|---|---|---|---|---|---|---|
| Go/version_one/main.go:41-46 | the handler groups the records in file order. `sortRowsOfInequalityByYear` (main.go:164-168) is never called, although the grouping function says it assumes records sorted by year (main.go:172) | two data rows with years 2001 then 2000 give the year axis [2001, 2000], which goes down | sort the records by year before grouping, so the axis is strictly increasing | not executed; medium (it follows from the code and its comment, not from a run) | VersionOne.DisplayInequalityData, VersionOne.FirstSeenAxisFollowsInput | VersionOne.DisplayInequalityDataSorted |
