/** Version one of the series builder: every data row is first converted into a
    fixed nine-field record, and the records are then grouped into one line per
    (region, percentile) pair, the region being the name of the record field a
    value came from. A value of -1 marks a missing measurement and becomes a gap
    in the line; every other value is scaled from a fraction to a percentage. */
module VersionOne {
  import opened Sequences
  import opened Series

  /** One data row: percentile code, year and the seven regional shares. */
  datatype Row = Row(
    percentile: string,
    year: int,
    africa: real,
    asia: real,
    latinAmerica: real,
    europe: real,
    middleEast: real,
    oceania: real,
    northAmerica: real)

  /** The names of the record's fields, in declaration order; the grouping loop
      uses the name of field i (i >= 2) as the region of that field's value. */
  const FieldNames: seq<string> :=
    ["Percentile", "Year", "Africa", "Asia", "LatinAmerica", "Europe", "MiddleEast", "Oceania", "NorthAmerica"]

  /** The marker a row stores for an empty field. */
  const Missing: real := -1.0

  /** The seven regional shares of a row, in field order. */
  function RegionValues(r: Row): (vs: seq<real>)
    ensures |vs| == 7
  {
    [r.africa, r.asia, r.latinAmerica, r.europe, r.middleEast, r.oceania, r.northAmerica]
  }

  /** The regional field number `i` of a row (2 is Africa, ..., 8 is North
      America). */
  function Field(r: Row, i: int): real
    requires 2 <= i < 9
  {
    RegionValues(r)[i - 2]
  }

  /** Different fields have different names. */
  lemma FieldNamesDistinct(i: int, j: int)
    requires 0 <= i < 9 && 0 <= j < 9 && i != j
    ensures FieldNames[i] != FieldNames[j]
  {
  }

  /** The value stored for one regional field of the input: the missing marker
      for an empty field, otherwise what the parser returns (0 on failure). */
  function FieldValue(parseFloat: FloatParser, text: string): real {
    if text == "" then Missing else FloatOrZero(parseFloat, text)
  }

  /** convertSliceOfStingDataIntoRowOfRegionInequalityData: column 0 is the
      percentile, column 1 the year (0 when it does not parse), and column
      2 + j the j-th region: -1 when empty, the parsed share when it parses,
      and 0 when it does not. Fewer than nine columns is an index panic. */
  function ConvertRow(rowIn: seq<string>, atoi: IntParser, parseFloat: FloatParser): (row: Row)
    requires |rowIn| >= 9
    ensures row.percentile == rowIn[0]
    ensures atoi(rowIn[1]).Some? ==> row.year == atoi(rowIn[1]).value
    ensures atoi(rowIn[1]).None? ==> row.year == 0
    ensures forall i :: 2 <= i < 9 && rowIn[i] == "" ==> Field(row, i) == Missing
    ensures forall i :: 2 <= i < 9 && rowIn[i] != "" && parseFloat(rowIn[i]).Some? ==>
      Field(row, i) == parseFloat(rowIn[i]).value
    ensures forall i :: 2 <= i < 9 && rowIn[i] != "" && parseFloat(rowIn[i]).None? ==> Field(row, i) == 0.0
  {
    Row(rowIn[0], IntOrZero(atoi, rowIn[1]),
        FieldValue(parseFloat, rowIn[2]), FieldValue(parseFloat, rowIn[3]),
        FieldValue(parseFloat, rowIn[4]), FieldValue(parseFloat, rowIn[5]),
        FieldValue(parseFloat, rowIn[6]), FieldValue(parseFloat, rowIn[7]),
        FieldValue(parseFloat, rowIn[8]))
  }

  /** Every row has at least the nine columns the conversion reads. */
  ghost predicate AllWide(lines: seq<seq<string>>) {
    forall i :: 0 <= i < |lines| ==> |lines[i]| >= 9
  }

  /** The row loop of loadCSVData over rows already split into fields, header
      excluded: one record per row, in row order. */
  method LoadCSVData(lines: seq<seq<string>>, atoi: IntParser, parseFloat: FloatParser) returns (csvData: seq<Row>)
    requires AllWide(lines)
    ensures |csvData| == |lines|
    ensures forall i :: 0 <= i < |lines| ==> csvData[i] == ConvertRow(lines[i], atoi, parseFloat)
  {
    csvData := [];
    var i := 0;
    while i < |lines|
      invariant 0 <= i <= |lines|
      invariant |csvData| == i
      invariant forall k :: 0 <= k < i ==> csvData[k] == ConvertRow(lines[k], atoi, parseFloat)
    {
      csvData := csvData + [ConvertRow(lines[i], atoi, parseFloat)];
      i := i + 1;
    }
  }

  /** Rows in non-decreasing order of year. */
  ghost predicate SortedByYear(rows: seq<Row>) {
    forall x, y :: 0 <= x < y < |rows| ==> rows[x].year <= rows[y].year
  }

  /** While `s[j]` sinks into the first i + 1 rows: those rows, leaving out
      position j, are ordered by year. */
  ghost predicate OrderedExcept(s: seq<Row>, i: int, j: int)
    requires i < |s|
  {
    forall x, y :: 0 <= x < y <= i && x != j && y != j ==> s[x].year <= s[y].year
  }

  /** The sinking row is no later than any row after it, up to i. */
  ghost predicate NoLaterThanRest(s: seq<Row>, i: int, j: int)
    requires 0 <= j <= i < |s|
  {
    forall y :: j < y <= i ==> s[j].year <= s[y].year
  }

  /** One swap of the sinking row with its earlier neighbour keeps both
      properties and the rows. */
  lemma SwapStep(s: seq<Row>, i: int, j: int)
    requires 0 < j <= i < |s| && s[j].year < s[j - 1].year
    requires OrderedExcept(s, i, j) && NoLaterThanRest(s, i, j)
    ensures OrderedExcept(s[j - 1 := s[j]][j := s[j - 1]], i, j - 1)
    ensures NoLaterThanRest(s[j - 1 := s[j]][j := s[j - 1]], i, j - 1)
    ensures multiset(s[j - 1 := s[j]][j := s[j - 1]]) == multiset(s)
    ensures s[j - 1 := s[j]][j := s[j - 1]][i + 1..] == s[i + 1..]
    ensures multiset(s[j - 1 := s[j]][j := s[j - 1]][..i + 1]) == multiset(s[..i + 1])
  {
    var t := s[j - 1 := s[j]][j := s[j - 1]];
    assert t[..i + 1] == s[..i + 1][j - 1 := s[j]][j := s[j - 1]];
  }

  /** The sinking stops at the front or behind a row no later than it; then
      the first i + 1 rows are ordered. */
  lemma SinkDone(s: seq<Row>, i: int, j: int)
    requires 0 <= j <= i < |s| && (j == 0 || s[j - 1].year <= s[j].year)
    requires OrderedExcept(s, i, j) && NoLaterThanRest(s, i, j)
    ensures forall x, y :: 0 <= x < y <= i ==> s[x].year <= s[y].year
  {
  }

  /** Moves `a[i]` left past every earlier row with a later year, so that the
      first i + 1 rows end up ordered by year; the rows are only permuted. */
  method SinkIntoPlace(a: array<Row>, i: int)
    requires 0 <= i < a.Length
    requires forall x, y :: 0 <= x < y < i ==> a[x].year <= a[y].year
    modifies a
    ensures forall x, y :: 0 <= x < y <= i ==> a[x].year <= a[y].year
    ensures multiset(a[..]) == multiset(old(a[..]))
    ensures a[i + 1..] == old(a[i + 1..])
    ensures multiset(a[..i + 1]) == multiset(old(a[..i + 1]))
  {
    var j := i;
    while 0 < j && a[j].year < a[j - 1].year
      invariant 0 <= j <= i
      invariant OrderedExcept(a[..], i, j) && NoLaterThanRest(a[..], i, j)
      invariant multiset(a[..]) == multiset(old(a[..]))
      invariant a[i + 1..] == old(a[i + 1..])
      invariant multiset(a[..i + 1]) == multiset(old(a[..i + 1]))
    {
      ghost var s := a[..];
      a[j - 1], a[j] := a[j], a[j - 1];
      assert a[..] == s[j - 1 := s[j]][j := s[j - 1]];
      SwapStep(s, i, j);
      j := j - 1;
    }
    SinkDone(a[..], i, j);
  }

  /** sortRowsOfInequalityByYear: the rows end up ordered by year and are a
      permutation of the rows before. */
  method SortRowsByYear(a: array<Row>)
    modifies a
    ensures SortedByYear(a[..])
    ensures multiset(a[..]) == multiset(old(a[..]))
  {
    var i := 0;
    while i < a.Length
      invariant 0 <= i <= a.Length
      invariant forall x, y :: 0 <= x < y < i ==> a[x].year <= a[y].year
      invariant multiset(a[..]) == multiset(old(a[..]))
    {
      SinkIntoPlace(a, i);
      i := i + 1;
    }
  }

  /** The chart point of a stored value: a gap for the missing marker, the
      value as a percentage otherwise. */
  function PointOf(v: real): (p: Option<real>)
    ensures p.None? <==> v == Missing
    ensures p.Some? ==> p.value == 100.0 * v
  {
    if v != Missing then Some(v * 100.0) else None
  }

  /** The lines built so far. */
  type Table = map<Key, seq<Option<real>>>

  /** One point appended to the line of `k`; a key met for the first time
      starts from an empty line. */
  function PointAppended(m: Table, k: Key, p: Option<real>): Table {
    m[k := Get(m, k) + [p]]
  }

  /** The field loop for one record after the fields 2 .. end-1. */
  function FieldsAdded(m: Table, r: Row, end: nat): Table
    requires 2 <= end <= 9
    decreases end
  {
    if end == 2 then m
    else PointAppended(FieldsAdded(m, r, end - 1), Key(FieldNames[end - 1], r.percentile), PointOf(Field(r, end - 1)))
  }

  /** The lines after a whole sequence of records. */
  function SeriesOf(rows: seq<Row>): Table
    decreases |rows|
  {
    if rows == [] then map[]
    else FieldsAdded(SeriesOf(rows[..|rows| - 1]), rows[|rows| - 1], 9)
  }

  /** The year of each record, in order. */
  function YearsOf(rows: seq<Row>): (ys: seq<int>)
    ensures |ys| == |rows|
    ensures forall i :: 0 <= i < |rows| ==> ys[i] == rows[i].year
  {
    if rows == [] then [] else YearsOf(rows[..|rows| - 1]) + [rows[|rows| - 1].year]
  }

  /** The percentile code of each record, in order. */
  function PercentilesOf(rows: seq<Row>): (ps: seq<string>)
    ensures |ps| == |rows|
    ensures forall i :: 0 <= i < |rows| ==> ps[i] == rows[i].percentile
  {
    if rows == [] then [] else PercentilesOf(rows[..|rows| - 1]) + [rows[|rows| - 1].percentile]
  }

  /** The number of records of percentile `p`. */
  function CountPercentile(rows: seq<Row>, p: string): nat {
    if rows == [] then 0
    else CountPercentile(rows[..|rows| - 1], p) + (if rows[|rows| - 1].percentile == p then 1 else 0)
  }

  /** Reference definition of a line, without the fold: the point of field `i`
      of each record of percentile `p`, in record order. */
  function ColumnPoints(rows: seq<Row>, p: string, i: int): (points: seq<Option<real>>)
    requires 2 <= i < 9
    ensures |points| == CountPercentile(rows, p)
  {
    if rows == [] then []
    else
      var last := rows[|rows| - 1];
      ColumnPoints(rows[..|rows| - 1], p, i) + (if last.percentile == p then [PointOf(Field(last, i))] else [])
  }

  /** The field loop creates a line exactly for each regional field name met
      so far, under the record's percentile. */
  lemma {:induction false} FieldsAddedKeys(m: Table, r: Row, end: nat, k: Key)
    requires 2 <= end <= 9
    ensures k in FieldsAdded(m, r, end) <==>
      k in m || (k.percentile == r.percentile && k.region in FieldNames[2..end])
  {
    if end > 2 {
      FieldsAddedKeys(m, r, end - 1, k);
      assert FieldNames[2..end] == FieldNames[2..end - 1] + [FieldNames[end - 1]];
    }
  }

  /** The field loop leaves alone every line none of its fields is recorded
      under. */
  lemma {:induction false} FieldsAddedMiss(m: Table, r: Row, end: nat, k: Key)
    requires 2 <= end <= 9
    requires forall c :: 2 <= c < end ==> Key(FieldNames[c], r.percentile) != k
    ensures Get(FieldsAdded(m, r, end), k) == Get(m, k)
  {
    if end > 2 {
      FieldsAddedMiss(m, r, end - 1, k);
    }
  }

  /** The field loop gives the line of field `i` under the record's
      percentile exactly one point, the point of that field. */
  lemma {:induction false} FieldsAddedHit(m: Table, r: Row, end: nat, i: int)
    requires 2 <= i < end <= 9
    ensures Get(FieldsAdded(m, r, end), Key(FieldNames[i], r.percentile))
         == Get(m, Key(FieldNames[i], r.percentile)) + [PointOf(Field(r, i))]
  {
    var k := Key(FieldNames[i], r.percentile);
    var prev := FieldsAdded(m, r, end - 1);
    var last := Key(FieldNames[end - 1], r.percentile);
    assert FieldsAdded(m, r, end) == PointAppended(prev, last, PointOf(Field(r, end - 1)));
    if end - 1 == i {
      assert Get(prev, k) == Get(m, k) by {
        forall c | 2 <= c < end - 1
          ensures Key(FieldNames[c], r.percentile) != k
        {
          FieldNamesDistinct(c, i);
        }
        FieldsAddedMiss(m, r, end - 1, k);
      }
    } else {
      assert Get(prev, k) == Get(m, k) + [PointOf(Field(r, i))] by {
        FieldsAddedHit(m, r, end - 1, i);
      }
      assert last != k by {
        FieldNamesDistinct(i, end - 1);
      }
    }
  }

  /** Every record gives each of the seven lines of its percentile exactly one
      point: after all records, the line of field `i` and percentile `p` is the
      reference column of points, one per record of percentile `p`. */
  lemma {:induction false} SeriesOfAt(rows: seq<Row>, p: string, i: int)
    requires 2 <= i < 9
    ensures Get(SeriesOf(rows), Key(FieldNames[i], p)) == ColumnPoints(rows, p, i)
    ensures |Get(SeriesOf(rows), Key(FieldNames[i], p))| == CountPercentile(rows, p)
  {
    if rows != [] {
      var init, last := rows[..|rows| - 1], rows[|rows| - 1];
      SeriesOfAt(init, p, i);
      if last.percentile == p {
        FieldsAddedHit(SeriesOf(init), last, 9, i);
      } else {
        FieldsAddedMiss(SeriesOf(init), last, 9, Key(FieldNames[i], p));
      }
    }
  }

  /** The table has a line exactly for each region field and each percentile
      that occurs in the records. */
  lemma {:induction false} SeriesOfKeys(rows: seq<Row>, k: Key)
    ensures k in SeriesOf(rows) <==> k.region in FieldNames[2..] && k.percentile in PercentilesOf(rows)
  {
    if rows != [] {
      var init, last := rows[..|rows| - 1], rows[|rows| - 1];
      assert SeriesOf(rows) == FieldsAdded(SeriesOf(init), last, 9);
      assert PercentilesOf(rows) == PercentilesOf(init) + [last.percentile];
      assert FieldNames[2..] == FieldNames[2..9];
      SeriesOfKeys(init, k);
      FieldsAddedKeys(SeriesOf(init), last, 9, k);
    }
  }

  /** Overwriting the line of `k` forgets whether it was first reset. */
  lemma OverwriteHidesReset(m: Table, reset: Table, k: Key, line: seq<Option<real>>)
    requires reset == m || reset == m[k := []]
    ensures reset[k := line] == m[k := line]
  {
  }

  /** The body of the record loop of
      convertRowsOfInequalityDataIntoMapOfRegionPercentileToLineData: every
      regional field of `r` appends its point to the line named after the field
      and the record's percentile; a key seen for the first time gets an empty
      line and joins the key list. */
  method AppendRecordFields(series0: Table, existing0: seq<Key>, r: Row) returns (series: Table, existing: seq<Key>)
    requires forall k :: Mirrored(existing0, series0, k)
    ensures series == FieldsAdded(series0, r, 9)
    ensures forall k :: Mirrored(existing, series, k)
  {
    series, existing := series0, existing0;
    var i := 2;
    while i < |FieldNames|
      invariant 2 <= i <= 9
      invariant series == FieldsAdded(series0, r, i)
      invariant forall k :: Mirrored(existing, series, k)
    {
      var rAndP := Key(FieldNames[i], r.percentile);
      ghost var prev, prevExisting := series, existing;
      if rAndP !in existing {
        assert rAndP !in series by {
          assert Mirrored(existing, series, rAndP);
        }
        series := series[rAndP := []];
        existing := existing + [rAndP];
      }
      ghost var mid := series;
      assert Get(mid, rAndP) == Get(prev, rAndP);
      var value := Field(r, i);
      ghost var line := Get(prev, rAndP) + [PointOf(value)];
      if value != -1.0 {
        series := series[rAndP := Get(series, rAndP) + [Some(value * 100.0)]];
        assert series == mid[rAndP := line];
      } else {
        series := series[rAndP := Get(series, rAndP) + [None]];
        assert series == mid[rAndP := line];
      }
      OverwriteHidesReset(prev, mid, rAndP, line);
      forall k
        ensures Mirrored(existing, series, k)
      {
        assert Mirrored(prevExisting, prev, k);
      }
      i := i + 1;
    }
  }

  /** convertRowsOfInequalityDataIntoMapOfRegionPercentileToLineData: the year
      axis is the records' years without repeats, in first-seen order, and the
      table is the one the fold over the records defines. */
  method ConvertRowsToSeries(ineqRows: seq<Row>) returns (series: Table, years: seq<int>)
    ensures series == SeriesOf(ineqRows)
    ensures years == Dedup(YearsOf(ineqRows))
  {
    series := map[];
    years := [];
    var existing: seq<Key> := [];
    var n := 0;
    while n < |ineqRows|
      invariant 0 <= n <= |ineqRows|
      invariant series == SeriesOf(ineqRows[..n])
      invariant years == Dedup(YearsOf(ineqRows[..n]))
      invariant forall k :: Mirrored(existing, series, k)
    {
      var r := ineqRows[n];
      assert ineqRows[..n + 1][..n] == ineqRows[..n];
      assert YearsOf(ineqRows[..n + 1]) == YearsOf(ineqRows[..n]) + [r.year];
      if r.year !in years {
        years := years + [r.year];
      }
      series, existing := AppendRecordFields(series, existing, r);
      n := n + 1;
    }
    assert ineqRows[..n] == ineqRows;
  }

  /** The display name of a line, with the fixed percentile labels: the
      region, a space and the label of a known code; the region and a space
      alone for a code missing from the table. */
  function LineName(k: Key): (name: string)
    ensures k.percentile in PercentileLabels ==> name == k.region + " " + PercentileLabels[k.percentile]
    ensures k.percentile !in PercentileLabels ==> name == k.region + " "
  {
    SeriesName(k, PercentileLabels)
  }

  /** The axis in first-seen order is sorted only when the records come sorted:
      two records whose years go down give an axis that goes down. */
  lemma FirstSeenAxisFollowsInput(r1: Row, r2: Row)
    requires r2.year < r1.year
    ensures Dedup(YearsOf([r1, r2])) == [r1.year, r2.year]
  {
    assert YearsOf([r1, r2]) == [r1.year, r2.year];
    assert [r1.year, r2.year][..1] == [r1.year];
  }

  /** Removing repeats from a non-decreasing sequence gives a strictly
      increasing one. */
  lemma {:induction false} DedupOfSortedIsIncreasing(s: seq<int>)
    requires forall x, y :: 0 <= x < y < |s| ==> s[x] <= s[y]
    ensures forall x, y :: 0 <= x < y < |Dedup(s)| ==> Dedup(s)[x] < Dedup(s)[y]
  {
    if s != [] {
      var init, last := s[..|s| - 1], s[|s| - 1];
      DedupOfSortedIsIncreasing(init);
      var d := Dedup(init);
      if last !in init {
        forall x | 0 <= x < |d|
          ensures d[x] < last
        {
          assert d[x] in init;
        }
      }
    }
  }

  /** Sorted records give a strictly increasing year axis. */
  lemma SortedRowsGiveIncreasingAxis(rows: seq<Row>)
    requires SortedByYear(rows)
    ensures forall x, y :: 0 <= x < y < |Dedup(YearsOf(rows))| ==> Dedup(YearsOf(rows))[x] < Dedup(YearsOf(rows))[y]
  {
    DedupOfSortedIsIncreasing(YearsOf(rows));
  }

  /** displayInequalityDataChart as written: the records are grouped in file
      order, so the year axis follows the order of the rows in the file. */
  method DisplayInequalityData(lines: seq<seq<string>>, atoi: IntParser, parseFloat: FloatParser)
    returns (series: Table, years: seq<int>, rows: seq<Row>)
    requires AllWide(lines)
    ensures |rows| == |lines| && forall i :: 0 <= i < |lines| ==> rows[i] == ConvertRow(lines[i], atoi, parseFloat)
    ensures series == SeriesOf(rows) && years == Dedup(YearsOf(rows))
  {
    rows := LoadCSVData(lines, atoi, parseFloat);
    series, years := ConvertRowsToSeries(rows);
  }

  /** displayInequalityDataChart with the records sorted by year before they are
      grouped, as the grouping function assumes: the year axis is strictly
      increasing and holds exactly the years of the rows. */
  method DisplayInequalityDataSorted(lines: seq<seq<string>>, atoi: IntParser, parseFloat: FloatParser)
    returns (series: Table, years: seq<int>, rows: seq<Row>)
    requires AllWide(lines)
    ensures |rows| == |lines| && SortedByYear(rows)
    ensures multiset(rows) == multiset(seq(|lines|, i requires 0 <= i < |lines| => ConvertRow(lines[i], atoi, parseFloat)))
    ensures series == SeriesOf(rows) && years == Dedup(YearsOf(rows))
    ensures forall x, y :: 0 <= x < y < |years| ==> years[x] < years[y]
  {
    var loaded := LoadCSVData(lines, atoi, parseFloat);
    assert loaded == seq(|lines|, i requires 0 <= i < |lines| => ConvertRow(lines[i], atoi, parseFloat));
    var a := new Row[|loaded|](i requires 0 <= i < |loaded| => loaded[i]);
    assert a[..] == loaded;
    SortRowsByYear(a);
    rows := a[..];
    assert |rows| == |loaded| by {
      assert |multiset(rows)| == |multiset(loaded)|;
    }
    series, years := ConvertRowsToSeries(rows);
    SortedRowsGiveIncreasingAxis(rows);
  }
}
