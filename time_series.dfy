/** Version two of the series builder: a `TimeSeriesData` accumulator that folds
    semicolon-separated rows, one at a time, into a first-seen year axis, the list
    of (region, percentile) keys met so far and a table from each key to its
    integer points.

    The abstract value of the accumulator is a `State`; the pure functions below
    say what each operation does to it, the lemmas say what that means (the
    invariant kept, one point per column, nil for an empty field, other keys
    untouched), and the class methods are proved to perform exactly those
    transitions in place. */
module InequalityTimeSeries {
  import opened Sequences
  import opened Series

  /** The region names, in column order. */
  const RegionNames: seq<string> :=
    ["Africa", "Asia", "Latin America", "Europe", "MiddleEast", "Oceania", "North America"]

  /** Column index of each region in a data row (columns 0 and 1 are the
      percentile code and the year): column 2 is Africa, ..., column 8 is
      North America. */
  const RegionColumns: map<int, string> := map c | 2 <= c <= 8 :: RegionNames[c - 2]

  /** No two region columns share a region name. */
  lemma RegionColumnsDistinct(c1: int, c2: int)
    requires 2 <= c1 <= 8 && 2 <= c2 <= 8 && c1 != c2
    ensures c1 in RegionColumns && c2 in RegionColumns && RegionColumns[c1] != RegionColumns[c2]
  {
    assert RegionColumns[c1] == RegionNames[c1 - 2];
  }

  /** The three fields the rows are folded into. */
  datatype State = State(years: seq<int>, existing: seq<Key>, series: map<Key, seq<Option<int>>>)

  /** The accumulator before any row is read. */
  const Empty: State := State([], [], map[])

  /** The key list and the table of `s` agree about `k`. */
  ghost predicate Tracked(s: State, k: Key) {
    Mirrored(s.existing, s.series, k)
  }

  /** The invariant the fold keeps: the year axis and the key list are
      duplicate-free, and the key list names exactly the keys of the table. */
  ghost predicate Consistent(s: State) {
    NoDups(s.years) && NoDups(s.existing) && (forall k :: Tracked(s, k))
  }

  lemma EmptyIsConsistent()
    ensures Consistent(Empty) && Empty.years == [] && Empty.series == map[]
  {
  }

  /** The number of points held under the keys of `keys`. */
  function Total(keys: seq<Key>, series: map<Key, seq<Option<int>>>): nat {
    if keys == [] then 0 else Total(keys[..|keys| - 1], series) + |Get(series, keys[|keys| - 1])|
  }

  /** The number of points held by the accumulator. */
  function TotalPoints(s: State): nat {
    Total(s.existing, s.series)
  }

  /** Conversion of a float to an int: the fraction is dropped, toward zero. */
  function TruncateToInt(x: real): (n: int)
    ensures 0.0 <= x ==> 0 <= n && n as real <= x < n as real + 1.0
    ensures x < 0.0 ==> n <= 0 && n as real - 1.0 < x <= n as real
  {
    if x >= 0.0 then x.Floor else -((-x).Floor)
  }

  /** addDataPoint: a key met for the first time gets an empty series and joins
      the key list; then one point is appended to its series, nil when `setToNil`
      and `value` otherwise. */
  function PointAdded(s: State, rAndP: Key, value: int, setToNil: bool): State {
    var s1 := if rAndP in s.existing then s
              else State(s.years, s.existing + [rAndP], s.series[rAndP := []]);
    var point := if setToNil then None else Some(value);
    State(s1.years, s1.existing, s1.series[rAndP := Get(s1.series, rAndP) + [point]])
  }

  lemma {:induction false} TotalOffKey(keys: seq<Key>, series: map<Key, seq<Option<int>>>, k: Key, v: seq<Option<int>>)
    requires k !in keys
    ensures Total(keys, series[k := v]) == Total(keys, series)
  {
    if keys != [] {
      TotalOffKey(keys[..|keys| - 1], series, k, v);
    }
  }

  lemma {:induction false} TotalAtKey(keys: seq<Key>, series: map<Key, seq<Option<int>>>, k: Key, v: seq<Option<int>>)
    requires NoDups(keys) && k in keys
    ensures Total(keys, series[k := v]) + |Get(series, k)| == Total(keys, series) + |v|
  {
    var n := |keys|;
    var init := keys[..n - 1];
    if keys[n - 1] == k {
      assert k !in init;
      TotalOffKey(init, series, k, v);
    } else {
      assert keys == init + [keys[n - 1]];
      assert k in init;
      TotalAtKey(init, series, k, v);
    }
  }

  /** addDataPoint keeps the invariant; the key joins the key list at most
      once, the year axis is untouched and the accumulator holds one point
      more. */
  lemma PointAddedEffect(s: State, rAndP: Key, value: int, setToNil: bool)
    requires Consistent(s)
    ensures Consistent(PointAdded(s, rAndP, value, setToNil))
    ensures PointAdded(s, rAndP, value, setToNil).years == s.years
    ensures rAndP in s.existing ==> PointAdded(s, rAndP, value, setToNil).existing == s.existing
    ensures rAndP !in s.existing ==> PointAdded(s, rAndP, value, setToNil).existing == s.existing + [rAndP]
    ensures TotalPoints(PointAdded(s, rAndP, value, setToNil)) == TotalPoints(s) + 1
  {
    var r := PointAdded(s, rAndP, value, setToNil);
    var point := if setToNil then None else Some(value);
    forall k ensures Tracked(r, k) {
      assert Tracked(s, k);
    }
    if rAndP in s.existing {
      assert rAndP in s.series by { assert Tracked(s, rAndP); }
      TotalAtKey(s.existing, s.series, rAndP, Get(s.series, rAndP) + [point]);
    } else {
      var s1 := State(s.years, s.existing + [rAndP], s.series[rAndP := []]);
      assert Get(s1.series, rAndP) + [point] == [point];
      assert r.series == s.series[rAndP := [point]];
      assert r.existing[..|r.existing| - 1] == s.existing;
      TotalOffKey(s.existing, s.series, rAndP, [point]);
    }
  }

  /** addDataPoint never resets an existing series: the key's series grows by
      exactly one point, nil when `setToNil` and `value` otherwise, and every
      other key's series is untouched. */
  lemma PointAddedAt(s: State, rAndP: Key, value: int, setToNil: bool, k: Key)
    requires Tracked(s, k)
    ensures Tracked(PointAdded(s, rAndP, value, setToNil), k)
    ensures Get(PointAdded(s, rAndP, value, setToNil).series, k)
         == Get(s.series, k) + (if k == rAndP then [if setToNil then None else Some(value)] else [])
  {
  }

  /** appendIfNotInYearsList on the year axis; the key list and the table are
      untouched. */
  function YearAdded(s: State, newYear: int): State {
    State(if newYear in s.years then s.years else s.years + [newYear], s.existing, s.series)
  }

  /** appendIfNotInYearsList: afterwards the year is on the axis; an axis that
      had it is unchanged, otherwise the year goes at the end; the invariant is
      kept. */
  lemma YearAddedEffect(s: State, newYear: int)
    requires Consistent(s)
    ensures newYear in YearAdded(s, newYear).years
    ensures newYear in s.years ==> YearAdded(s, newYear) == s
    ensures newYear !in s.years ==> YearAdded(s, newYear).years == s.years + [newYear]
    ensures YearAdded(s, newYear).existing == s.existing && YearAdded(s, newYear).series == s.series
    ensures YearAdded(s, newYear).years == AppendIfAbsent(s.years, newYear)
    ensures Consistent(YearAdded(s, newYear))
  {
    assert YearAdded(s, newYear).years == AppendIfAbsent(s.years, newYear);
    forall k ensures Tracked(YearAdded(s, newYear), k) {
      assert Tracked(s, k);
    }
  }

  /** The region of a column; a column missing from the map reads as the empty
      region name. */
  function RegionOf(regions: map<int, string>, column: int): string {
    if column in regions then regions[column] else ""
  }

  /** The key under which a field of `line` is recorded: its column's region and
      the row's percentile code (column 0). */
  function ColumnKey(regions: map<int, string>, line: seq<string>, column: int): Key
    requires |line| > 0
  {
    Key(RegionOf(regions, column), line[0])
  }

  /** The point a field contributes: a gap for an empty field, otherwise the
      parsed share times 100, truncated; text that does not parse counts as 0. */
  function FieldPoint(parseFloat: FloatParser, field: string): (p: Option<int>)
    ensures p.None? <==> field == ""
    ensures field != "" && parseFloat(field).Some? ==>
      p == Some(TruncateToInt(parseFloat(field).value * 100.0))
    ensures field != "" && parseFloat(field).None? ==> p == Some(0)
  {
    if field == "" then None else Some(TruncateToInt(FloatOrZero(parseFloat, field) * 100.0))
  }

  /** One iteration of the column loop: the field in `column` is recorded by an
      addDataPoint call, with value 0 and the nil flag for an empty field. */
  function FieldAdded(s: State, regions: map<int, string>, parseFloat: FloatParser, line: seq<string>, column: nat): State
    requires 2 <= column < |line|
  {
    var rAndP := ColumnKey(regions, line, column);
    if line[column] == "" then PointAdded(s, rAndP, 0, true)
    else PointAdded(s, rAndP, TruncateToInt(FloatOrZero(parseFloat, line[column]) * 100.0), false)
  }

  /** The column loop after the columns 2 .. end-1 are done. */
  function ColumnsAdded(s: State, regions: map<int, string>, parseFloat: FloatParser, line: seq<string>, end: nat): State
    requires 2 <= end <= |line|
    decreases end
  {
    if end == 2 then s
    else FieldAdded(ColumnsAdded(s, regions, parseFloat, line, end - 1), regions, parseFloat, line, end - 1)
  }

  /** The column loop over one more column is one more FieldAdded step. */
  lemma ColumnsAddedSnoc(s: State, regions: map<int, string>, parseFloat: FloatParser, line: seq<string>, i: nat)
    requires 2 <= i < |line|
    ensures ColumnsAdded(s, regions, parseFloat, line, i + 1)
         == FieldAdded(ColumnsAdded(s, regions, parseFloat, line, i), regions, parseFloat, line, i)
  {
  }

  /** updateYearsAndRegionAndPercentileDataWithNewRow: the year in column 1
      joins the axis (0 when it does not parse), then every later column is
      recorded. */
  function RowAdded(s: State, regions: map<int, string>, atoi: IntParser, parseFloat: FloatParser, line: seq<string>): State
    requires |line| >= 2
  {
    ColumnsAdded(YearAdded(s, IntOrZero(atoi, line[1])), regions, parseFloat, line, |line|)
  }

  /** Every row has a percentile and a year column. */
  ghost predicate AllHaveYear(lines: seq<seq<string>>) {
    forall i :: 0 <= i < |lines| ==> |lines[i]| >= 2
  }

  /** The loop of LoadCSVDataIntoInequalityTimeSeries over the data rows. */
  function RowsAdded(s: State, regions: map<int, string>, atoi: IntParser, parseFloat: FloatParser, lines: seq<seq<string>>): State
    requires AllHaveYear(lines)
    decreases |lines|
  {
    if lines == [] then s
    else
      var n := |lines|;
      RowAdded(RowsAdded(s, regions, atoi, parseFloat, lines[..n - 1]), regions, atoi, parseFloat, lines[n - 1])
  }

  /** What the field in `column` contributes to the series of `k`: its point
      when the column maps to `k`, nothing otherwise. */
  function Contribution(regions: map<int, string>, parseFloat: FloatParser, line: seq<string>, k: Key, column: nat): seq<Option<int>>
    requires 2 <= column < |line|
  {
    if ColumnKey(regions, line, column) == k then [FieldPoint(parseFloat, line[column])] else []
  }

  /** The fold over one more row is one more RowAdded step. */
  lemma RowsAddedSnoc(s: State, regions: map<int, string>, atoi: IntParser, parseFloat: FloatParser, lines: seq<seq<string>>, i: nat)
    requires AllHaveYear(lines) && i < |lines|
    ensures AllHaveYear(lines[..i]) && AllHaveYear(lines[..i + 1]) && |lines[i]| >= 2
    ensures RowsAdded(s, regions, atoi, parseFloat, lines[..i + 1])
         == RowAdded(RowsAdded(s, regions, atoi, parseFloat, lines[..i]), regions, atoi, parseFloat, lines[i])
  {
    assert lines[..i + 1][..i] == lines[..i];
  }

  /** Reference definition, without the fold: the points that the columns
      2 .. end-1 of `line` give to key `k`, in column order. */
  function PointsFor(regions: map<int, string>, parseFloat: FloatParser, line: seq<string>, k: Key, end: nat): seq<Option<int>>
    requires 2 <= end <= |line|
    decreases end
  {
    if end == 2 then []
    else
      PointsFor(regions, parseFloat, line, k, end - 1) + Contribution(regions, parseFloat, line, k, end - 1)
  }

  /** One field keeps the invariant, leaves the axis alone and adds one point. */
  lemma FieldAddedEffect(s: State, regions: map<int, string>, parseFloat: FloatParser, line: seq<string>, column: nat)
    requires 2 <= column < |line| && Consistent(s)
    ensures Consistent(FieldAdded(s, regions, parseFloat, line, column))
    ensures FieldAdded(s, regions, parseFloat, line, column).years == s.years
    ensures TotalPoints(FieldAdded(s, regions, parseFloat, line, column)) == TotalPoints(s) + 1
  {
    var rAndP := ColumnKey(regions, line, column);
    if line[column] == "" {
      PointAddedEffect(s, rAndP, 0, true);
    } else {
      PointAddedEffect(s, rAndP, TruncateToInt(FloatOrZero(parseFloat, line[column]) * 100.0), false);
    }
  }

  /** One field gives its key the field's point and leaves every other key
      alone. */
  lemma FieldAddedAt(s: State, regions: map<int, string>, parseFloat: FloatParser, line: seq<string>, column: nat, k: Key)
    requires 2 <= column < |line| && Tracked(s, k)
    ensures Tracked(FieldAdded(s, regions, parseFloat, line, column), k)
    ensures Get(FieldAdded(s, regions, parseFloat, line, column).series, k)
         == Get(s.series, k) + Contribution(regions, parseFloat, line, k, column)
  {
    var rAndP := ColumnKey(regions, line, column);
    if line[column] == "" {
      PointAddedAt(s, rAndP, 0, true, k);
    } else {
      PointAddedAt(s, rAndP, TruncateToInt(FloatOrZero(parseFloat, line[column]) * 100.0), false, k);
    }
  }

  /** The column loop keeps the invariant and leaves the axis alone. */
  lemma {:induction false} ColumnsAddedConsistent(s: State, regions: map<int, string>, parseFloat: FloatParser, line: seq<string>, end: nat)
    requires 2 <= end <= |line| && Consistent(s)
    ensures Consistent(ColumnsAdded(s, regions, parseFloat, line, end))
    ensures ColumnsAdded(s, regions, parseFloat, line, end).years == s.years
    ensures TotalPoints(ColumnsAdded(s, regions, parseFloat, line, end)) == TotalPoints(s) + (end - 2)
  {
    if end > 2 {
      ColumnsAddedConsistent(s, regions, parseFloat, line, end - 1);
      FieldAddedEffect(ColumnsAdded(s, regions, parseFloat, line, end - 1), regions, parseFloat, line, end - 1);
    }
  }

  /** The column loop keeps the key list and the table in agreement about `k`. */
  lemma {:induction false} ColumnsAddedTracked(s: State, regions: map<int, string>, parseFloat: FloatParser, line: seq<string>, end: nat, k: Key)
    requires 2 <= end <= |line| && Tracked(s, k)
    ensures Tracked(ColumnsAdded(s, regions, parseFloat, line, end), k)
  {
    if end > 2 {
      ColumnsAddedTracked(s, regions, parseFloat, line, end - 1, k);
      FieldAddedAt(ColumnsAdded(s, regions, parseFloat, line, end - 1), regions, parseFloat, line, end - 1, k);
    }
  }

  /** One more column adds that column's contribution to the series of `k`. */
  lemma ColumnsAddedStep(s: State, regions: map<int, string>, parseFloat: FloatParser, line: seq<string>, end: nat, k: Key)
    requires 2 < end <= |line| && Tracked(s, k)
    ensures Get(ColumnsAdded(s, regions, parseFloat, line, end).series, k)
         == Get(ColumnsAdded(s, regions, parseFloat, line, end - 1).series, k) + Contribution(regions, parseFloat, line, k, end - 1)
  {
    ColumnsAddedTracked(s, regions, parseFloat, line, end - 1, k);
    FieldAddedAt(ColumnsAdded(s, regions, parseFloat, line, end - 1), regions, parseFloat, line, end - 1, k);
  }

  /** The column loop gives each key exactly the points of its columns. */
  lemma {:induction false} ColumnsAddedAt(s: State, regions: map<int, string>, parseFloat: FloatParser, line: seq<string>, end: nat, k: Key)
    requires 2 <= end <= |line| && Tracked(s, k)
    ensures Get(ColumnsAdded(s, regions, parseFloat, line, end).series, k)
         == Get(s.series, k) + PointsFor(regions, parseFloat, line, k, end)
  {
    if end > 2 {
      ColumnsAddedAt(s, regions, parseFloat, line, end - 1, k);
      ColumnsAddedStep(s, regions, parseFloat, line, end, k);
      var before, earlier := Get(s.series, k), PointsFor(regions, parseFloat, line, k, end - 1);
      var extra := Contribution(regions, parseFloat, line, k, end - 1);
      assert (before + earlier) + extra == before + (earlier + extra);
    } else {
      assert Get(s.series, k) + [] == Get(s.series, k);
    }
  }

  /** A row keeps the invariant, adds its year to the axis if absent, and grows
      the accumulator by one point per field after the year. */
  lemma RowAddedConsistent(s: State, regions: map<int, string>, atoi: IntParser, parseFloat: FloatParser, line: seq<string>)
    requires |line| >= 2 && Consistent(s)
    ensures Consistent(RowAdded(s, regions, atoi, parseFloat, line))
    ensures RowAdded(s, regions, atoi, parseFloat, line).years == AppendIfAbsent(s.years, IntOrZero(atoi, line[1]))
    ensures TotalPoints(RowAdded(s, regions, atoi, parseFloat, line)) == TotalPoints(s) + (|line| - 2)
  {
    YearAddedEffect(s, IntOrZero(atoi, line[1]));
    ColumnsAddedConsistent(YearAdded(s, IntOrZero(atoi, line[1])), regions, parseFloat, line, |line|);
  }

  /** A row gives each key exactly the points of the columns that map to it. */
  lemma RowAddedAt(s: State, regions: map<int, string>, atoi: IntParser, parseFloat: FloatParser, line: seq<string>, k: Key)
    requires |line| >= 2 && Tracked(s, k)
    ensures Tracked(RowAdded(s, regions, atoi, parseFloat, line), k)
    ensures Get(RowAdded(s, regions, atoi, parseFloat, line).series, k)
         == Get(s.series, k) + PointsFor(regions, parseFloat, line, k, |line|)
  {
    var s1 := YearAdded(s, IntOrZero(atoi, line[1]));
    assert Tracked(s1, k);
    ColumnsAddedTracked(s1, regions, parseFloat, line, |line|, k);
    ColumnsAddedAt(s1, regions, parseFloat, line, |line|, k);
  }

  lemma {:induction false} PointsForNoMatch(regions: map<int, string>, parseFloat: FloatParser, line: seq<string>, k: Key, end: nat)
    requires 2 <= end <= |line|
    requires forall c :: 2 <= c < end ==> ColumnKey(regions, line, c) != k
    ensures PointsFor(regions, parseFloat, line, k, end) == []
  {
    if end > 2 {
      PointsForNoMatch(regions, parseFloat, line, k, end - 1);
    }
  }

  lemma {:induction false} PointsForSingleMatch(regions: map<int, string>, parseFloat: FloatParser, line: seq<string>, k: Key, end: nat, column: nat)
    requires 2 <= column < end <= |line| && ColumnKey(regions, line, column) == k
    requires forall c :: 2 <= c < end && c != column ==> ColumnKey(regions, line, c) != k
    ensures PointsFor(regions, parseFloat, line, k, end) == [FieldPoint(parseFloat, line[column])]
  {
    var point := FieldPoint(parseFloat, line[column]);
    var before, here := PointsFor(regions, parseFloat, line, k, end - 1), Contribution(regions, parseFloat, line, k, end - 1);
    assert PointsFor(regions, parseFloat, line, k, end) == before + here;
    if end - 1 == column {
      assert before == [] by {
        PointsForNoMatch(regions, parseFloat, line, k, end - 1);
      }
      assert here == [point];
      assert before + here == [point];
    } else {
      assert before == [point] by {
        PointsForSingleMatch(regions, parseFloat, line, k, end - 1, column);
      }
      assert here == [];
      assert before + here == [point];
    }
  }

  /** A row never touches a key of another percentile. */
  lemma OtherPercentilesUntouched(s: State, regions: map<int, string>, atoi: IntParser, parseFloat: FloatParser, line: seq<string>, k: Key)
    requires |line| >= 2 && Tracked(s, k) && k.percentile != line[0]
    ensures Get(RowAdded(s, regions, atoi, parseFloat, line).series, k) == Get(s.series, k)
  {
    RowAddedAt(s, regions, atoi, parseFloat, line, k);
    PointsForNoMatch(regions, parseFloat, line, k, |line|);
  }

  /** With the fixed region columns and a row of nine fields, the series of
      each region for the row's percentile grows by exactly the point of that
      region's field: a gap when the field is empty, never a numeric 0. */
  lemma StandardRowOnePointPerRegion(s: State, atoi: IntParser, parseFloat: FloatParser, line: seq<string>, column: int)
    requires |line| == 9 && 2 <= column <= 8 && Tracked(s, Key(RegionNames[column - 2], line[0]))
    ensures Get(RowAdded(s, RegionColumns, atoi, parseFloat, line).series, Key(RegionNames[column - 2], line[0]))
         == Get(s.series, Key(RegionNames[column - 2], line[0])) + [FieldPoint(parseFloat, line[column])]
  {
    var k := Key(RegionNames[column - 2], line[0]);
    RowAddedAt(s, RegionColumns, atoi, parseFloat, line, k);
    forall c | 2 <= c < 9 && c != column
      ensures ColumnKey(RegionColumns, line, c) != k
    {
      RegionColumnsDistinct(c, column);
    }
    assert ColumnKey(RegionColumns, line, column) == k;
    PointsForSingleMatch(RegionColumns, parseFloat, line, k, 9, column);
  }

  /** The year column of each row, in row order. */
  function YearsOfLines(atoi: IntParser, lines: seq<seq<string>>): (ys: seq<int>)
    requires AllHaveYear(lines)
    ensures |ys| == |lines|
    ensures forall i :: 0 <= i < |lines| ==> ys[i] == IntOrZero(atoi, lines[i][1])
  {
    if lines == [] then []
    else YearsOfLines(atoi, lines[..|lines| - 1]) + [IntOrZero(atoi, lines[|lines| - 1][1])]
  }

  /** The number of fields after the year, over all rows. */
  function FieldsAfterYear(lines: seq<seq<string>>): nat
    requires AllHaveYear(lines)
  {
    if lines == [] then 0
    else FieldsAfterYear(lines[..|lines| - 1]) + (|lines[|lines| - 1]| - 2)
  }

  /** Folding rows into a fresh accumulator yields a consistent state whose axis
      is the rows' years without repeats, in first-seen order, and whose point
      count is the number of fields after the year columns. */
  lemma {:induction false} LoadedFromEmpty(regions: map<int, string>, atoi: IntParser, parseFloat: FloatParser, lines: seq<seq<string>>)
    requires AllHaveYear(lines)
    ensures Consistent(RowsAdded(Empty, regions, atoi, parseFloat, lines))
    ensures RowsAdded(Empty, regions, atoi, parseFloat, lines).years == Dedup(YearsOfLines(atoi, lines))
    ensures TotalPoints(RowsAdded(Empty, regions, atoi, parseFloat, lines)) == FieldsAfterYear(lines)
  {
    if lines != [] {
      var n := |lines|;
      var init, last := lines[..n - 1], lines[n - 1];
      assert AllHaveYear(init);
      LoadedFromEmpty(regions, atoi, parseFloat, init);
      var prev := RowsAdded(Empty, regions, atoi, parseFloat, init);
      assert RowsAdded(Empty, regions, atoi, parseFloat, lines) == RowAdded(prev, regions, atoi, parseFloat, last);
      RowAddedConsistent(prev, regions, atoi, parseFloat, last);
      var ys := YearsOfLines(atoi, lines);
      assert ys == YearsOfLines(atoi, init) + [IntOrZero(atoi, last[1])];
      assert ys[..n - 1] == YearsOfLines(atoi, init);
      assert FieldsAfterYear(lines) == FieldsAfterYear(init) + (|last| - 2);
    }
  }

  /** Reference definition of a series, without the fold: the points that the
      given column of each row of percentile `p` contributes, in row order. */
  function ColumnOfLines(parseFloat: FloatParser, lines: seq<seq<string>>, p: string, column: nat): (points: seq<Option<int>>)
    requires AllStandard(lines) && column < 9
    ensures |points| == CountPercentile(lines, p)
  {
    if lines == [] then []
    else
      var last := lines[|lines| - 1];
      ColumnOfLines(parseFloat, lines[..|lines| - 1], p, column) +
      (if last[0] == p then [FieldPoint(parseFloat, last[column])] else [])
  }

  /** The number of rows whose percentile code is `p`. */
  function CountPercentile(lines: seq<seq<string>>, p: string): nat
    requires forall i :: 0 <= i < |lines| ==> |lines[i]| > 0
  {
    if lines == [] then 0
    else CountPercentile(lines[..|lines| - 1], p) + (if lines[|lines| - 1][0] == p then 1 else 0)
  }

  /** Every row has the nine standard columns. */
  ghost predicate AllStandard(lines: seq<seq<string>>) {
    forall i :: 0 <= i < |lines| ==> |lines[i]| == 9
  }

  /** With the standard region columns, folding rows into a fresh accumulator
      gives the line of each region and percentile exactly the points of that
      region's column over the rows of that percentile, in row order. */
  lemma {:induction false} LoadedSeries(atoi: IntParser, parseFloat: FloatParser, lines: seq<seq<string>>, p: string, column: int)
    requires AllStandard(lines) && 2 <= column <= 8
    ensures AllHaveYear(lines)
    ensures Get(RowsAdded(Empty, RegionColumns, atoi, parseFloat, lines).series, Key(RegionNames[column - 2], p))
         == ColumnOfLines(parseFloat, lines, p, column)
  {
    if lines != [] {
      var n := |lines|;
      var init, last := lines[..n - 1], lines[n - 1];
      var k := Key(RegionNames[column - 2], p);
      assert AllStandard(init);
      LoadedSeries(atoi, parseFloat, init, p, column);
      LoadedFromEmpty(RegionColumns, atoi, parseFloat, init);
      var prev := RowsAdded(Empty, RegionColumns, atoi, parseFloat, init);
      assert Tracked(prev, k);
      assert RowsAdded(Empty, RegionColumns, atoi, parseFloat, lines) == RowAdded(prev, RegionColumns, atoi, parseFloat, last);
      assert ColumnOfLines(parseFloat, lines, p, column)
          == ColumnOfLines(parseFloat, init, p, column) + (if last[0] == p then [FieldPoint(parseFloat, last[column])] else []);
      if last[0] == p {
        StandardRowOnePointPerRegion(prev, atoi, parseFloat, last, column);
      } else {
        OtherPercentilesUntouched(prev, RegionColumns, atoi, parseFloat, last, k);
      }
    }
  }

  /** Two rows of one percentile with only the first region column, years y1
      then y2, a share in the first row and an empty field in the second, give
      the axis [y1, y2] and an Africa line of the share's point then a gap. */
  lemma {:induction false} TwoRowExample(atoi: IntParser, parseFloat: FloatParser, p: string, t1: string, t2: string, share: string)
    requires atoi(t1).Some? && atoi(t2).Some? && atoi(t1).value != atoi(t2).value
    requires share != "" && parseFloat(share).Some?
    ensures AllHaveYear([[p, t1, share], [p, t2, ""]])
    ensures RowsAdded(Empty, RegionColumns, atoi, parseFloat, [[p, t1, share], [p, t2, ""]]).years
         == [atoi(t1).value, atoi(t2).value]
    ensures Get(RowsAdded(Empty, RegionColumns, atoi, parseFloat, [[p, t1, share], [p, t2, ""]]).series, Key("Africa", p))
         == [Some(TruncateToInt(parseFloat(share).value * 100.0)), None]
  {
    var l1, l2 := [p, t1, share], [p, t2, ""];
    var k := Key("Africa", p);
    var first := Some(TruncateToInt(parseFloat(share).value * 100.0));
    assert [l1, l2][..1] == [l1];
    assert [l1][..0] == [];
    assert RowsAdded(Empty, RegionColumns, atoi, parseFloat, []) == Empty;
    assert ColumnKey(RegionColumns, l1, 2) == k && ColumnKey(RegionColumns, l2, 2) == k;
    var s1 := RowsAdded(Empty, RegionColumns, atoi, parseFloat, [l1]);
    assert s1 == RowAdded(Empty, RegionColumns, atoi, parseFloat, l1);
    var s2 := RowsAdded(Empty, RegionColumns, atoi, parseFloat, [l1, l2]);
    assert s2 == RowAdded(s1, RegionColumns, atoi, parseFloat, l2);
    assert Get(s1.series, k) == [first] by {
      RowAddedAt(Empty, RegionColumns, atoi, parseFloat, l1, k);
      assert PointsFor(RegionColumns, parseFloat, l1, k, 3) == [first];
    }
    assert s1.years == [atoi(t1).value] by {
      RowAddedConsistent(Empty, RegionColumns, atoi, parseFloat, l1);
    }
    assert [first] + [None] == [first, None];
    assert [atoi(t1).value] + [atoi(t2).value] == [atoi(t1).value, atoi(t2).value];
    assert Get(s2.series, k) == [first] + [None] by {
      RowAddedConsistent(Empty, RegionColumns, atoi, parseFloat, l1);
      assert Tracked(s1, k);
      RowAddedAt(s1, RegionColumns, atoi, parseFloat, l2, k);
      assert PointsFor(RegionColumns, parseFloat, l2, k, 3) == [None];
    }
    assert s2.years == [atoi(t1).value] + [atoi(t2).value] by {
      RowAddedConsistent(Empty, RegionColumns, atoi, parseFloat, l1);
      RowAddedConsistent(s1, RegionColumns, atoi, parseFloat, l2);
    }
  }

  /** The accumulator itself: the two configuration maps and the three fields
      the rows are folded into, all updated in place. */
  class TimeSeriesData {
    var columnToRegion: map<int, string>
    var columnRenaming: map<string, string>
    var years: seq<int>
    var existingRAndPs: seq<Key>
    var timeSeries: map<Key, seq<Option<int>>>

    /** The folded fields as a value. */
    function Model(): State
      reads this
    {
      State(years, existingRAndPs, timeSeries)
    }

    /** An accumulator with empty fields and no configuration yet; a map that
        was never set reads as empty. */
    constructor ()
      ensures Model() == Empty
      ensures columnToRegion == map[] && columnRenaming == map[]
    {
      columnToRegion := map[];
      columnRenaming := map[];
      years := [];
      existingRAndPs := [];
      timeSeries := map[];
    }

    /** SetCSVFileColumnToRegionNameMap: replaces the column-to-region map. */
    method SetCSVFileColumnToRegionNameMap(mapToUse: map<int, string>)
      modifies this
      ensures columnToRegion == mapToUse
      ensures columnRenaming == old(columnRenaming) && Model() == old(Model())
    {
      columnToRegion := mapToUse;
    }

    /** SetColumnRenamingmap: replaces the percentile-label map. */
    method SetColumnRenamingMap(mapToUse: map<string, string>)
      modifies this
      ensures columnRenaming == mapToUse
      ensures columnToRegion == old(columnToRegion) && Model() == old(Model())
    {
      columnRenaming := mapToUse;
    }

    /** addDataPoint, in place. */
    method AddDataPoint(rAndP: Key, value: int, setToNil: bool)
      modifies this
      ensures Model() == PointAdded(old(Model()), rAndP, value, setToNil)
      ensures columnToRegion == old(columnToRegion) && columnRenaming == old(columnRenaming)
    {
      if rAndP !in existingRAndPs {
        timeSeries := timeSeries[rAndP := []];
        existingRAndPs := existingRAndPs + [rAndP];
      }
      if setToNil {
        timeSeries := timeSeries[rAndP := Get(timeSeries, rAndP) + [None]];
      } else {
        timeSeries := timeSeries[rAndP := Get(timeSeries, rAndP) + [Some(value)]];
      }
    }

    /** appendIfNotInYearsList, in place. */
    method AppendIfNotInYearsList(newYear: int)
      modifies this
      ensures Model() == YearAdded(old(Model()), newYear)
      ensures columnToRegion == old(columnToRegion) && columnRenaming == old(columnRenaming)
    {
      if newYear !in years {
        years := years + [newYear];
      }
    }

    /** updateYearsAndRegionAndPercentileDataWithNewRow: a row must have a
        percentile and a year column (indexing column 1 of a shorter row is a
        run-time panic). */
    method UpdateYearsAndRegionAndPercentileDataWithNewRow(newLine: seq<string>, atoi: IntParser, parseFloat: FloatParser)
      requires |newLine| >= 2
      modifies this
      ensures Model() == RowAdded(old(Model()), columnToRegion, atoi, parseFloat, newLine)
      ensures columnToRegion == old(columnToRegion) && columnRenaming == old(columnRenaming)
    {
      var yearVal := IntOrZero(atoi, newLine[1]);
      AppendIfNotInYearsList(yearVal);
      RecordFields(newLine, parseFloat);
    }

    /** The column loop of updateYearsAndRegionAndPercentileDataWithNewRow:
        every field after the year, in column order. */
    method RecordFields(newLine: seq<string>, parseFloat: FloatParser)
      requires |newLine| >= 2
      modifies this
      ensures Model() == ColumnsAdded(old(Model()), columnToRegion, parseFloat, newLine, |newLine|)
      ensures columnToRegion == old(columnToRegion) && columnRenaming == old(columnRenaming)
    {
      var i := 2;
      while i < |newLine|
        invariant 2 <= i <= |newLine|
        invariant Model() == ColumnsAdded(old(Model()), columnToRegion, parseFloat, newLine, i)
        invariant columnToRegion == old(columnToRegion) && columnRenaming == old(columnRenaming)
      {
        ColumnsAddedSnoc(old(Model()), columnToRegion, parseFloat, newLine, i);
        RecordField(newLine, i, parseFloat);
        i := i + 1;
      }
    }

    /** The body of the column loop of
        updateYearsAndRegionAndPercentileDataWithNewRow: the field in column i
        is recorded under its column's region and the row's percentile, as a
        nil point when empty and as its share times 100, truncated, otherwise. */
    method RecordField(newLine: seq<string>, i: int, parseFloat: FloatParser)
      requires 2 <= i < |newLine|
      modifies this
      ensures Model() == FieldAdded(old(Model()), columnToRegion, parseFloat, newLine, i)
      ensures columnToRegion == old(columnToRegion) && columnRenaming == old(columnRenaming)
    {
      var rAndP := Key(if i in columnToRegion then columnToRegion[i] else "", newLine[0]);
      if newLine[i] == "" {
        AddDataPoint(rAndP, 0, true);
      } else {
        var valInCol := FloatOrZero(parseFloat, newLine[i]);
        AddDataPoint(rAndP, TruncateToInt(valInCol * 100.0), false);
      }
    }

    /** The row loop of LoadCSVDataIntoInequalityTimeSeries, over rows already
        split into fields, header excluded. */
    method LoadRows(lines: seq<seq<string>>, atoi: IntParser, parseFloat: FloatParser)
      requires AllHaveYear(lines)
      modifies this
      ensures Model() == RowsAdded(old(Model()), columnToRegion, atoi, parseFloat, lines)
      ensures columnToRegion == old(columnToRegion) && columnRenaming == old(columnRenaming)
    {
      ghost var start := Model();
      var i := 0;
      while i < |lines|
        invariant 0 <= i <= |lines|
        invariant AllHaveYear(lines[..i])
        invariant Model() == RowsAdded(start, columnToRegion, atoi, parseFloat, lines[..i])
        invariant columnToRegion == old(columnToRegion) && columnRenaming == old(columnRenaming)
      {
        RowsAddedSnoc(start, columnToRegion, atoi, parseFloat, lines, i);
        UpdateYearsAndRegionAndPercentileDataWithNewRow(lines[i], atoi, parseFloat);
        i := i + 1;
      }
      assert lines[..i] == lines;
    }
  }

  /** The handler's accumulator: empty fields, the fixed region columns and
      percentile labels, then every data row folded in. */
  method BuildInequalityData(lines: seq<seq<string>>, atoi: IntParser, parseFloat: FloatParser) returns (ts: TimeSeriesData)
    requires AllHaveYear(lines)
    ensures fresh(ts)
    ensures ts.Model() == RowsAdded(Empty, RegionColumns, atoi, parseFloat, lines)
    ensures ts.columnToRegion == RegionColumns && ts.columnRenaming == PercentileLabels
  {
    ts := new TimeSeriesData();
    ts.SetCSVFileColumnToRegionNameMap(RegionColumns);
    ts.SetColumnRenamingMap(PercentileLabels);
    ts.LoadRows(lines, atoi, parseFloat);
  }

  /** 10 to the power `n`. */
  function Pow10(n: nat): (p: nat)
    ensures p >= 1
  {
    if n == 0 then 1 else 10 * Pow10(n - 1)
  }

  lemma {:induction false} Pow10Monotone(m: nat, n: nat)
    requires m < n
    ensures 10 * Pow10(m) <= Pow10(n)
  {
    if m + 1 < n {
      Pow10Monotone(m, n - 1);
    }
  }

  /** A positive number has one digit count: the d with 10^(d-1) <= n < 10^d. */
  lemma DigitCountUnique(n: int, d: nat, e: nat)
    requires 1 <= d && Pow10(d - 1) <= n < Pow10(d)
    requires 1 <= e && Pow10(e - 1) <= n < Pow10(e)
    ensures d == e
  {
    if d < e {
      Pow10Monotone(d - 1, e - 1);
    } else if e < d {
      Pow10Monotone(e - 1, d - 1);
    }
  }

  /** Dropping the last digit of `n` scales the bracket around `intIn` by ten. */
  lemma DropDigit(intIn: int, n: int, p: int)
    requires n > 0 && p >= 1 && n * p <= intIn < (n + 1) * p
    ensures p <= intIn
    ensures (n / 10) * (10 * p) <= intIn < (n / 10 + 1) * (10 * p)
  {
    var q, r := n / 10, n % 10;
    assert n == 10 * q + r && 0 <= r < 10;
    var low, high := q * (10 * p), (q + 1) * (10 * p);
    assert p <= n * p by {
      assert n * p == p + (n - 1) * p;
    }
    assert low + r * p == n * p && 0 <= r * p by {
      assert n * p == (10 * q) * p + r * p;
    }
    assert high == (n + 1) * p + (9 - r) * p && 0 <= (9 - r) * p;
  }

  /** countDigitsInInt: the number of decimal digits of a positive number, and
      0 for zero and for every negative number. */
  method CountDigitsInInt(intIn: int) returns (numDigits: int)
    ensures intIn <= 0 ==> numDigits == 0
    ensures intIn > 0 ==> 1 <= numDigits && Pow10(numDigits - 1) <= intIn < Pow10(numDigits)
  {
    numDigits := 0;
    var n := intIn;
    while n > 0
      invariant 0 <= numDigits
      invariant intIn <= 0 ==> n == intIn && numDigits == 0
      invariant intIn > 0 ==> 0 <= n && n * Pow10(numDigits) <= intIn < (n + 1) * Pow10(numDigits)
      invariant intIn > 0 && numDigits == 0 ==> n == intIn
      invariant intIn > 0 && numDigits > 0 ==> Pow10(numDigits - 1) <= intIn
    {
      DropDigit(intIn, n, Pow10(numDigits));
      numDigits := numDigits + 1;
      n := n / 10;
    }
  }
}
