/** The vocabulary shared by both versions of the series builder: chart points that
    may be missing, the (region, percentile) key of a plotted line, the abstract
    number parsers, and the display name of a line. */
module Series {

  /** A chart point: `None` is a gap in the line (a point whose value is nil). */
  datatype Option<T> = None | Some(value: T)

  /** One plotted line is identified by its region and its percentile bracket. */
  datatype Key = Key(region: string, percentile: string)

  /** A float parser: `None` when the text is not a number. */
  type FloatParser = string -> Option<real>

  /** An integer parser: `None` when the text is not an integer. */
  type IntParser = string -> Option<int>

  /** The value a parse hands back: the error is only logged, and after a
      syntax error the parser's 0 is used; range errors are not modelled. */
  function FloatOrZero(parseFloat: FloatParser, text: string): real {
    match parseFloat(text)
    case Some(v) => v
    case None => 0.0
  }

  /** As FloatOrZero, for integers. */
  function IntOrZero(atoi: IntParser, text: string): int {
    match atoi(text)
    case Some(v) => v
    case None => 0
  }

  /** The points recorded under `k`; a key absent from the table reads as the
      empty series, as a missing key of a map of slices does. */
  function Get<P>(table: map<Key, seq<P>>, k: Key): seq<P> {
    if k in table then table[k] else []
  }

  /** A list of known keys and a table agree about `k`: the key is listed
      exactly when the table has a line for it. */
  ghost predicate Mirrored<P>(existing: seq<Key>, table: map<Key, P>, k: Key) {
    k in existing <==> k in table
  }

  /** The fixed renaming of percentile codes into friendly labels. */
  const PercentileLabels: map<string, string> :=
    map["p0p50" := "Bottom 50%", "p90p100" := "Top 10%", "p99p100" := "Top 1%"]

  /** The label of a percentile code; an unknown code gets the empty label. */
  function Label(labels: map<string, string>, percentile: string): string {
    if percentile in labels then labels[percentile] else ""
  }

  /** The legend name of the line for `k`: its region, a space, and the label
      of its percentile. */
  function SeriesName(k: Key, labels: map<string, string>): (name: string)
    ensures |name| == |k.region| + 1 + |Label(labels, k.percentile)|
    ensures name[..|k.region|] == k.region && name[|k.region|] == ' '
    ensures name[|k.region| + 1..] == Label(labels, k.percentile)
  {
    k.region + " " + Label(labels, k.percentile)
  }

  /** "p90p100" is shown as "Top 10%". */
  lemma TopTenPercentName(region: string)
    ensures SeriesName(Key(region, "p90p100"), PercentileLabels) == region + " Top 10%"
  {
  }

  /** A code outside the table is not a failure: the line is named after its
      region alone. */
  lemma UnknownPercentileName(region: string, percentile: string)
    requires percentile !in PercentileLabels
    ensures SeriesName(Key(region, percentile), PercentileLabels) == region + " "
  {
  }

  /** The name of a line determines its region when region names have equal
      length, and always determines the label of its percentile. */
  lemma SeriesNameDeterminesLabel(k1: Key, k2: Key, labels: map<string, string>)
    requires |k1.region| == |k2.region|
    requires SeriesName(k1, labels) == SeriesName(k2, labels)
    ensures k1.region == k2.region
    ensures Label(labels, k1.percentile) == Label(labels, k2.percentile)
  {
    var n1, n2 := SeriesName(k1, labels), SeriesName(k2, labels);
    var m := |k1.region| + 1;
    assert n1[m..] == Label(labels, k1.percentile);
    assert n2[m..] == Label(labels, k2.percentile);
  }

  /** Within a region, lines of two different known percentile codes never share
      a name. */
  lemma KnownPercentilesHaveDistinctNames(region: string, p1: string, p2: string)
    requires p1 in PercentileLabels && p2 in PercentileLabels && p1 != p2
    ensures SeriesName(Key(region, p1), PercentileLabels) != SeriesName(Key(region, p2), PercentileLabels)
  {
    if SeriesName(Key(region, p1), PercentileLabels) == SeriesName(Key(region, p2), PercentileLabels) {
      SeriesNameDeterminesLabel(Key(region, p1), Key(region, p2), PercentileLabels);
    }
  }

  /** The known gap: two different unknown codes give the same name, so their
      lines cannot be told apart in the legend. */
  lemma UnknownPercentilesShareName(region: string, p1: string, p2: string)
    requires p1 !in PercentileLabels && p2 !in PercentileLabels
    ensures SeriesName(Key(region, p1), PercentileLabels) == SeriesName(Key(region, p2), PercentileLabels)
  {
  }
}
