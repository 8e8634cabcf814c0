/** `DataProcessor.get_column_info`: per column, its dtype, how many cells
    are missing, how many distinct values it holds, its first three cells,
    and for numeric columns the minimum, maximum and mean. */
module ColumnSummary {
  import opened Frame
  import opened Grouping

  datatype Stats = Stats(min: Cell, max: Cell, mean: Cell)

  datatype ColumnInfo = ColumnInfo(
    dtype: Dtype,
    nullCount: nat,
    uniqueCount: nat,
    sample: seq<Cell>,
    stats: Option<Stats>)

  /** The distinct non-missing values among the cells. */
  function DistinctValues(cells: seq<Cell>): (vs: set<Cell>)
    ensures forall c :: c in vs <==> c != Missing && c in cells
    ensures |vs| <= Present(cells)
  {
    if cells == [] then {}
    else
      var rest := DistinctValues(cells[1..]);
      assert forall c :: c in cells <==> c == cells[0] || c in cells[1..];
      if cells[0] == Missing then rest else rest + {cells[0]}
  }

  /** `head(3)`. */
  function Head(cells: seq<Cell>, n: nat): (r: seq<Cell>)
    ensures |r| == if |cells| < n then |cells| else n
    ensures r == cells[..|r|]
  {
    if |cells| < n then cells else cells[..n]
  }

  /** The entry of one column: `isnull().sum()`, `nunique()` (missing values
      not counted), `head(3)`, and the statistics only for a numeric
      column, each missing when the column has no numbers. */
  function InfoOf(dtype: Dtype, cells: seq<Cell>): (info: ColumnInfo)
    ensures info.dtype == dtype
    ensures info.nullCount + Present(cells) == |cells|
    ensures info.uniqueCount <= Present(cells) <= |cells|
    ensures info.uniqueCount == |DistinctValues(cells)|
    ensures info.uniqueCount == 0 <==> AllMissing(cells)
    ensures |info.sample| == (if |cells| < 3 then |cells| else 3) && info.sample == cells[..|info.sample|]
    ensures info.stats.Some? <==> dtype == Numeric
  {
    var present := DistinctValues(cells);
    assert !AllMissing(cells) ==> exists i :: 0 <= i < |cells| && cells[i] in present;
    ColumnInfo(
      dtype,
      |cells| - Present(cells),
      |present|,
      Head(cells, 3),
      if dtype == Numeric then Some(Stats(Reduce(MinOf, cells), Reduce(MaxOf, cells), Reduce(MeanOf, cells)))
      else None)
  }

  /** The statistics of a numeric column with at least one number bracket
      every number in it; without numbers they are all missing. */
  lemma StatsBracket(cells: seq<Cell>)
    ensures var s := InfoOf(Numeric, cells).stats.value;
            && (s.min.Missing? <==> forall i :: 0 <= i < |cells| ==> !cells[i].Num?)
            && (s.min.Num? ==> s.max.Num? && forall i :: 0 <= i < |cells| && cells[i].Num? ==> s.min.n <= cells[i].n <= s.max.n)
            && (s.mean.Missing? <==> s.min.Missing?)
            && (s.min.Num? ==> s.min in cells && s.max in cells)
            && (s.mean.Num? ==> s.min.Num? && s.min.n <= s.mean.n <= s.max.n)
  {
    assert InfoOf(Numeric, cells).stats.value == Stats(Reduce(MinOf, cells), Reduce(MaxOf, cells), Reduce(MeanOf, cells));
    ReduceBracket(cells);
  }

  /** The mean lies between the smallest and the largest number. */
  lemma MeanBetween(cells: seq<Cell>)
    requires NumCount(cells) > 0
    ensures Smallest(cells).Some? && Largest(cells).Some?
    ensures Smallest(cells).value <= Total(cells) / NumCount(cells) as real <= Largest(cells).value
  {
    NumCountMeaning(cells);
    var lo := Smallest(cells).value;
    var hi := Largest(cells).value;
    assert forall i :: 0 <= i < |cells| && cells[i].Num? ==> lo <= cells[i].n <= hi;
    MeanWithin(cells, lo, hi);
  }

  lemma MeanWithin(cells: seq<Cell>, lo: real, hi: real)
    requires NumCount(cells) > 0
    requires forall i :: 0 <= i < |cells| && cells[i].Num? ==> lo <= cells[i].n <= hi
    ensures lo <= Total(cells) / NumCount(cells) as real <= hi
  {
    TotalBounds(cells, lo, hi);
    QuotientBounds(Total(cells), NumCount(cells) as real, lo, hi);
  }

  /** A sum of n numbers each in [lo, hi] lies in [n lo, n hi]. */
  lemma {:induction false} TotalBounds(cells: seq<Cell>, lo: real, hi: real)
    requires forall i :: 0 <= i < |cells| && cells[i].Num? ==> lo <= cells[i].n <= hi
    ensures NumCount(cells) as real * lo <= Total(cells) <= NumCount(cells) as real * hi
  {
    if cells != [] {
      var rest := cells[1..];
      forall i | 0 <= i < |rest| && rest[i].Num? ensures lo <= rest[i].n <= hi {
        assert rest[i] == cells[i + 1];
      }
      TotalBounds(rest, lo, hi);
      if cells[0].Num? {
        assert NumCount(cells) as real == NumCount(rest) as real + 1.0 && Total(cells) == cells[0].n + Total(rest);
        OneMore(NumCount(rest) as real, Total(rest), cells[0].n, lo, hi);
      } else {
        assert NumCount(cells) == NumCount(rest) && Total(cells) == Total(rest);
      }
    }
  }

  /** One more number in [lo, hi] keeps the sum within the bounds. */
  lemma OneMore(c: real, total: real, x: real, lo: real, hi: real)
    requires c * lo <= total <= c * hi && lo <= x <= hi
    ensures (c + 1.0) * lo <= x + total <= (c + 1.0) * hi
  {
    assert (c + 1.0) * lo == c * lo + lo && (c + 1.0) * hi == c * hi + hi;
  }

  lemma QuotientBounds(total: real, n: real, lo: real, hi: real)
    requires n > 0.0 && n * lo <= total <= n * hi
    ensures lo <= total / n <= hi
  {
    var q := total / n;
    assert q * n == total;
  }

  lemma ReduceBracket(cells: seq<Cell>)
    ensures Reduce(MinOf, cells).Missing? <==> forall i :: 0 <= i < |cells| ==> !cells[i].Num?
    ensures Reduce(MinOf, cells).Num? ==> Reduce(MaxOf, cells).Num?
    ensures Reduce(MinOf, cells).Num? ==>
              forall i :: 0 <= i < |cells| && cells[i].Num? ==> Reduce(MinOf, cells).n <= cells[i].n <= Reduce(MaxOf, cells).n
    ensures Reduce(MeanOf, cells).Missing? <==> Reduce(MinOf, cells).Missing?
    ensures Reduce(MinOf, cells).Num? ==> Reduce(MinOf, cells) in cells && Reduce(MaxOf, cells) in cells
    ensures Reduce(MeanOf, cells).Num? ==>
              Reduce(MinOf, cells).Num? && Reduce(MinOf, cells).n <= Reduce(MeanOf, cells).n <= Reduce(MaxOf, cells).n
  {
    NumCountMeaning(cells);
    if Smallest(cells).Some? {
      MeanBetween(cells);
    }
  }

  /** `get_column_info`: one entry per column, filled in column by column. */
  method GetColumnInfo(t: Table) returns (info: map<string, ColumnInfo>)
    requires WellFormed(t)
    ensures forall name :: name in info <==> name in Names(t.header)
    ensures forall j :: 0 <= j < |t.header| ==>
              info[t.header[j].name] == InfoOf(t.header[j].dtype, Column(t.rows, j))
  {
    info := map[];
    for j := 0 to |t.header|
      invariant forall name :: name in info <==> name in Names(t.header)[..j]
      invariant forall m :: 0 <= m < j ==> info[t.header[m].name] == InfoOf(t.header[m].dtype, Column(t.rows, m))
    {
      var name := t.header[j].name;
      var entry := InfoOf(t.header[j].dtype, Column(t.rows, j));
      assert Names(t.header)[..j + 1] == Names(t.header)[..j] + [name];
      assert forall m :: 0 <= m < j ==> t.header[m].name != name;
      info := info[name := entry];
    }
    assert Names(t.header)[..|t.header|] == Names(t.header);
  }
}
