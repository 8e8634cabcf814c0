/** `DataProcessor.apply_filters`: starting from a copy of the table, each
    filter entry whose column exists narrows the rows with a boolean mask;
    entries combine with AND. */
module Filtering {
  import opened Frame

  /** What a filter entry holds: a list (keep the rows whose cell is one of
      the listed values, `isin`), a 2-tuple (keep the rows whose cell lies
      in the inclusive range), or anything else (the entry is ignored). */
  datatype FilterValue = Members(allowed: seq<Cell>) | Between(lo: real, hi: real) | Unrecognised

  /** One entry of the `filters` dict: column name and value. */
  type Filter = (string, FilterValue)

  /** The range comparison that pandas refuses with a TypeError. */
  datatype FilterError = Incomparable(column: string)

  /** The mask of one entry. `isin` matches a missing cell when the list
      holds a missing value; a missing cell is never inside a range. */
  predicate Passes(header: seq<Header>, f: Filter, row: Row): (b: bool)
    ensures IndexOf(header, f.0).None? || f.1.Unrecognised? ==> b
    ensures IndexOf(header, f.0).Some? && IndexOf(header, f.0).value < |row| ==>
              var c := row[IndexOf(header, f.0).value];
              && (f.1.Members? ==> (b <==> c in f.1.allowed))
              && (f.1.Between? ==> (b <==> c.Num? && f.1.lo <= c.n <= f.1.hi))
  {
    match IndexOf(header, f.0)
    case None => true
    case Some(j) =>
      match f.1
      case Members(allowed) => IsIn(row, j, allowed)
      case Between(lo, hi) => InRange(row, j, lo, hi)
      case Unrecognised => true
  }

  /** `data[col].isin(values)` at one row. */
  predicate IsIn(row: Row, j: nat, allowed: seq<Cell>): (b: bool)
    ensures b ==> j < |row| && row[j] in allowed
    ensures j < |row| && row[j] == Missing && Missing in allowed ==> b
    ensures allowed == [] ==> !b
  {
    j < |row| && row[j] in allowed
  }

  /** `(data[col] >= lo) & (data[col] <= hi)` at one row. */
  predicate InRange(row: Row, j: nat, lo: real, hi: real): (b: bool)
    ensures b ==> j < |row| && row[j].Num? && lo <= row[j].n <= hi
    ensures j < |row| && !row[j].Num? ==> !b
    ensures hi < lo ==> !b
  {
    j < |row| && row[j].Num? && lo <= row[j].n <= hi
  }

  /** The conjunction of all entries: the reference meaning of the filters. */
  predicate PassesAll(header: seq<Header>, fs: seq<Filter>, row: Row) {
    forall k :: 0 <= k < |fs| ==> Passes(header, fs[k], row)
  }

  /** The rows left after applying the entries one after the other. */
  function Survivors(header: seq<Header>, fs: seq<Filter>, rows: seq<Row>): (r: seq<Row>)
    ensures |r| <= |rows|
  {
    if fs == [] then rows
    else
      var n := |fs| - 1;
      Keep(Survivors(header, fs[..n], rows), row => Passes(header, fs[n], row))
  }

  /** A range entry on an existing column raises when the column is a
      datetime column, or when one of the rows still present holds a string
      or a timestamp (neither compares with a number). */
  predicate RangeClash(header: seq<Header>, f: Filter, rows: seq<Row>): (b: bool)
    ensures !f.1.Between? || IndexOf(header, f.0).None? ==> !b
    ensures f.1.Between? && IndexOf(header, f.0).Some? && header[IndexOf(header, f.0).value].dtype == Datetime ==> b
    ensures b && rows == [] ==> header[IndexOf(header, f.0).value].dtype == Datetime
  {
    && f.1.Between?
    && match IndexOf(header, f.0)
       case None => false
       case Some(j) =>
         || header[j].dtype == Datetime
         || exists i :: 0 <= i < |rows| && j < |rows[i]| && (rows[i][j].Text? || rows[i][j].Date?)
  }

  /** Some entry raises on the rows that the entries before it left. */
  predicate Clashes(header: seq<Header>, fs: seq<Filter>, rows: seq<Row>): (b: bool)
    ensures b ==> exists k :: 0 <= k < |fs| && fs[k].1.Between? && IndexOf(header, fs[k].0).Some?
  {
    if fs == [] then false
    else
      var n := |fs| - 1;
      Clashes(header, fs[..n], rows) || RangeClash(header, fs[n], Survivors(header, fs[..n], rows))
  }

  /** A clash among the first k entries is a clash of the whole list. */
  lemma {:induction false} ClashPersists(header: seq<Header>, fs: seq<Filter>, rows: seq<Row>, k: nat)
    requires k <= |fs| && Clashes(header, fs[..k], rows)
    ensures Clashes(header, fs, rows)
  {
    if k < |fs| {
      var n := |fs| - 1;
      assert fs[..n][..k] == fs[..k];
      ClashPersists(header, fs[..n], rows, k);
      ClashGrows(header, fs, rows);
    } else {
      assert fs[..k] == fs;
    }
  }

  lemma ClashGrows(header: seq<Header>, fs: seq<Filter>, rows: seq<Row>)
    requires fs != [] && Clashes(header, fs[..|fs| - 1], rows)
    ensures Clashes(header, fs, rows)
  {
  }

  /** `apply_filters`. The input is never changed (tables are values); the
      result is the input's header over the surviving rows, or the error of
      the first range entry that cannot be compared. */
  method ApplyFilters(t: Table, filters: seq<Filter>) returns (r: Result<Table, FilterError>)
    ensures r.Ok? <==> !Clashes(t.header, filters, t.rows)
    ensures r.Ok? ==> r.value == Table(t.header, Survivors(t.header, filters, t.rows))
    ensures r.Err? ==> exists k :: 0 <= k < |filters| && r.error == Incomparable(filters[k].0)
                        && !Clashes(t.header, filters[..k], t.rows)
                        && RangeClash(t.header, filters[k], Survivors(t.header, filters[..k], t.rows))
    ensures filters == [] ==> r == Ok(t)
  {
    var filtered := t.rows;
    for k := 0 to |filters|
      invariant filtered == Survivors(t.header, filters[..k], t.rows)
      invariant !Clashes(t.header, filters[..k], t.rows)
    {
      var (column, value) := filters[k];
      ghost var passes := (row: Row) => Passes(t.header, filters[k], row);
      SurvivorsStep(t.header, filters, t.rows, k);
      match IndexOf(t.header, column) {
        case None =>
          KeepEverything(filtered, passes);
        case Some(j) =>
          match value {
            case Members(allowed) =>
              var mask := (row: Row) => IsIn(row, j, allowed);
              KeepAgree(filtered, mask, passes);
              filtered := Keep(filtered, mask);
            case Between(lo, hi) =>
              if RangeClash(t.header, filters[k], filtered) {
                ClashPersists(t.header, filters, t.rows, k + 1);
                assert column == filters[k].0;
                return Err(Incomparable(column));
              }
              var mask := (row: Row) => InRange(row, j, lo, hi);
              KeepAgree(filtered, mask, passes);
              filtered := Keep(filtered, mask);
            case Unrecognised =>
              KeepEverything(filtered, passes);
          }
      }
    }
    assert filters[..|filters|] == filters;
    return Ok(Table(t.header, filtered));
  }

  /** One more entry: its mask applied to what the earlier ones left, and
      a clash when it or an earlier entry clashes. */
  lemma SurvivorsStep(header: seq<Header>, fs: seq<Filter>, rows: seq<Row>, k: nat)
    requires k < |fs|
    ensures Survivors(header, fs[..k + 1], rows) == Keep(Survivors(header, fs[..k], rows), row => Passes(header, fs[k], row))
    ensures Clashes(header, fs[..k + 1], rows) ==
              (Clashes(header, fs[..k], rows) || RangeClash(header, fs[k], Survivors(header, fs[..k], rows)))
  {
    assert fs[..k + 1][..k] == fs[..k];
  }

  /** Applying the entries one by one keeps exactly the rows that pass all
      of them at once. */
  lemma {:induction false} SurvivorsPassAll(header: seq<Header>, fs: seq<Filter>, rows: seq<Row>)
    ensures Survivors(header, fs, rows) == Keep(rows, row => PassesAll(header, fs, row))
  {
    if fs == [] {
      KeepEverything(rows, row => PassesAll(header, fs, row));
    } else {
      var n := |fs| - 1;
      SurvivorsPassAll(header, fs[..n], rows);
      forall row: Row
        ensures PassesAll(header, fs, row) == (PassesAll(header, fs[..n], row) && Passes(header, fs[n], row))
      {
        PassesAllSnoc(header, fs, row);
      }
      KeepKeep(rows, row => PassesAll(header, fs[..n], row), row => Passes(header, fs[n], row),
               row => PassesAll(header, fs, row));
    }
  }

  lemma PassesAllSnoc(header: seq<Header>, fs: seq<Filter>, row: Row)
    requires fs != []
    ensures PassesAll(header, fs, row) == (PassesAll(header, fs[..|fs| - 1], row) && Passes(header, fs[|fs| - 1], row))
  {
    var n := |fs| - 1;
    assert forall k :: 0 <= k < n ==> fs[..n][k] == fs[k];
  }

  /** The surviving rows keep their order, every one of them satisfies
      every entry, and every copy of a row that satisfies all entries
      survives while no other row does. */
  lemma FilteredRows(header: seq<Header>, fs: seq<Filter>, rows: seq<Row>)
    ensures IsSubsequence(Survivors(header, fs, rows), rows)
    ensures forall row, k :: row in Survivors(header, fs, rows) && 0 <= k < |fs| ==> Passes(header, fs[k], row)
    ensures forall row :: multiset(Survivors(header, fs, rows))[row] ==
              if PassesAll(header, fs, row) then multiset(rows)[row] else 0
  {
    SurvivorsPassAll(header, fs, rows);
    KeepIsSubsequence(rows, row => PassesAll(header, fs, row));
    forall row ensures multiset(Survivors(header, fs, rows))[row] ==
                         if PassesAll(header, fs, row) then multiset(rows)[row] else 0 {
      KeepCounts(rows, row => PassesAll(header, fs, row), row);
    }
  }

  /** An entry whose column is absent, or whose value is neither a list nor
      a 2-tuple, can be added anywhere without changing the result. */
  lemma IgnoredEntry(header: seq<Header>, fs: seq<Filter>, f: Filter, k: nat, rows: seq<Row>)
    requires k <= |fs|
    requires IndexOf(header, f.0).None? || f.1.Unrecognised?
    ensures Survivors(header, fs[..k] + [f] + fs[k..], rows) == Survivors(header, fs, rows)
  {
    var gs := fs[..k] + [f] + fs[k..];
    SurvivorsPassAll(header, gs, rows);
    SurvivorsPassAll(header, fs, rows);
    forall row | row in rows ensures PassesAll(header, gs, row) == PassesAll(header, fs, row) {
      IgnoredEntryPasses(header, fs, f, k, row);
    }
    KeepAgree(rows, row => PassesAll(header, gs, row), row => PassesAll(header, fs, row));
  }

  lemma IgnoredEntryPasses(header: seq<Header>, fs: seq<Filter>, f: Filter, k: nat, row: Row)
    requires k <= |fs|
    requires IndexOf(header, f.0).None? || f.1.Unrecognised?
    ensures PassesAll(header, fs[..k] + [f] + fs[k..], row) == PassesAll(header, fs, row)
  {
    var gs := fs[..k] + [f] + fs[k..];
    assert |gs| == |fs| + 1;
    assert forall m :: 0 <= m < k ==> gs[m] == fs[m];
    assert forall m :: k <= m < |fs| ==> gs[m + 1] == fs[m];
    assert Passes(header, gs[k], row);
    if PassesAll(header, fs, row) {
      forall m | 0 <= m < |gs| ensures Passes(header, gs[m], row) {
        if m > k {
          assert gs[m] == fs[m - 1];
        }
      }
    }
  }

  /** Range entries only on numeric (or absent) columns of a well-formed
      table never raise. */
  lemma {:induction false} NumericRangesNeverClash(header: seq<Header>, fs: seq<Filter>, rows: seq<Row>)
    requires WellFormed(Table(header, rows))
    requires forall k, j :: 0 <= k < |fs| && fs[k].1.Between? && IndexOf(header, fs[k].0) == Some(j) ==>
               header[j].dtype == Numeric
    ensures !Clashes(header, fs, rows)
  {
    if fs != [] {
      var n := |fs| - 1;
      assert forall k :: 0 <= k < n ==> fs[..n][k] == fs[k];
      NumericRangesNeverClash(header, fs[..n], rows);
      var s: seq<Row> := Survivors(header, fs[..n], rows);
      FilteredRows(header, fs[..n], rows);
      if fs[n].1.Between? && IndexOf(header, fs[n].0).Some? {
        var j := IndexOf(header, fs[n].0).value;
        forall i: int | 0 <= i < |s| && j < |s[i]| ensures !(s[i][j].Text? || s[i][j].Date?) {
          KeepRowFits(header, fs[..n], rows, s[i]);
          assert Fits(header[j].dtype, s[i][j]);
        }
      }
    }
  }

  lemma KeepRowFits(header: seq<Header>, fs: seq<Filter>, rows: seq<Row>, row: Row)
    requires WellFormed(Table(header, rows))
    requires row in Survivors(header, fs, rows)
    ensures RowFits(header, row)
  {
    FilteredRows(header, fs, rows);
    assert multiset(Survivors(header, fs, rows))[row] > 0;
    assert row in multiset(rows);
    var i :| 0 <= i < |rows| && rows[i] == row;
  }
}
