/** `DataProcessor._clean_data`: drop the rows, then the columns, that are
    entirely missing; then promote each text ('object') column to numbers,
    and each column still text to timestamps, when more than half of the
    rows convert. */
module Cleaning {
  import opened Frame

  /** What `pd.to_numeric(col, errors='coerce')` and
      `pd.to_datetime(col, errors='coerce', ...)` make of each cell (None:
      the cell does not convert and becomes NaN/NaT), and on which columns
      the datetime call raises instead (which `_clean_data` swallows). The
      parsers themselves are not modelled. */
  datatype Coercions = Coercions(
    toNumber: Cell -> Option<real>,
    toDate: Cell -> Option<int>,
    dateRaises: seq<Cell> -> bool)

  function AsNumbers(co: Coercions, cells: seq<Cell>): (r: seq<Cell>)
    ensures |r| == |cells|
    ensures forall i :: 0 <= i < |cells| ==>
      r[i] == match co.toNumber(cells[i]) case Some(x) => Num(x) case None => Missing
  {
    seq(|cells|, i requires 0 <= i < |cells| =>
      match co.toNumber(cells[i]) case Some(x) => Num(x) case None => Missing)
  }

  function AsDates(co: Coercions, cells: seq<Cell>): (r: seq<Cell>)
    ensures |r| == |cells|
    ensures forall i :: 0 <= i < |cells| ==>
      r[i] == match co.toDate(cells[i]) case Some(x) => Date(x) case None => Missing
  {
    seq(|cells|, i requires 0 <= i < |cells| =>
      match co.toDate(cells[i]) case Some(x) => Date(x) case None => Missing)
  }

  /** One promotion attempt: a text column is replaced by its coercion when
      some cell converted and the converted count over the row count
      (`len(data)`) exceeds 0.5. */
  function Promote(h: Header, cells: seq<Cell>, coerced: seq<Cell>, target: Dtype): (r: (Header, seq<Cell>))
    requires |coerced| == |cells|
    ensures r.0.name == h.name && |r.1| == |cells|
    ensures r == (h, cells) || (h.dtype == Object && r == (Header(h.name, target), coerced))
    ensures r != (h, cells) ==> r.0.dtype == target && !AllMissing(r.1)
  {
    if h.dtype == Object && !AllMissing(coerced) && (Present(coerced) as real) / (|cells| as real) > 0.5
    then (Header(h.name, target), coerced)
    else (h, cells)
  }

  /** The numeric pass over one column. */
  function NumericPass(co: Coercions, h: Header, cells: seq<Cell>): (r: (Header, seq<Cell>))
    ensures r.0.name == h.name && |r.1| == |cells|
    ensures h.dtype != Object ==> r == (h, cells)
    ensures r == (h, cells) || (r.0.dtype == Numeric && r.1 == AsNumbers(co, cells))
  {
    Promote(h, cells, AsNumbers(co, cells), Numeric)
  }

  /** The datetime pass over one column; a raising parse leaves it alone. */
  function DatePass(co: Coercions, h: Header, cells: seq<Cell>): (r: (Header, seq<Cell>))
    ensures r.0.name == h.name && |r.1| == |cells|
    ensures h.dtype != Object || co.dateRaises(cells) ==> r == (h, cells)
    ensures r == (h, cells) || (r.0.dtype == Datetime && r.1 == AsDates(co, cells))
  {
    if h.dtype == Object && co.dateRaises(cells) then (h, cells)
    else Promote(h, cells, AsDates(co, cells), Datetime)
  }

  /** Both passes over one column: what `_clean_data` does to it. */
  function CleanColumn(co: Coercions, h: Header, cells: seq<Cell>): (r: (Header, seq<Cell>))
    ensures r.0.name == h.name && |r.1| == |cells|
    ensures (forall i :: 0 <= i < |cells| ==> Fits(h.dtype, cells[i])) ==>
              forall i :: 0 <= i < |cells| ==> Fits(r.0.dtype, r.1[i])
  {
    var numeric := NumericPass(co, h, cells);
    DatePass(co, numeric.0, numeric.1)
  }

  /** The promotion rule in integers: a text column is promoted exactly when
      more than half of ALL its rows convert (so exactly half is not enough,
      and the "some cell converted" guard never decides anything). Any other
      column is left as it is. */
  lemma PromoteThreshold(h: Header, cells: seq<Cell>, coerced: seq<Cell>, target: Dtype)
    requires |coerced| == |cells|
    ensures h.dtype == Object && 2 * Present(coerced) > |cells| ==>
              Promote(h, cells, coerced, target) == (Header(h.name, target), coerced)
    ensures !(h.dtype == Object && 2 * Present(coerced) > |cells|) ==>
              Promote(h, cells, coerced, target) == (h, cells)
  {
    if |cells| > 0 {
      RatioAboveHalf(Present(coerced) as real, |cells| as real);
    }
  }

  lemma RatioAboveHalf(p: real, n: real)
    requires n > 0.0
    ensures p / n > 0.5 <==> 2.0 * p > n
  {
    var q := p / n;
    assert q * n == p;
    if q > 0.5 {
      assert (q - 0.5) * n > 0.0;
    } else {
      assert (0.5 - q) * n >= 0.0;
    }
  }

  /** A text column of which exactly half the rows convert to numbers stays text. */
  lemma HalfConvertingStaysText(co: Coercions, h: Header, cells: seq<Cell>)
    requires h.dtype == Object
    requires 2 * Present(AsNumbers(co, cells)) == |cells|
    ensures NumericPass(co, h, cells) == (h, cells)
  {
    PromoteThreshold(h, cells, AsNumbers(co, cells), Numeric);
  }

  /** When a text column is promoted to numbers, the cells that do not
      convert become missing and the others become their numbers; the
      datetime pass then leaves the column alone. */
  lemma NumericPromotionIsFinal(co: Coercions, h: Header, cells: seq<Cell>)
    requires h.dtype == Object && 2 * Present(AsNumbers(co, cells)) > |cells|
    ensures CleanColumn(co, h, cells).0 == Header(h.name, Numeric)
    ensures forall i :: 0 <= i < |cells| ==>
      CleanColumn(co, h, cells).1[i] == match co.toNumber(cells[i]) case Some(x) => Num(x) case None => Missing
  {
    PromoteThreshold(h, cells, AsNumbers(co, cells), Numeric);
  }

  /** A text column that is not promoted to numbers is tried as timestamps
      under the same strict majority rule. */
  lemma DatePromotionRule(co: Coercions, h: Header, cells: seq<Cell>)
    requires h.dtype == Object && 2 * Present(AsNumbers(co, cells)) <= |cells|
    ensures !co.dateRaises(cells) && 2 * Present(AsDates(co, cells)) > |cells| ==>
              CleanColumn(co, h, cells) == (Header(h.name, Datetime), AsDates(co, cells))
    ensures co.dateRaises(cells) || 2 * Present(AsDates(co, cells)) <= |cells| ==>
              CleanColumn(co, h, cells) == (h, cells)
  {
    PromoteThreshold(h, cells, AsNumbers(co, cells), Numeric);
    PromoteThreshold(h, cells, AsDates(co, cells), Datetime);
  }

  /** A column that is not text is never changed. */
  lemma NonTextColumnUnchanged(co: Coercions, h: Header, cells: seq<Cell>)
    requires h.dtype != Object
    ensures CleanColumn(co, h, cells) == (h, cells)
  {
  }

  /** A cleaned column that had a value still has one. */
  lemma CleanColumnKeepsAValue(co: Coercions, h: Header, cells: seq<Cell>)
    requires !AllMissing(cells)
    ensures !AllMissing(CleanColumn(co, h, cells).1)
  {
    var numeric := NumericPass(co, h, cells);
    assert !AllMissing(numeric.1);
  }

  // ---- dropna(how='all') on rows, then on columns ----

  predicate HasValue(row: Row) {
    !AllMissing(row)
  }

  /** Indices below n of the columns that have a value, in order. */
  function NonEmptyColumns(rows: seq<Row>, n: nat): (ks: seq<nat>)
    requires forall i :: 0 <= i < |rows| ==> n <= |rows[i]|
    ensures forall m :: 0 <= m < |ks| ==> ks[m] < n && !AllMissing(Column(rows, ks[m]))
    ensures forall a, b :: 0 <= a < b < |ks| ==> ks[a] < ks[b]
    ensures forall j :: 0 <= j < n && !AllMissing(Column(rows, j)) ==> j in ks
  {
    if n == 0 then []
    else
      var ks := NonEmptyColumns(rows, n - 1);
      if AllMissing(Column(rows, n - 1)) then ks else ks + [n - 1]
  }

  function Project(row: Row, ks: seq<nat>): (r: Row)
    requires forall m :: 0 <= m < |ks| ==> ks[m] < |row|
    ensures |r| == |ks| && forall m :: 0 <= m < |ks| ==> r[m] == row[ks[m]]
  {
    seq(|ks|, m requires 0 <= m < |ks| => row[ks[m]])
  }

  /** The rows that survive `dropna(how='all')`. */
  function KeptRows(t: Table): (rows: seq<Row>)
    requires WellFormed(t)
    ensures forall i :: 0 <= i < |rows| ==> RowFits(t.header, rows[i]) && HasValue(rows[i])
    ensures IsSubsequence(rows, t.rows)
    ensures forall row :: multiset(rows)[row] == if HasValue(row) then multiset(t.rows)[row] else 0
  {
    var rows := Keep(t.rows, HasValue);
    KeepIsSubsequence(t.rows, HasValue);
    forall row ensures multiset(rows)[row] == if HasValue(row) then multiset(t.rows)[row] else 0 {
      KeepCounts(t.rows, HasValue, row);
    }
    assert forall i :: 0 <= i < |rows| ==> rows[i] in rows;
    rows
  }

  /** The columns that survive `dropna(axis=1, how='all')` after the row drop. */
  function KeptColumns(t: Table): (ks: seq<nat>)
    requires WellFormed(t)
    ensures forall m :: 0 <= m < |ks| ==> ks[m] < |t.header|
    ensures forall a, b :: 0 <= a < b < |ks| ==> ks[a] < ks[b]
    ensures forall j :: 0 <= j < |t.header| ==> (j in ks <==> !AllMissing(Column(KeptRows(t), j)))
  {
    NonEmptyColumns(KeptRows(t), |t.header|)
  }

  /** `data.dropna(how='all').dropna(axis=1, how='all')`. */
  function DropEmpty(t: Table): (d: Table)
    requires WellFormed(t)
    ensures WellFormed(d)
    ensures |d.rows| == |KeptRows(t)|
    ensures |d.header| == |KeptColumns(t)|
  {
    var rows := KeptRows(t);
    var ks := KeptColumns(t);
    var header := seq(|ks|, m requires 0 <= m < |ks| => t.header[ks[m]]);
    var d := Table(header, seq(|rows|, i requires 0 <= i < |rows| => Project(rows[i], ks)));
    assert DistinctNames(header) by {
      forall a, b | 0 <= a < b < |header| ensures header[a].name != header[b].name {
        assert ks[a] < ks[b];
      }
    }
    d
  }

  lemma DropEmptyShape(t: Table)
    requires WellFormed(t)
    ensures forall m :: 0 <= m < |KeptColumns(t)| ==> DropEmpty(t).header[m] == t.header[KeptColumns(t)[m]]
    ensures forall i, m :: 0 <= i < |KeptRows(t)| && 0 <= m < |KeptColumns(t)| ==>
              DropEmpty(t).rows[i][m] == KeptRows(t)[i][KeptColumns(t)[m]]
  {
  }

  /** After the drop no row is entirely missing. */
  lemma DroppedRowsHaveValues(t: Table)
    requires WellFormed(t)
    ensures forall i :: 0 <= i < |DropEmpty(t).rows| ==> !AllMissing(DropEmpty(t).rows[i])
  {
    var d := DropEmpty(t);
    var rows := KeptRows(t);
    var ks := KeptColumns(t);
    DropEmptyShape(t);
    forall i | 0 <= i < |d.rows| ensures !AllMissing(d.rows[i]) {
      RowValueSurvives(t, rows, ks, i);
      var m :| 0 <= m < |ks| && rows[i][ks[m]] != Missing;
      assert d.rows[i][m] == rows[i][ks[m]];
    }
  }

  lemma RowValueSurvives(t: Table, rows: seq<Row>, ks: seq<nat>, i: nat)
    requires WellFormed(t) && rows == KeptRows(t) && ks == KeptColumns(t) && i < |rows|
    ensures exists m :: 0 <= m < |ks| && rows[i][ks[m]] != Missing
  {
    var row: Row := rows[i];
    assert HasValue(row);
    var j: nat :| j < |row| && row[j] != Missing;
    assert Column(rows, j)[i] == rows[i][j];
    assert j in ks;
    var m :| 0 <= m < |ks| && ks[m] == j;
  }

  /** After the drop no column is entirely missing, and a column is dropped
      only when none of the kept rows has a value in it. */
  lemma DroppedColumnsHaveValues(t: Table)
    requires WellFormed(t)
    ensures forall j :: 0 <= j < |DropEmpty(t).header| ==> !AllMissing(Column(DropEmpty(t).rows, j))
    ensures forall j :: 0 <= j < |t.header| && !AllMissing(Column(KeptRows(t), j)) ==> j in KeptColumns(t)
  {
    var d := DropEmpty(t);
    var rows := KeptRows(t);
    var ks := KeptColumns(t);
    forall m | 0 <= m < |d.header| ensures !AllMissing(Column(d.rows, m)) {
      KeptColumnHasValue(t, m);
    }
  }

  lemma KeptColumnHasValue(t: Table, m: nat)
    requires WellFormed(t) && m < |DropEmpty(t).header|
    ensures !AllMissing(Column(DropEmpty(t).rows, m))
  {
    DropEmptyShape(t);
    ProjectedColumnHasValue(KeptRows(t), DropEmpty(t).rows, KeptColumns(t)[m], m);
  }

  lemma ProjectedColumnHasValue(rows: seq<Row>, out: seq<Row>, j: nat, m: nat)
    requires HasColumn(rows, j) && HasColumn(out, m) && |out| == |rows|
    requires forall i :: 0 <= i < |rows| ==> out[i][m] == rows[i][j]
    requires !AllMissing(Column(rows, j))
    ensures !AllMissing(Column(out, m))
  {
    var i :| 0 <= i < |rows| && !Column(rows, j)[i].Missing?;
    assert Column(out, m)[i] == rows[i][j];
  }

  // ---- the two passes, column by column, in place ----

  /** `data[col] = series`: column j gets a new header and new cells. */
  function SetColumn(t: Table, j: nat, h: Header, cells: seq<Cell>): (r: Table)
    requires j < |t.header| && |cells| == |t.rows| && HasColumn(t.rows, j)
    ensures r.header == t.header[j := h] && |r.rows| == |t.rows|
    ensures forall i :: 0 <= i < |t.rows| ==> r.rows[i] == t.rows[i][j := cells[i]]
  {
    Table(t.header[j := h], seq(|t.rows|, i requires 0 <= i < |t.rows| => t.rows[i][j := cells[i]]))
  }

  lemma ColumnAfterSet(t: Table, j: nat, h: Header, cells: seq<Cell>, k: nat)
    requires j < |t.header| && |cells| == |t.rows| && HasColumn(t.rows, j) && HasColumn(t.rows, k)
    ensures HasColumn(SetColumn(t, j, h, cells).rows, k)
    ensures Column(SetColumn(t, j, h, cells).rows, k) == if k == j then cells else Column(t.rows, k)
  {
  }

  /** What `_clean_data` makes of t: a well-formed table with the rows and
      columns that survive the drop, every column in its place, under its
      name, as the two passes leave it. */
  ghost predicate CleanedFrom(t: Table, co: Coercions, r: Table)
    requires WellFormed(t)
  {
    && WellFormed(r)
    && |r.rows| == |DropEmpty(t).rows| && |r.header| == |DropEmpty(t).header|
    && forall j :: 0 <= j < |r.header| ==>
         (r.header[j], Column(r.rows, j)) == CleanColumn(co, DropEmpty(t).header[j], Column(DropEmpty(t).rows, j))
  }

  /** Column k of the table after the drop, once `s` of the two passes
      (0, 1 or 2) have run over it. */
  function Stage(co: Coercions, d: Table, k: nat, s: nat): (Header, seq<Cell>)
    requires k < |d.header| && HasColumn(d.rows, k)
  {
    if s == 0 then (d.header[k], Column(d.rows, k))
    else if s == 1 then NumericPass(co, d.header[k], Column(d.rows, k))
    else CleanColumn(co, d.header[k], Column(d.rows, k))
  }

  /** Halfway through pass s + 1: the columns before j have been through it,
      the others not yet. */
  ghost predicate Progress(data: Table, d: Table, co: Coercions, j: nat, s: nat) {
    && |data.header| == |d.header| && |data.rows| == |d.rows|
    && (forall i :: 0 <= i < |data.rows| ==> |data.rows[i]| == |d.header|)
    && (forall i :: 0 <= i < |d.rows| ==> |d.rows[i]| == |d.header|)
    && forall k :: 0 <= k < |d.header| ==>
         (data.header[k], Column(data.rows, k)) == Stage(co, d, k, if k < j then s + 1 else s)
  }

  /** Column j is rewritten with what the pass makes of it. */
  lemma AdvanceBySet(data: Table, d: Table, co: Coercions, j: nat, s: nat, h: Header, cells: seq<Cell>)
    requires Progress(data, d, co, j, s) && j < |d.header|
    requires |cells| == |data.rows| && Stage(co, d, j, s + 1) == (h, cells)
    ensures Progress(SetColumn(data, j, h, cells), d, co, j + 1, s)
  {
    var r := SetColumn(data, j, h, cells);
    forall k | 0 <= k < |d.header|
      ensures (r.header[k], Column(r.rows, k)) == Stage(co, d, k, if k < j + 1 then s + 1 else s)
    {
      ColumnAfterSet(data, j, h, cells, k);
    }
  }

  /** Column j is left as it is, because the pass does not change it. */
  lemma AdvanceBySkip(data: Table, d: Table, co: Coercions, j: nat, s: nat)
    requires Progress(data, d, co, j, s) && j < |d.header|
    requires Stage(co, d, j, s + 1) == Stage(co, d, j, s)
    ensures Progress(data, d, co, j + 1, s)
  {
    forall k | 0 <= k < |d.header|
      ensures (data.header[k], Column(data.rows, k)) == Stage(co, d, k, if k < j + 1 then s + 1 else s)
    {
      assert (data.header[k], Column(data.rows, k)) == Stage(co, d, k, if k < j then s + 1 else s);
    }
  }

  /** Column j, not yet through pass s + 1, is what that pass works on. */
  lemma PassInput(data: Table, d: Table, co: Coercions, j: nat, s: nat)
    requires Progress(data, d, co, j, s) && j < |d.header| && s < 2
    ensures |Column(data.rows, j)| == |data.rows|
    ensures s == 0 ==> Stage(co, d, j, 1) == NumericPass(co, data.header[j], Column(data.rows, j))
    ensures s == 1 ==> Stage(co, d, j, 2) == DatePass(co, data.header[j], Column(data.rows, j))
    ensures s == 0 ==> Stage(co, d, j, 0) == (data.header[j], Column(data.rows, j))
    ensures s == 1 ==> Stage(co, d, j, 1) == (data.header[j], Column(data.rows, j))
  {
    assert (data.header[j], Column(data.rows, j)) == Stage(co, d, j, s);
  }

  /** Once both passes are done, the table is well formed again. */
  lemma FinishedIsWellFormed(data: Table, d: Table, co: Coercions)
    requires WellFormed(d) && Progress(data, d, co, |d.header|, 1)
    ensures WellFormed(data)
  {
    var n := |d.header|;
    forall i, k | 0 <= i < |data.rows| && 0 <= k < n ensures Fits(data.header[k].dtype, data.rows[i][k]) {
      assert forall m :: 0 <= m < |d.rows| ==> Column(d.rows, k)[m] == d.rows[m][k] && RowFits(d.header, d.rows[m]);
      assert Column(data.rows, k)[i] == data.rows[i][k];
    }
    assert DistinctNames(data.header) by {
      forall a, b | 0 <= a < b < n ensures data.header[a].name != data.header[b].name {
        assert data.header[a].name == d.header[a].name && data.header[b].name == d.header[b].name;
      }
    }
  }

  /** `_clean_data`: every surviving column, in its place and under its
      name, is what the two passes make of it. */
  method CleanData(t: Table, co: Coercions) returns (r: Table)
    requires WellFormed(t)
    ensures CleanedFrom(t, co, r)
  {
    var d := DropEmpty(t);
    var n := |d.header|;
    var data := d;
    StartFirstPass(d, co);
    for j := 0 to n
      invariant Progress(data, d, co, j, 0)
    {
      data := NumericStep(data, d, co, j);
    }
    StartSecondPass(data, d, co);
    for j := 0 to n
      invariant Progress(data, d, co, j, 1)
    {
      data := DateStep(data, d, co, j);
    }
    Finished(t, data, co);
    r := data;
  }

  /** One turn of the numeric loop: column j is converted when it is text
      and more than half of it reads as numbers. */
  method NumericStep(data: Table, ghost d: Table, co: Coercions, j: nat) returns (next: Table)
    requires Progress(data, d, co, j, 0) && j < |d.header|
    ensures Progress(next, d, co, j + 1, 0)
  {
    var cells := Column(data.rows, j);
    PassInput(data, d, co, j, 0);
    next := data;
    if data.header[j].dtype == Object {
      var numeric := AsNumbers(co, cells);
      if !AllMissing(numeric) && (Present(numeric) as real) / (|data.rows| as real) > 0.5 {
        AdvanceBySet(data, d, co, j, 0, Header(data.header[j].name, Numeric), numeric);
        next := SetColumn(data, j, Header(data.header[j].name, Numeric), numeric);
        return;
      }
    }
    AdvanceBySkip(data, d, co, j, 0);
  }

  /** One turn of the datetime loop: column j is converted when it is still
      text, parsing does not raise, and more than half of it reads as dates. */
  method DateStep(data: Table, ghost d: Table, co: Coercions, j: nat) returns (next: Table)
    requires Progress(data, d, co, j, 1) && j < |d.header|
    ensures Progress(next, d, co, j + 1, 1)
  {
    var cells := Column(data.rows, j);
    PassInput(data, d, co, j, 1);
    next := data;
    if data.header[j].dtype == Object && !co.dateRaises(cells) {
      var dates := AsDates(co, cells);
      if !AllMissing(dates) && (Present(dates) as real) / (|data.rows| as real) > 0.5 {
        AdvanceBySet(data, d, co, j, 1, Header(data.header[j].name, Datetime), dates);
        next := SetColumn(data, j, Header(data.header[j].name, Datetime), dates);
        return;
      }
    }
    AdvanceBySkip(data, d, co, j, 1);
  }

  lemma StartFirstPass(d: Table, co: Coercions)
    requires WellFormed(d)
    ensures Progress(d, d, co, 0, 0)
  {
  }

  lemma StartSecondPass(data: Table, d: Table, co: Coercions)
    requires Progress(data, d, co, |d.header|, 0)
    ensures Progress(data, d, co, 0, 1)
  {
  }

  lemma Finished(t: Table, data: Table, co: Coercions)
    requires WellFormed(t) && Progress(data, DropEmpty(t), co, |DropEmpty(t).header|, 1)
    ensures CleanedFrom(t, co, data)
  {
    FinishedIsWellFormed(data, DropEmpty(t), co);
  }

  /** After `_clean_data` no column is entirely missing: a promoted column
      has at least one converted cell. */
  lemma CleanedColumnsHaveValues(t: Table, co: Coercions, r: Table)
    requires WellFormed(t) && CleanedFrom(t, co, r)
    ensures forall j :: 0 <= j < |r.header| ==> !AllMissing(Column(r.rows, j))
  {
    DroppedColumnsHaveValues(t);
    forall j | 0 <= j < |r.header| ensures !AllMissing(Column(r.rows, j)) {
      CleanColumnKeepsAValue(co, DropEmpty(t).header[j], Column(DropEmpty(t).rows, j));
    }
  }

  /** Columns that all have a value are all kept, in order. */
  lemma {:induction false} AllColumnsKept(rows: seq<Row>, n: nat)
    requires forall i :: 0 <= i < |rows| ==> n <= |rows[i]|
    requires forall j :: 0 <= j < n ==> !AllMissing(Column(rows, j))
    ensures |NonEmptyColumns(rows, n)| == n
    ensures forall m :: 0 <= m < n ==> NonEmptyColumns(rows, n)[m] == m
  {
    if n > 0 {
      var ks := NonEmptyColumns(rows, n - 1);
      AllColumnsKept(rows, n - 1);
      assert !AllMissing(Column(rows, n - 1));
      assert NonEmptyColumns(rows, n) == ks + [n - 1];
      CountingUp(ks, n - 1);
    }
  }

  lemma CountingUp(ks: seq<nat>, n: nat)
    requires |ks| == n && forall m :: 0 <= m < n ==> ks[m] == m
    ensures forall m :: 0 <= m < n + 1 ==> (ks + [n])[m] == m
  {
  }

  /** A table in which every row and every column has a value survives the
      drop unchanged. */
  lemma DropKeepsFullTable(t: Table)
    requires WellFormed(t)
    requires forall i :: 0 <= i < |t.rows| ==> HasValue(t.rows[i])
    requires forall j :: 0 <= j < |t.header| ==> !AllMissing(Column(t.rows, j))
    ensures DropEmpty(t) == t
  {
    KeptAllRows(t);
    AllColumnsKept(t.rows, |t.header|);
    DropKeepsHeader(t);
    DropKeepsRows(t);
  }

  lemma DropKeepsHeader(t: Table)
    requires WellFormed(t)
    requires |KeptColumns(t)| == |t.header| && forall m :: 0 <= m < |t.header| ==> KeptColumns(t)[m] == m
    ensures DropEmpty(t).header == t.header
  {
    DropEmptyShape(t);
  }

  lemma DropKeepsRows(t: Table)
    requires WellFormed(t) && KeptRows(t) == t.rows
    requires |KeptColumns(t)| == |t.header| && forall m :: 0 <= m < |t.header| ==> KeptColumns(t)[m] == m
    ensures DropEmpty(t).rows == t.rows
  {
    var d := DropEmpty(t);
    DropEmptyShape(t);
    forall i | 0 <= i < |t.rows| ensures d.rows[i] == t.rows[i] {
      assert |d.rows[i]| == |t.rows[i]|;
    }
  }

  lemma KeptAllRows(t: Table)
    requires WellFormed(t)
    requires forall i :: 0 <= i < |t.rows| ==> HasValue(t.rows[i])
    ensures KeptRows(t) == t.rows
  {
    forall x | x in t.rows ensures HasValue(x) {
      var i :| 0 <= i < |t.rows| && t.rows[i] == x;
    }
    KeepEverything(t.rows, HasValue);
  }

  /** Coercions under which only the strings "1" and "2" are numbers and
      nothing is a date. */
  function DigitsOnly(): Coercions {
    Coercions(c => if c == Text("1") then Some(1.0) else if c == Text("2") then Some(2.0) else None,
              c => None, cells => false)
  }

  /** The drop happens before the promotions, so a row can end up entirely
      missing: in a single text column ["x", "1", "2"] where only the digits
      parse, every row has a value and survives the drop, two of three rows
      convert, the column becomes numeric and the first row is left with
      nothing but NaN. */
  lemma RowCanBecomeEmptyAfterPromotion(t: Table)
    requires t == Table([Header("v", Object)], [[Text("x")], [Text("1")], [Text("2")]])
    ensures WellFormed(t)
    ensures DropEmpty(t) == t
    ensures CleanColumn(DigitsOnly(), t.header[0], Column(t.rows, 0)) == (Header("v", Numeric), [Missing, Num(1.0), Num(2.0)])
  {
    var cells := Column(t.rows, 0);
    assert cells == [Text("x"), Text("1"), Text("2")];
    assert cells[0] != Missing;
    DropKeepsFullTable(t);
    DigitsPromoted(cells);
  }

  lemma DigitsPromoted(cells: seq<Cell>)
    requires cells == [Text("x"), Text("1"), Text("2")]
    ensures CleanColumn(DigitsOnly(), Header("v", Object), cells) == (Header("v", Numeric), [Missing, Num(1.0), Num(2.0)])
  {
    var numeric := AsNumbers(DigitsOnly(), cells);
    assert numeric == [Missing, Num(1.0), Num(2.0)];
    assert numeric[1..] == [Num(1.0), Num(2.0)] && numeric[1..][1..] == [Num(2.0)];
    assert Present([Num(2.0)]) == 1;
    assert Present(numeric) == 2;
    PromoteThreshold(Header("v", Object), cells, numeric, Numeric);
  }
}
