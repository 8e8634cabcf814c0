/** `DataProcessor.aggregate_data`: group the rows by one column, reduce
    another column per group with one of five functions, and name the two
    result columns after the key and after the function and the target. */
module Aggregation {
  import opened Frame
  import opened Grouping

  /** Why an aggregation fails. Only the first is raised by the method
      itself; the others are raised inside pandas. */
  datatype AggError =
    | UnsupportedFunction(name: string)
    | ColumnNotFound(column: string)
    | KeyAlsoTarget(column: string)
    | NonNumericTarget(column: string)

  /** The text after "Error in aggregation: ". pandas' own exception texts
      are not reproduced; its errors are named by the column concerned. */
  function Explain(e: AggError): (r: string)
    ensures e.UnsupportedFunction? ==> |Unsupported| <= |r| && r[..|Unsupported|] == Unsupported && r[|Unsupported|..] == e.name
    ensures !e.UnsupportedFunction? ==> r == e.column
  {
    match e
    case UnsupportedFunction(f) => Unsupported + f
    case ColumnNotFound(c) => c
    case KeyAlsoTarget(c) => c
    case NonNumericTarget(c) => c
  }

  const AggregationFailed := "Error in aggregation: "

  const Unsupported := "Unsupported aggregation function: "

  /** The name of the result column: `f"{agg_function}_{agg_column}"`. */
  function ResultName(f: string, a: string): (n: string)
    ensures |n| == |f| + 1 + |a| && n[..|f|] == f && n[|f|] == '_' && n[|f| + 1..] == a
  {
    f + "_" + a
  }

  /** One output row per group: the key and the reduced value. */
  function GroupRows(gs: seq<Pair>): (rows: seq<Row>)
    ensures |rows| == |gs| && forall i :: 0 <= i < |gs| ==> rows[i] == [gs[i].0, gs[i].1]
  {
    seq(|gs|, i requires 0 <= i < |gs| => [gs[i].0, gs[i].1])
  }

  /** The aggregation proper. The function name is checked first (the
      if-chain runs before any pandas call), then `groupby` needs the key
      column and `[agg_column]` the target; `reset_index` refuses to insert
      the key when it is also the target; and only `count` accepts a
      target that is not numeric. */
  function Aggregate(t: Table, g: string, a: string, f: string): (r: Result<Table, AggError>)
    requires WellFormed(t)
    ensures ParseReducer(f).None? ==> r == Err(UnsupportedFunction(f))
    ensures ParseReducer(f).Some? && IndexOf(t.header, g).None? ==> r == Err(ColumnNotFound(g))
    ensures ParseReducer(f).Some? && IndexOf(t.header, g).Some? && IndexOf(t.header, a).None? ==> r == Err(ColumnNotFound(a))
    ensures ParseReducer(f).Some? && IndexOf(t.header, g).Some? && g == a ==> r == Err(KeyAlsoTarget(g))
    ensures r.Ok? <==> && ParseReducer(f).Some? && IndexOf(t.header, g).Some? && IndexOf(t.header, a).Some? && g != a
                       && (f == "count" || t.header[IndexOf(t.header, a).value].dtype == Numeric)
    ensures r.Err? && r.error.NonNumericTarget? ==> r.error == NonNumericTarget(a)
    ensures r.Ok? ==> && Names(r.value.header) == [g, ResultName(f, a)]
                      && r.value.header[1].dtype == Numeric
                      && forall i :: 0 <= i < |r.value.rows| ==> |r.value.rows[i]| == 2
  {
    match ParseReducer(f)
    case None => Err(UnsupportedFunction(f))
    case Some(red) =>
      match IndexOf(t.header, g)
      case None => Err(ColumnNotFound(g))
      case Some(gi) =>
        match IndexOf(t.header, a)
        case None => Err(ColumnNotFound(a))
        case Some(ai) =>
          if gi == ai then Err(KeyAlsoTarget(g))
          else if red != CountOf && t.header[ai].dtype != Numeric then Err(NonNumericTarget(a))
          else
            var gs := Grouped(Pairs(t.rows, gi, ai), red);
            Ok(Table([Header(g, t.header[gi].dtype), Header(ResultName(f, a), Numeric)], GroupRows(gs)))
  }

  /** `aggregate_data`: every failure is wrapped as "Error in aggregation: …". */
  function AggregateData(t: Table, g: string, a: string, f: string): (r: Result<Table, string>)
    requires WellFormed(t)
    ensures r.Ok? <==> Aggregate(t, g, a, f).Ok?
    ensures r.Err? ==> r.error == AggregationFailed + Explain(Aggregate(t, g, a, f).error)
    ensures ParseReducer(f).None? ==> r == Err(AggregationFailed + Unsupported + f)
    ensures r.Ok? ==> r.value == Aggregate(t, g, a, f).value
  {
    match Aggregate(t, g, a, f)
    case Ok(table) => Ok(table)
    case Err(e) =>
      assert AggregationFailed + (Unsupported + f) == AggregationFailed + Unsupported + f;
      Err(AggregationFailed + Explain(e))
  }

  /** The pairs the aggregation groups, when both columns exist. */
  function PairsOf(t: Table, g: string, a: string): seq<Pair>
    requires WellFormed(t) && IndexOf(t.header, g).Some? && IndexOf(t.header, a).Some?
  {
    Pairs(t.rows, IndexOf(t.header, g).value, IndexOf(t.header, a).value)
  }

  /** A successful aggregation has one row per distinct non-missing key,
      each key exactly once, and in each row the reducer applied to exactly
      the target cells of that key's rows. */
  lemma AggregateRows(t: Table, g: string, a: string, f: string)
    requires WellFormed(t) && Aggregate(t, g, a, f).Ok?
    ensures IndexOf(t.header, g).Some? && IndexOf(t.header, a).Some? && ParseReducer(f).Some?
    ensures var out := Aggregate(t, g, a, f).value.rows;
            var ps := PairsOf(t, g, a);
            && |out| == |Keys(ps)|
            && (forall i, j :: 0 <= i < j < |out| ==> out[i][0] != out[j][0])
            && (forall k :: (exists i :: 0 <= i < |out| && out[i][0] == k) <==> k != Missing && KeyOccurs(ps, k))
            && forall i :: 0 <= i < |out| ==> out[i][1] == Reduce(ParseReducer(f).value, Results(GroupOf(ps, out[i][0])))
  {
    AggregateValues(PairsOf(t, g, a), Aggregate(t, g, a, f).value.rows, ParseReducer(f).value);
    AggregateKeys(PairsOf(t, g, a), Aggregate(t, g, a, f).value.rows, ParseReducer(f).value);
  }

  lemma AggregateValues(ps: seq<Pair>, out: seq<Row>, red: Reducer)
    requires out == GroupRows(Grouped(ps, red))
    ensures forall i :: 0 <= i < |out| ==> out[i][1] == Reduce(red, Results(GroupOf(ps, out[i][0])))
  {
    forall i | 0 <= i < |out| ensures out[i][1] == Reduce(red, Results(GroupOf(ps, out[i][0]))) {
      GroupedValue(ps, red, i);
    }
  }

  lemma AggregateKeys(ps: seq<Pair>, out: seq<Row>, red: Reducer)
    requires out == GroupRows(Grouped(ps, red))
    ensures forall k :: (exists i :: 0 <= i < |out| && out[i][0] == k) <==> k != Missing && KeyOccurs(ps, k)
  {
    var ks := Keys(ps);
    forall k ensures (exists i :: 0 <= i < |out| && out[i][0] == k) <==> k != Missing && KeyOccurs(ps, k) {
      if k in ks {
        var i :| 0 <= i < |ks| && ks[i] == k;
        assert out[i][0] == k;
      }
    }
  }

  /** `count`: each group's value is the number of its rows whose target is
      not missing. */
  lemma CountCountsRows(t: Table, g: string, a: string, i: nat)
    requires WellFormed(t) && Aggregate(t, g, a, "count").Ok?
    requires i < |Aggregate(t, g, a, "count").value.rows|
    ensures IndexOf(t.header, g).Some? && IndexOf(t.header, a).Some?
    ensures var row := Aggregate(t, g, a, "count").value.rows[i];
            row[1] == Num(|CountedRows(PairsOf(t, g, a), row[0])| as real)
  {
    var row := Aggregate(t, g, a, "count").value.rows[i];
    AggregateRows(t, g, a, "count");
    ValuesAreGroupTargets(PairsOf(t, g, a), row[0]);
    CountIsRowCount(PairsOf(t, g, a), row[0]);
  }

  /** `sum`: the group sums add up to the sum of the target column over the
      rows that have a key. */
  lemma SumsAddUp(t: Table, g: string, a: string)
    requires WellFormed(t) && Aggregate(t, g, a, "sum").Ok?
    ensures IndexOf(t.header, g).Some? && IndexOf(t.header, a).Some?
    ensures Total(Column(Aggregate(t, g, a, "sum").value.rows, 1)) == Total(KeyedValues(PairsOf(t, g, a)))
  {
    var ps := PairsOf(t, g, a);
    var out := Aggregate(t, g, a, "sum").value.rows;
    assert Column(out, 1) == Results(Grouped(ps, SumOf));
    GroupedSumsAddUp(ps);
  }

  /** The result is a well-formed table whenever its two names differ. */
  lemma AggregateWellFormed(t: Table, g: string, a: string, f: string)
    requires WellFormed(t) && Aggregate(t, g, a, f).Ok?
    requires g != ResultName(f, a)
    ensures WellFormed(Aggregate(t, g, a, f).value)
  {
    var out := Aggregate(t, g, a, f).value;
    var gi := IndexOf(t.header, g).value;
    var ai := IndexOf(t.header, a).value;
    var ps := Pairs(t.rows, gi, ai);
    var red := ParseReducer(f).value;
    assert out.header == [Header(g, t.header[gi].dtype), Header(ResultName(f, a), Numeric)];
    forall i | 0 <= i < |out.rows| ensures RowFits(out.header, out.rows[i]) {
      var k := Keys(ps)[i];
      assert k in Keys(ps);
      var m :| 0 <= m < |ps| && ps[m].0 == k;
      assert RowFits(t.header, t.rows[m]) && k == t.rows[m][gi];
      assert out.rows[i] == [k, Reduce(red, ValuesOf(ps, k))];
    }
  }

  /** Summing Value by Category over three sample rows: A gets 100 + 120,
      B gets 150. */
  lemma SampleSum()
    ensures var t := Table([Header("Category", Object), Header("Value", Numeric)],
                           [[Text("A"), Num(100.0)], [Text("B"), Num(150.0)], [Text("A"), Num(120.0)]]);
            && WellFormed(t)
            && Aggregate(t, "Category", "Value", "sum")
               == Ok(Table([Header("Category", Object), Header("sum_Value", Numeric)],
                           [[Text("A"), Num(220.0)], [Text("B"), Num(150.0)]]))
  {
    var t := Table([Header("Category", Object), Header("Value", Numeric)],
                   [[Text("A"), Num(100.0)], [Text("B"), Num(150.0)], [Text("A"), Num(120.0)]]);
    SampleShape(t);
    var ps := Pairs(t.rows, 0, 1);
    SampleGroups(ps);
    assert ParseReducer("sum") == Some(SumOf);
    assert GroupRows(Grouped(ps, SumOf)) == [[Text("A"), Num(220.0)], [Text("B"), Num(150.0)]];
    assert ResultName("sum", "Value") == "sum_Value";
  }

  lemma SampleShape(t: Table)
    requires t == Table([Header("Category", Object), Header("Value", Numeric)],
                        [[Text("A"), Num(100.0)], [Text("B"), Num(150.0)], [Text("A"), Num(120.0)]])
    ensures WellFormed(t) && IndexOf(t.header, "Category") == Some(0) && IndexOf(t.header, "Value") == Some(1)
    ensures Pairs(t.rows, 0, 1) == [(Text("A"), Num(100.0)), (Text("B"), Num(150.0)), (Text("A"), Num(120.0))]
  {
  }

  lemma SampleGroups(ps: seq<Pair>)
    requires ps == [(Text("A"), Num(100.0)), (Text("B"), Num(150.0)), (Text("A"), Num(120.0))]
    ensures Grouped(ps, SumOf) == [(Text("A"), Num(220.0)), (Text("B"), Num(150.0))]
  {
    SampleKeys(ps);
    SampleValues(ps);
    assert Total([Num(120.0)]) == 120.0;
    assert Total([Num(100.0), Num(120.0)]) == 220.0;
    assert Total([Num(150.0)]) == 150.0;
  }

  lemma SampleKeys(ps: seq<Pair>)
    requires ps == [(Text("A"), Num(100.0)), (Text("B"), Num(150.0)), (Text("A"), Num(120.0))]
    ensures Keys(ps) == [Text("A"), Text("B")]
  {
    assert ps[..2] == [(Text("A"), Num(100.0)), (Text("B"), Num(150.0))];
    SampleFirstKeys(ps[..2]);
  }

  lemma SampleFirstKeys(ps: seq<Pair>)
    requires ps == [(Text("A"), Num(100.0)), (Text("B"), Num(150.0))]
    ensures Keys(ps) == [Text("A"), Text("B")]
  {
    assert ps[..1] == [(Text("A"), Num(100.0))];
    assert ps[..1][..0] == [];
    assert Keys(ps[..1]) == [Text("A")];
  }

  lemma SampleValues(ps: seq<Pair>)
    requires ps == [(Text("A"), Num(100.0)), (Text("B"), Num(150.0)), (Text("A"), Num(120.0))]
    ensures ValuesOf(ps, Text("A")) == [Num(100.0), Num(120.0)]
    ensures ValuesOf(ps, Text("B")) == [Num(150.0)]
  {
    assert ps[..2] == [(Text("A"), Num(100.0)), (Text("B"), Num(150.0))];
    assert ps[..2][..1] == [(Text("A"), Num(100.0))];
    assert ps[..2][..1][..0] == [];
    assert ValuesOf(ps[..2][..1], Text("A")) == [Num(100.0)];
    assert ValuesOf(ps[..2], Text("A")) == [Num(100.0)];
    assert ValuesOf(ps[..2][..1], Text("B")) == [];
    assert ValuesOf(ps[..2], Text("B")) == [Num(150.0)];
  }
}
