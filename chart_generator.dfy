/** `ChartGenerator`: from a table, a chart type and a configuration to a
    figure. Every path ends in a figure: missing or empty data, an unknown
    type, an unset axis and an absent column give a placeholder carrying a
    message, and a failure while building becomes a placeholder with the
    error text. Plotly's figure is reduced to the fields the code sets. */
module ChartGenerator {
  import opened Frame
  import opened Text
  import opened Ordering
  import opened Grouping

  /** The keys the builders read with `config.get(…)`; an absent key is None. */
  datatype ChartConfig = ChartConfig(
    x: Option<string>,
    y: Option<string>,
    color: Option<string>,
    size: Option<string>,
    values: Option<string>,
    names: Option<string>)

  /** Python truthiness of an optional column name: present and non-empty. */
  predicate Truthy(v: Option<string>) {
    v.Some? && v.value != ""
  }

  datatype PlotKind = BarPlot | LinePlot | ScatterPlot

  /** `hovermode='x unified'` for bar and line, every column as hover data for scatter. */
  datatype Hover = XUnified | Columns(names: seq<string>)

  /** The figure. `Placeholder` is `_create_empty_chart`: an empty figure
      with a centred message, no legend and no axes. */
  datatype Figure =
    | Placeholder(message: string)
    | Plot(kind: PlotKind, title: string, x: string, y: string, xTitle: string, yTitle: string,
           color: Option<string>, size: Option<string>, showLegend: bool, hover: Hover, rows: seq<Row>)
    | Pie(title: string, names: string, values: string, slices: seq<Pair>, showLegend: bool)
    | Histogram(title: string, column: string, xTitle: string, yTitle: string, showLegend: bool)
    | Heatmap(columns: seq<string>)

  /** An axis title: `name.replace('_', ' ').title()`. */
  function AxisTitle(name: string): (r: string)
    ensures |r| == |name| && '_' !in r
    ensures forall i :: 0 <= i < |name| && name[i] != '_' ==> ToLower(r[i]) == ToLower(name[i])
    ensures forall i :: 0 <= i < |name| && name[i] == '_' ==> r[i] == ' '
    ensures forall i :: 0 <= i < |name| && name[i] != '_' && !IsCased(name[i]) ==> r[i] == name[i]
    ensures forall i :: 0 <= i < |name| && IsCased(name[i]) ==>
              (IsUpper(r[i]) <==> i == 0 || !IsCased(name[i - 1]))
  {
    var spaced := ReplaceChar(name, '_', ' ');
    var r := TitleCase(spaced);
    assert forall i :: 0 <= i < |r| ==> r[i] != '_' by {
      forall i | 0 <= i < |r| ensures r[i] != '_' {
        if !IsCased(spaced[i]) {
          assert r[i] == spaced[i];
        }
      }
    }
    assert forall i :: 0 <= i < |name| ==> IsCased(spaced[i]) == IsCased(name[i]);
    r
  }

  /** An optional column (`color`, `size`) is used only when it is set and
      present in the data; otherwise it is dropped without complaint. */
  function Effective(t: Table, c: Option<string>): (r: Option<string>)
    ensures r.Some? <==> Truthy(c) && c.value in Names(t.header)
    ensures r.Some? ==> r == c
  {
    if Truthy(c) && c.value in Names(t.header) then c else None
  }

  /** Both named columns exist (`col in data.columns`). */
  predicate BothPresent(t: Table, a: string, b: string) {
    a in Names(t.header) && b in Names(t.header)
  }

  const NotFound := "Selected columns not found in data"

  /** The shared guards of the bar, line and scatter builders: x and y
      must be set, then both must be columns of the data. */
  function AxesGuard(t: Table, cfg: ChartConfig, chartName: string): (r: Option<Figure>)
    ensures !Truthy(cfg.x) || !Truthy(cfg.y) ==> r == Some(Placeholder("Please select X and Y axes for " + chartName))
    ensures Truthy(cfg.x) && Truthy(cfg.y) && !BothPresent(t, cfg.x.value, cfg.y.value) ==> r == Some(Placeholder(NotFound))
    ensures r.None? <==> Truthy(cfg.x) && Truthy(cfg.y) && BothPresent(t, cfg.x.value, cfg.y.value)
  {
    if !Truthy(cfg.x) || !Truthy(cfg.y) then Some(Placeholder("Please select X and Y axes for " + chartName))
    else if !BothPresent(t, cfg.x.value, cfg.y.value) then Some(Placeholder(NotFound))
    else None
  }

  /** `_create_bar_chart`: never fails. */
  function BarChart(t: Table, cfg: ChartConfig): (r: Result<Figure, string>)
    ensures r.Ok?
    ensures AxesGuard(t, cfg, "bar chart").Some? ==> r.value == AxesGuard(t, cfg, "bar chart").value
    ensures AxesGuard(t, cfg, "bar chart").None? ==>
              r.value.Plot? && r.value.kind == BarPlot && r.value.x == cfg.x.value && r.value.y == cfg.y.value
    ensures r.value.Plot? ==> && BothPresent(t, r.value.x, r.value.y) && r.value.rows == t.rows
                              && r.value.showLegend == Truthy(cfg.color)
                              && r.value.color == Effective(t, cfg.color) && r.value.size == None
  {
    match AxesGuard(t, cfg, "bar chart")
    case Some(p) => Ok(p)
    case None =>
      var x := cfg.x.value;
      var y := cfg.y.value;
      Ok(Plot(BarPlot, "Bar Chart: " + y + " by " + x, x, y, AxisTitle(x), AxisTitle(y),
              Effective(t, cfg.color), None, Truthy(cfg.color), XUnified, t.rows))
  }

  /** `_create_line_chart`: the rows sorted by x. Sorting fails when the x
      column mixes values that Python cannot compare. */
  function LineChart(t: Table, cfg: ChartConfig): (r: Result<Figure, string>)
    requires WellFormed(t)
    ensures AxesGuard(t, cfg, "line chart").Some? ==> r == Ok(AxesGuard(t, cfg, "line chart").value)
    ensures r.Err? <==> AxesGuard(t, cfg, "line chart").None? && !Comparable(Column(t.rows, IndexOf(t.header, cfg.x.value).value))
    ensures r.Ok? && AxesGuard(t, cfg, "line chart").None? ==>
              r.value.Plot? && r.value.kind == LinePlot && r.value.x == cfg.x.value && r.value.y == cfg.y.value
    ensures r.Ok? && r.value.Plot? ==>
              && BothPresent(t, r.value.x, r.value.y)
              && multiset(r.value.rows) == multiset(t.rows)
              && HasColumn(r.value.rows, IndexOf(t.header, r.value.x).value)
              && SortedBy(r.value.rows, IndexOf(t.header, r.value.x).value)
              && r.value.showLegend == Truthy(cfg.color) && r.value.color == Effective(t, cfg.color)
  {
    match AxesGuard(t, cfg, "line chart")
    case Some(p) => Ok(p)
    case None =>
      var x := cfg.x.value;
      var y := cfg.y.value;
      var j := IndexOf(t.header, x).value;
      if !Comparable(Column(t.rows, j)) then Err("x values cannot be compared")
      else
        Ok(Plot(LinePlot, "Line Chart: " + y + " over " + x, x, y, AxisTitle(x), AxisTitle(y),
                Effective(t, cfg.color), None, Truthy(cfg.color), XUnified, SortRows(t.rows, j)))
  }

  /** Plotly's `marker.size` takes only non-negative numbers: a missing
      cell (NaN), a negative number, a string or a timestamp in the size
      column makes `px.scatter` raise. */
  predicate SizesAccepted(cells: seq<Cell>) {
    forall i :: 0 <= i < |cells| ==> cells[i].Num? && cells[i].n >= 0.0
  }

  /** A size column is in use and Plotly refuses its values. */
  predicate SizeRefused(t: Table, cfg: ChartConfig)
    requires WellFormed(t)
  {
    && Effective(t, cfg.size).Some?
    && IndexOf(t.header, cfg.size.value).Some?
    && !SizesAccepted(Column(t.rows, IndexOf(t.header, cfg.size.value).value))
  }

  const InvalidSizes := "size values must be non-negative numbers"

  /** `_create_scatter_chart`. Plotting fails only when the size column
      holds a value Plotly refuses. */
  function ScatterChart(t: Table, cfg: ChartConfig): (r: Result<Figure, string>)
    requires WellFormed(t)
    ensures AxesGuard(t, cfg, "scatter plot").Some? ==> r == Ok(AxesGuard(t, cfg, "scatter plot").value)
    ensures r.Err? <==> AxesGuard(t, cfg, "scatter plot").None? && SizeRefused(t, cfg)
    ensures r.Err? ==> r.error == InvalidSizes
    ensures r.Ok? && AxesGuard(t, cfg, "scatter plot").None? ==>
              r.value.Plot? && r.value.kind == ScatterPlot && r.value.x == cfg.x.value && r.value.y == cfg.y.value
    ensures r.Ok? && r.value.Plot? ==> && BothPresent(t, r.value.x, r.value.y) && r.value.rows == t.rows
                                       && r.value.showLegend == (Truthy(cfg.color) || Truthy(cfg.size))
                                       && r.value.color == Effective(t, cfg.color) && r.value.size == Effective(t, cfg.size)
                                       && r.value.hover == Columns(Names(t.header))
  {
    match AxesGuard(t, cfg, "scatter plot")
    case Some(p) => Ok(p)
    case None =>
      var x := cfg.x.value;
      var y := cfg.y.value;
      if SizeRefused(t, cfg) then Err(InvalidSizes)
      else
        Ok(Plot(ScatterPlot, "Scatter Plot: " + y + " vs " + x, x, y, AxisTitle(x), AxisTitle(y),
                Effective(t, cfg.color), Effective(t, cfg.size), Truthy(cfg.color) || Truthy(cfg.size),
                Columns(Names(t.header)), t.rows))
  }

  /** `_create_pie_chart`: one slice per distinct name, the sum of the
      values of that name's rows. Summing fails unless the values column
      is numeric and distinct from the names column. */
  function PieChart(t: Table, cfg: ChartConfig): (r: Result<Figure, string>)
    requires WellFormed(t)
    ensures !Truthy(cfg.values) || !Truthy(cfg.names) ==> r == Ok(Placeholder("Please select Values and Names for pie chart"))
    ensures Truthy(cfg.values) && Truthy(cfg.names) && !BothPresent(t, cfg.values.value, cfg.names.value) ==>
              r == Ok(Placeholder(NotFound))
    ensures r.Ok? && r.value.Pie? ==> BothPresent(t, r.value.values, r.value.names) && r.value.showLegend
    ensures Truthy(cfg.values) && Truthy(cfg.names) && BothPresent(t, cfg.values.value, cfg.names.value) ==>
              var vi := IndexOf(t.header, cfg.values.value).value;
              var ni := IndexOf(t.header, cfg.names.value).value;
              && (r.Err? <==> vi == ni || t.header[vi].dtype != Numeric)
              && (r.Ok? ==> && r.value.Pie? && r.value.values == cfg.values.value && r.value.names == cfg.names.value
                            && r.value.slices == Grouped(Pairs(t.rows, ni, vi), SumOf))
  {
    if !Truthy(cfg.values) || !Truthy(cfg.names) then Ok(Placeholder("Please select Values and Names for pie chart"))
    else if !BothPresent(t, cfg.values.value, cfg.names.value) then Ok(Placeholder(NotFound))
    else
      var values := cfg.values.value;
      var names := cfg.names.value;
      var vi := IndexOf(t.header, values).value;
      var ni := IndexOf(t.header, names).value;
      if vi == ni then Err("names column is also the values column")
      else if t.header[vi].dtype != Numeric then Err("values are not numeric")
      else Ok(Pie("Pie Chart: " + values + " by " + names, names, values, Grouped(Pairs(t.rows, ni, vi), SumOf), true))
  }

  /** The dispatch on the chart type, inside the `try`. */
  function Build(t: Table, chartType: string, cfg: ChartConfig): (r: Result<Figure, string>)
    requires WellFormed(t)
    ensures chartType !in {"bar", "line", "scatter", "pie"} ==> r == Ok(Placeholder("Unsupported chart type: " + chartType))
    ensures r.Err? ==> chartType in {"line", "scatter", "pie"}
  {
    if chartType == "bar" then BarChart(t, cfg)
    else if chartType == "line" then LineChart(t, cfg)
    else if chartType == "scatter" then ScatterChart(t, cfg)
    else if chartType == "pie" then PieChart(t, cfg)
    else Ok(Placeholder("Unsupported chart type: " + chartType))
  }

  /** `create_chart`: always a figure. */
  function CreateChart(data: Option<Table>, chartType: string, cfg: ChartConfig): (r: Figure)
    requires data.Some? ==> WellFormed(data.value)
    ensures data.None? || IsEmpty(data.value) ==> r == Placeholder("No data available")
    ensures data.Some? && !IsEmpty(data.value) && chartType !in {"bar", "line", "scatter", "pie"} ==>
              r == Placeholder("Unsupported chart type: " + chartType)
    ensures data.Some? && !IsEmpty(data.value) && Build(data.value, chartType, cfg).Err? ==>
              r == Placeholder("Error creating chart: " + Build(data.value, chartType, cfg).error)
    ensures data.Some? && !IsEmpty(data.value) && Build(data.value, chartType, cfg).Ok? ==>
              r == Build(data.value, chartType, cfg).value
  {
    if data.None? || IsEmpty(data.value) then Placeholder("No data available")
    else
      match Build(data.value, chartType, cfg)
      case Ok(fig) => fig
      case Err(e) => Placeholder("Error creating chart: " + e)
  }

  /** `create_histogram`: the only guard is that the column exists. */
  function CreateHistogram(t: Table, column: string): (r: Figure)
    ensures column !in Names(t.header) ==> r == Placeholder("Column not found in data")
    ensures column in Names(t.header) ==>
              r == Histogram("Distribution of " + column, column, AxisTitle(column), "Frequency", false)
  {
    if column !in Names(t.header) then Placeholder("Column not found in data")
    else Histogram("Distribution of " + column, column, AxisTitle(column), "Frequency", false)
  }

  predicate IsNumeric(h: Header) {
    h.dtype == Numeric
  }

  /** The names of the numeric columns (`select_dtypes(include=[np.number])`),
      in column order. */
  function NumericColumns(header: seq<Header>): (r: seq<string>)
    ensures forall n :: n in r <==> exists j :: 0 <= j < |header| && header[j].dtype == Numeric && header[j].name == n
    ensures DistinctNames(header) ==> forall a, b :: 0 <= a < b < |r| ==> r[a] != r[b]
  {
    NumericNames(header);
    KeepDistinctNames(header, IsNumeric);
    Names(Keep(header, IsNumeric))
  }

  lemma NumericNames(header: seq<Header>)
    ensures forall n :: n in Names(Keep(header, IsNumeric)) <==>
              exists j :: 0 <= j < |header| && header[j].dtype == Numeric && header[j].name == n
  {
    var ks := Keep(header, IsNumeric);
    var r := Names(ks);
    forall n ensures n in r <==> exists j :: 0 <= j < |header| && header[j].dtype == Numeric && header[j].name == n {
      if n in r {
        var i :| 0 <= i < |r| && r[i] == n;
        assert ks[i] in ks;
      }
      if j :| 0 <= j < |header| && header[j].dtype == Numeric && header[j].name == n {
        assert header[j] in header && IsNumeric(header[j]);
        var i :| 0 <= i < |ks| && ks[i] == header[j];
        assert r[i] == n;
      }
    }
  }

  /** The guard of `create_correlation_heatmap`; the correlation itself is
      not modelled. */
  function CorrelationHeatmap(t: Table): (r: Figure)
    ensures |NumericColumns(t.header)| < 2 <==> r == Placeholder("Need at least 2 numeric columns for correlation")
    ensures |NumericColumns(t.header)| >= 2 <==> r.Heatmap?
    ensures r.Heatmap? <==> |Keep(t.header, IsNumeric)| >= 2
    ensures r.Heatmap? ==> r.columns == NumericColumns(t.header) && forall n :: n in r.columns ==> n in Names(t.header)
  {
    var cols := NumericColumns(t.header);
    if |cols| < 2 then Placeholder("Need at least 2 numeric columns for correlation")
    else Heatmap(cols)
  }

  // ---- properties ----

  /** Title-casing an axis title again changes nothing. */
  lemma AxisTitleIdempotent(name: string)
    ensures AxisTitle(AxisTitle(name)) == AxisTitle(name)
  {
    var r := AxisTitle(name);
    ReplaceAbsent(r, '_', ' ');
    TitleCaseIdempotent(ReplaceChar(name, '_', ' '));
  }

  /** For bar, line and scatter an unset axis is reported before anything
      about the data is looked at: the same placeholder whatever columns
      the table has. */
  lemma UnsetAxisReportedFirst(t: Table, chartType: string, cfg: ChartConfig)
    requires WellFormed(t) && !IsEmpty(t)
    requires !Truthy(cfg.x) || !Truthy(cfg.y)
    ensures chartType == "bar" ==> CreateChart(Some(t), chartType, cfg) == Placeholder("Please select X and Y axes for bar chart")
    ensures chartType == "line" ==> CreateChart(Some(t), chartType, cfg) == Placeholder("Please select X and Y axes for line chart")
    ensures chartType == "scatter" ==> CreateChart(Some(t), chartType, cfg) == Placeholder("Please select X and Y axes for scatter plot")
  {
    if chartType == "bar" {
      assert Build(t, chartType, cfg) == BarChart(t, cfg);
    } else if chartType == "line" {
      assert Build(t, chartType, cfg) == LineChart(t, cfg);
    } else if chartType == "scatter" {
      assert Build(t, chartType, cfg) == ScatterChart(t, cfg);
    }
  }

  /** The titles, the axis titles and the legend flag depend only on the
      chart type and the configuration: two tables that both yield a chart
      yield the same ones. */
  lemma ConfigDeterminesTitles(t1: Table, t2: Table, chartType: string, cfg: ChartConfig)
    requires WellFormed(t1) && WellFormed(t2) && !IsEmpty(t1) && !IsEmpty(t2)
    ensures var f1 := CreateChart(Some(t1), chartType, cfg);
            var f2 := CreateChart(Some(t2), chartType, cfg);
            && (f1.Plot? && f2.Plot? ==>
                  f1.title == f2.title && f1.xTitle == f2.xTitle && f1.yTitle == f2.yTitle
                  && f1.showLegend == f2.showLegend && f1.kind == f2.kind)
            && (f1.Pie? && f2.Pie? ==> f1.title == f2.title && f1.names == f2.names && f1.values == f2.values)
  {
    ChartTitles(t1, chartType, cfg);
    ChartTitles(t2, chartType, cfg);
  }

  /** The chart titles, spelled out. */
  lemma ChartTitles(t: Table, chartType: string, cfg: ChartConfig)
    requires WellFormed(t) && !IsEmpty(t)
    ensures var f := CreateChart(Some(t), chartType, cfg);
            && (f.Plot? && chartType == "bar" ==> f.title == "Bar Chart: " + cfg.y.value + " by " + cfg.x.value)
            && (f.Plot? && chartType == "line" ==> f.title == "Line Chart: " + cfg.y.value + " over " + cfg.x.value)
            && (f.Plot? && chartType == "scatter" ==> f.title == "Scatter Plot: " + cfg.y.value + " vs " + cfg.x.value)
            && (f.Pie? ==> f.title == "Pie Chart: " + cfg.values.value + " by " + cfg.names.value)
            && (f.Plot? ==> f.xTitle == AxisTitle(cfg.x.value) && f.yTitle == AxisTitle(cfg.y.value))
            && (f.Plot? ==> chartType in {"bar", "line", "scatter"})
            && (f.Plot? ==> f.kind == if chartType == "bar" then BarPlot else if chartType == "line" then LinePlot else ScatterPlot)
            && (f.Plot? ==> f.showLegend == if chartType == "scatter" then Truthy(cfg.color) || Truthy(cfg.size) else Truthy(cfg.color))
            && (f.Pie? ==> chartType == "pie")
  {
    if chartType == "bar" {
    } else if chartType == "line" {
    } else if chartType == "scatter" {
    } else if chartType == "pie" {
    }
  }

  /** A colour column that is set but absent from the data is dropped from
      a bar chart, yet the legend is still switched on. */
  lemma AbsentColorStillShowsLegend(t: Table, cfg: ChartConfig)
    requires WellFormed(t) && !IsEmpty(t)
    requires Truthy(cfg.x) && Truthy(cfg.y) && BothPresent(t, cfg.x.value, cfg.y.value)
    requires Truthy(cfg.color) && cfg.color.value !in Names(t.header)
    ensures var f := CreateChart(Some(t), "bar", cfg);
            f.Plot? && f.color == None && f.showLegend
  {
  }

  /** The line chart shows the input rows sorted by x, missing x values last. */
  lemma LineRowsSorted(t: Table, cfg: ChartConfig)
    requires WellFormed(t) && !IsEmpty(t)
    requires CreateChart(Some(t), "line", cfg).Plot?
    ensures var f := CreateChart(Some(t), "line", cfg);
            var j := IndexOf(t.header, cfg.x.value).value;
            && IndexOf(t.header, cfg.x.value).Some?
            && f.x == cfg.x.value
            && multiset(f.rows) == multiset(t.rows)
            && HasColumn(f.rows, j)
            && (forall a, b :: 0 <= a < b < |f.rows| && f.rows[a][j].Missing? ==> f.rows[b][j].Missing?)
            && (forall a, b :: 0 <= a < b < |f.rows| && f.rows[a][j].Num? && f.rows[b][j].Num? ==> f.rows[a][j].n <= f.rows[b][j].n)
  {
    var f := CreateChart(Some(t), "line", cfg);
    var j := IndexOf(t.header, cfg.x.value).value;
    assert SortedBy(f.rows, j);
  }

  /** The pie chart has one slice per distinct non-missing name, each
      valued at the sum of the values of that name's rows, and the slices
      add up to the sum of the values of all rows that have a name. */
  lemma PieSlices(t: Table, cfg: ChartConfig)
    requires WellFormed(t) && !IsEmpty(t)
    requires CreateChart(Some(t), "pie", cfg).Pie?
    ensures var f := CreateChart(Some(t), "pie", cfg);
            var ni := IndexOf(t.header, cfg.names.value).value;
            var vi := IndexOf(t.header, cfg.values.value).value;
            var ps := Pairs(t.rows, ni, vi);
            && IndexOf(t.header, cfg.names.value).Some? && IndexOf(t.header, cfg.values.value).Some?
            && (forall a, b :: 0 <= a < b < |f.slices| ==> f.slices[a].0 != f.slices[b].0)
            && (forall k :: (exists i :: 0 <= i < |f.slices| && f.slices[i].0 == k) <==> k != Missing && KeyOccurs(ps, k))
            && (forall i :: 0 <= i < |f.slices| ==> f.slices[i].1 == Num(Total(Results(GroupOf(ps, f.slices[i].0)))))
            && Total(Results(f.slices)) == Total(KeyedValues(ps))
  {
    var f := CreateChart(Some(t), "pie", cfg);
    var ni := IndexOf(t.header, cfg.names.value).value;
    var vi := IndexOf(t.header, cfg.values.value).value;
    var ps := Pairs(t.rows, ni, vi);
    assert f.slices == Grouped(ps, SumOf);
    SliceValues(ps);
    SliceKeys(ps);
    GroupedSumsAddUp(ps);
  }

  lemma SliceValues(ps: seq<Pair>)
    ensures var gs := Grouped(ps, SumOf);
            forall i :: 0 <= i < |gs| ==> gs[i].1 == Num(Total(Results(GroupOf(ps, gs[i].0))))
  {
    var gs := Grouped(ps, SumOf);
    forall i | 0 <= i < |gs| ensures gs[i].1 == Num(Total(Results(GroupOf(ps, gs[i].0)))) {
      GroupedValue(ps, SumOf, i);
    }
  }

  lemma SliceKeys(ps: seq<Pair>)
    ensures var gs := Grouped(ps, SumOf);
            forall k :: (exists i :: 0 <= i < |gs| && gs[i].0 == k) <==> k != Missing && KeyOccurs(ps, k)
  {
    var gs := Grouped(ps, SumOf);
    var ks := Keys(ps);
    forall k ensures (exists i :: 0 <= i < |gs| && gs[i].0 == k) <==> k != Missing && KeyOccurs(ps, k) {
      if k in ks {
        var i :| 0 <= i < |ks| && ks[i] == k;
        assert gs[i].0 == k;
      }
    }
  }

  /** A size column with an empty cell (NaN in pandas) makes `create_chart`
      return the error placeholder instead of a scatter plot. */
  lemma SizeGapIsRefused(t: Table, cfg: ChartConfig, i: nat)
    requires WellFormed(t) && !IsEmpty(t)
    requires Truthy(cfg.x) && Truthy(cfg.y) && BothPresent(t, cfg.x.value, cfg.y.value)
    requires Truthy(cfg.size) && cfg.size.value in Names(t.header)
    requires IndexOf(t.header, cfg.size.value).Some? && i < |t.rows|
    requires t.rows[i][IndexOf(t.header, cfg.size.value).value].Missing?
    ensures CreateChart(Some(t), "scatter", cfg) == Placeholder("Error creating chart: " + InvalidSizes)
  {
    var j := IndexOf(t.header, cfg.size.value).value;
    assert Column(t.rows, j)[i].Missing?;
  }
}
