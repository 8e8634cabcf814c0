# DataVizHub data processing and chart building, in Dafny

DataVizHub is a small Streamlit dashboard. A user uploads a CSV or Excel file. The
`DataProcessor` class loads and cleans it, then filters and aggregates it, and the
`ChartGenerator` class turns the result into a Plotly figure. This project models
those two classes on an explicit table type and proves what each step promises.

- `frame.dfy` (module `Frame`): the table. It has named, typed columns. Each cell is
  a number, a string, a timestamp or missing (pandas' NaN/NaT). The module also holds
  the boolean-mask operation `Keep` and its algebra.
- `text.dfy` (module `Text`): `str.lower`, `str.replace` and `str.title` over ASCII.
- `ordering.dfy` (module `Ordering`): the order `sort_values` uses, missing values
  last, and a sort proved sorted and a permutation.
- `grouping.dfy` (module `Grouping`): `groupby(key)[value].<reducer>()` over
  (key, value) pairs, for count, sum, mean, min and max.
- `loading.dfy` (module `Loading`): `load_data`. It dispatches on the lower-cased
  extension, retries a CSV in Latin-1 after a Unicode failure, cleans the data and
  wraps every error.
- `cleaning.dfy` (module `Cleaning`): `_clean_data`. It drops all-missing rows, then
  all-missing columns. A numeric pass and a datetime pass follow. Each pass promotes a
  text column when more than half of it converts. `CleanData` keeps the source's two
  loops; each column step is the method `NumericStep` or `DateStep`. The method is
  proved against `CleanedFrom`: both passes applied to each surviving column.
- `filtering.dfy` (module `Filtering`): `apply_filters`. Filters are applied in the
  dictionary's order. A list filter is `isin`, a 2-tuple filter an inclusive range.
  Other values, and columns not in the table, are ignored.
- `aggregation.dfy` (module `Aggregation`): `aggregate_data`, with its errors and the
  `<function>_<column>` result name.
- `column_info.dfy` (module `ColumnSummary`): `get_column_info`.
- `chart_generator.dfy` (module `ChartGenerator`): `create_chart` and the bar, line,
  scatter and pie builders. Also the placeholder figure, `create_histogram` and the
  guard of `create_correlation_heatmap`.

Pandas behaviour the model follows:

- `isin` matches a missing cell when the list holds a missing value.
- Group-by drops rows whose key is missing.
- The sum of a group without numbers is 0.
- Pandas returns groups sorted by key. The model builds them in first-appearance
  order, and no contract depends on the order.
- Plotly's `marker.size` accepts only non-negative numbers, so a scatter plot whose
  size column holds an empty cell (NaN), a negative number, text or a timestamp
  raises, and `create_chart` returns its error placeholder.

`_clean_data` drops empty rows before it converts columns. A row that only held
unconvertible text can therefore come out all missing once its column is promoted.
`Cleaning.RowCanBecomeEmptyAfterPromotion` shows such a table. The code does not
promise otherwise, so this is documented behaviour, not a defect.

## Model

| member | source | states |
|---|---|---|
| Loading.LastSegment | utils/data_processor.py:19 | the result is the text after the last dot, with no dot in it, or the whole name when there is none |
| Loading.Extension | utils/data_processor.py:19 | the extension holds no dot and no upper-case letter; with ExtensionAfterLastDot and NameWithoutDot it is the lower-cased text after the last dot |
| Loading.LastSegmentAfterDot | utils/data_processor.py:19 | `stem.ext` with a dot-free `ext` has last segment `ext`, whatever dots the stem contains |
| Loading.ExtensionAfterLastDot | utils/data_processor.py:19 | the extension of `stem.ext` is `ext` lower-cased |
| Loading.NameWithoutDot | utils/data_processor.py:19 | a name without a dot is its own (lower-cased) extension |
| Loading.UpperCaseExtensions | utils/data_processor.py:19 | `.CSV`, `.XLSX` and `.Xls` select the CSV and Excel readers |
| Loading.ReaderFor | utils/data_processor.py:21-32 | `csv` selects the CSV reader; `xlsx` and `xls` select Excel; every other extension fails with "Unsupported file format: ext" |
| Loading.ReadCsv | utils/data_processor.py:23-27 | a UTF-8 read that fails on decoding is retried in Latin-1; any other UTF-8 outcome is kept |
| Loading.ReadFile | utils/data_processor.py:19-32 | an unsupported extension gives the dispatch error. Otherwise the chosen reader decides: CSV (with its retry) for `csv`, Excel for `xlsx`/`xls`. The read succeeds exactly when that reader parses, returns the parsed table (well formed), and passes a reader's failure message through unchanged |
| Loading.UnsupportedRead | utils/data_processor.py:29-32 | an unsupported extension is refused with "Unsupported file format: ext" before any reader runs |
| Loading.LoadData | utils/data_processor.py:8-40 | it succeeds exactly when reading succeeds, and then returns the cleaned table; every error comes back as "Error loading file: " + cause |
| Cleaning.AsNumbers | utils/data_processor.py:59 | coercion cell by cell: a cell that does not convert becomes missing |
| Cleaning.AsDates | utils/data_processor.py:70 | coercion cell by cell: a cell that does not parse becomes missing |
| Cleaning.Promote | utils/data_processor.py:60-63 | the column keeps its name and length; it is either unchanged or, for a text column only, replaced by its conversion under the target dtype, and a replaced column holds a converted value |
| Cleaning.NumericPass | utils/data_processor.py:57-63 | a non-text column is unchanged; otherwise the column is unchanged or becomes numeric holding `to_numeric` of its cells |
| Cleaning.DatePass | utils/data_processor.py:67-76 | a non-text column, or one whose parse raises, is unchanged; otherwise the column is unchanged or becomes datetime holding the parsed cells |
| Cleaning.PromoteThreshold | utils/data_processor.py:60-63 | a text column is replaced by its conversion exactly when 2 × (converted count) > row count; otherwise it is unchanged |
| Cleaning.RatioAboveHalf | utils/data_processor.py:62 | the real-valued ratio test `p / n > 0.5` is the same as `2p > n` |
| Cleaning.HalfConvertingStaysText | utils/data_processor.py:62 | a column where exactly half the cells convert is not promoted (strictly more than 50%) |
| Cleaning.CleanColumn | utils/data_processor.py:56-74 | both passes keep a column's name and length, and keep every cell fitting the column's dtype |
| Cleaning.NumericPromotionIsFinal | utils/data_processor.py:56-67 | a column promoted to numbers is skipped by the datetime pass; its cells are the numeric conversions |
| Cleaning.DatePromotionRule | utils/data_processor.py:66-76 | a text column still text after the numeric pass becomes datetime exactly when parsing does not raise and more than half parses; a raising parse leaves it alone |
| Cleaning.NonTextColumnUnchanged | utils/data_processor.py:57-67 | numeric and datetime columns pass through both loops unchanged |
| Cleaning.CleanColumnKeepsAValue | utils/data_processor.py:60-74 | a column with a value still has one after cleaning (promotion needs a non-missing conversion) |
| Cleaning.NonEmptyColumns | utils/data_processor.py:53 | the kept column positions are increasing, each column holds a value, and every column holding a value is kept |
| Cleaning.KeptRows | utils/data_processor.py:53 | the kept rows are a subsequence of the rows. A row holding a value keeps every copy; an all-missing row keeps none |
| Cleaning.KeptColumns | utils/data_processor.py:53 | the kept column positions are increasing, and a column is kept exactly when it has a value among the kept rows |
| Cleaning.DropEmpty | utils/data_processor.py:53 | dropping empty rows and then empty columns leaves a well-formed table of the kept rows and columns |
| Cleaning.DropEmptyShape | utils/data_processor.py:53 | each cell of the result is the cell of its kept row and kept column |
| Cleaning.DroppedRowsHaveValues | utils/data_processor.py:53 | no row of the result is all missing |
| Cleaning.DroppedColumnsHaveValues | utils/data_processor.py:53 | no column of the result is all missing, and every column with a value among the kept rows survives |
| Cleaning.DropKeepsFullTable | utils/data_processor.py:53 | a table without empty rows or columns is left as it is |
| Cleaning.SetColumn | utils/data_processor.py:63 | `data[col] = series` replaces column j's header and cells and nothing else |
| Cleaning.ColumnAfterSet | utils/data_processor.py:63 | after the assignment, column j is the new series and every other column is unchanged |
| Cleaning.CleanData | utils/data_processor.py:42-78 | the result is the empty-dropped table with each column cleaned by both passes in order; it is well formed |
| Cleaning.CleanedColumnsHaveValues | utils/data_processor.py:42-78 | after cleaning, no column is all missing |
| Cleaning.RowCanBecomeEmptyAfterPromotion | utils/data_processor.py:53-63 | a one-column table that the drop step keeps whole; promoting its column turns the row holding "x" into a missing cell |
| Filtering.Passes | utils/data_processor.py:94-104 | an entry for an absent column or with an unrecognised value keeps every row; a list keeps the rows whose cell is listed; a pair keeps the rows whose cell is a number within the inclusive bounds |
| Filtering.IsIn | utils/data_processor.py:97 | a kept row's cell is in the list; a missing cell is kept when the list holds a missing value; an empty list keeps nothing |
| Filtering.InRange | utils/data_processor.py:101-104 | a kept cell is a number between the bounds; a missing cell, text or a timestamp is never inside; an inverted range keeps nothing |
| Filtering.RangeClash | utils/data_processor.py:98-104 | only a range entry on an existing column can raise; one on a datetime column always raises; with no rows left only a datetime column raises |
| Filtering.Clashes | utils/data_processor.py:93-104 | the call can raise only through a range entry on an existing column |
| Filtering.Survivors | utils/data_processor.py:93-104 | applying the filters in order never adds rows |
| Filtering.SurvivorsPassAll | utils/data_processor.py:93-104 | filtering one entry after another equals one mask: the rows that pass every entry |
| Filtering.FilteredRows | utils/data_processor.py:93-104 | the survivors are a subsequence of the rows; each passes every entry; each passing row keeps all its copies, the others none |
| Filtering.IgnoredEntry | utils/data_processor.py:94-99 | an entry for an absent column, or with neither a list nor a pair, can be inserted anywhere without changing the result |
| Filtering.ClashPersists | utils/data_processor.py:93-104 | once a range filter has failed, the whole call fails |
| Filtering.ApplyFilters | utils/data_processor.py:80-106 | it succeeds exactly when no range filter meets a column it cannot compare; then the header is kept and the rows are the survivors; otherwise the error names the first failing column; no filters returns the table unchanged |
| Filtering.NumericRangesNeverClash | utils/data_processor.py:98-104 | range filters on numeric columns never fail |
| Filtering.KeepRowFits | utils/data_processor.py:91-106 | every surviving row still fits the header |
| Grouping.ParseReducer | utils/data_processor.py:122-133 | exactly count, sum, mean, min and max are recognised, each naming its own reducer |
| Grouping.Pairs | utils/data_processor.py:123 | the (key, value) pair of every row, in row order |
| Grouping.Keys | utils/data_processor.py:123 | the groups are distinct, and they are exactly the non-missing keys that occur |
| Grouping.Grouped | utils/data_processor.py:122-131 | one result per group key, in the order of the keys |
| Grouping.GroupOf | utils/data_processor.py:123 | a group's rows are exactly the pairs carrying its key: a mask on the key |
| Grouping.ValuesAreGroupTargets | utils/data_processor.py:123 | the values a group is reduced over are the targets of exactly its rows, in row order |
| Grouping.GroupedValue | utils/data_processor.py:122-131 | each group's result is the reducer applied to the targets of the rows carrying that group's key, in row order |
| Grouping.Reduce | utils/data_processor.py:122-131 | a result is missing exactly for mean, min and max over no numbers; count is the number of present cells, 0 exactly when all are missing; sum is 0 over no numbers; the mean times the number count is the total; min and max are among the cells and bound every number |
| Grouping.NumCountMeaning | utils/data_processor.py:127 | the count of numbers is 0 exactly when no cell is a number, and the total is then 0 |
| Grouping.Smallest | utils/data_processor.py:129 | the minimum is one of the numbers and bounds them all from below; none when there are no numbers |
| Grouping.Largest | utils/data_processor.py:131 | the maximum is one of the numbers and bounds them all from above; none when there are no numbers |
| Grouping.CountIsRowCount | utils/data_processor.py:123 | a group's count is the number of its rows whose value is not missing |
| Grouping.GroupTotalsAddUp | utils/data_processor.py:125 | the group totals add up to the total of every keyed value |
| Grouping.GroupedSumsAddUp | utils/data_processor.py:125 | the sums a grouped sum produces add up to the total of every keyed value |
| Aggregation.ResultName | utils/data_processor.py:136 | the result column is named function, underscore, column |
| Aggregation.GroupRows | utils/data_processor.py:123-136 | `reset_index` gives one two-cell row per group: key, result |
| Aggregation.Aggregate | utils/data_processor.py:121-136 | the errors come in order: unknown function, missing group column, missing target column, group column used as target. Aggregation succeeds exactly when the function is known, both columns exist and differ, and the target is numeric unless counting. A result has the header [group column, function_column] and two cells per row |
| Aggregation.AggregateData | utils/data_processor.py:121-141 | it fails exactly when the aggregation fails, with "Error in aggregation: " + cause; an unknown function gives "Unsupported aggregation function: f"; on success it returns the aggregated table itself |
| Aggregation.Explain | utils/data_processor.py:133-141 | an unknown function is explained as "Unsupported aggregation function: " followed by its name; every other failure by the column concerned |
| Aggregation.AggregateRows | utils/data_processor.py:122-133 | one row per distinct non-missing key that occurs, with the reducer applied to the targets of exactly that key's rows, in row order |
| Aggregation.CountCountsRows | utils/data_processor.py:123 | count gives each group the number of its rows with a value |
| Aggregation.SumsAddUp | utils/data_processor.py:125 | the sum column adds up to the total of every keyed value |
| Aggregation.AggregateWellFormed | utils/data_processor.py:136 | the result is a well-formed table when its two names differ |
| Aggregation.SampleSum | utils/data_processor.py:125-136 | summing Value by Category over A 100, B 150, A 120 gives A 220, B 150 under `sum_Value` |
| ColumnSummary.DistinctValues | utils/data_processor.py:159 | `nunique` counts each non-missing value once and at most the number of present cells |
| ColumnSummary.Head | utils/data_processor.py:160 | `head(n)` is the first min(n, length) cells |
| ColumnSummary.InfoOf | utils/data_processor.py:156-166 | nulls plus present cells is the length; the unique count is the number of distinct non-missing values; the sample is the first three cells; stats exist exactly for numeric columns |
| ColumnSummary.StatsBracket | utils/data_processor.py:163-166 | min and max are numbers of the column and bracket every number in it; the mean lies between them; all three are missing exactly when there is no number |
| ColumnSummary.MeanWithin | utils/data_processor.py:166 | the mean of numbers that all lie in [lo, hi] lies in [lo, hi] |
| ColumnSummary.GetColumnInfo | utils/data_processor.py:153-170 | one entry per column name, no others, each the summary of that column |
| Ordering.CellLeTotal | utils/chart_generator.py:85 | any two cells are ordered one way or the other |
| Ordering.CellLeTransitive | utils/chart_generator.py:85 | the order is transitive |
| Ordering.SortRows | utils/chart_generator.py:85 | `sort_values(by=col)` returns the same rows, as a multiset, ascending by that column |
| Text.Lower | utils/data_processor.py:19 | `str.lower` lower-cases each letter in place |
| Text.ReplaceChar | utils/chart_generator.py:66-67 | `str.replace` on one character replaces exactly its occurrences |
| Text.TitleCase | utils/chart_generator.py:66-67 | `str.title`: a letter is upper case exactly when the character immediately before it is not cased, that is not a letter, or it is the first character; other characters are unchanged |
| Text.TitleCaseIdempotent | utils/chart_generator.py:66-67 | title-casing a title-cased string changes nothing |
| Frame.IndexOf | utils/data_processor.py:94 | `column in data.columns`: absent exactly when no column has the name, else the position of one that has it |
| Frame.Present | utils/data_processor.py:62 | `notna().sum()` is at most the length and is zero exactly when every cell is missing |
| Frame.Keep | utils/data_processor.py:97 | a boolean mask keeps exactly the accepted elements, never more |
| Frame.KeepCounts | utils/data_processor.py:97 | a mask keeps all copies of the rows it accepts and none of the others |
| Frame.KeepKeep | utils/data_processor.py:101-104 | two masks in turn are one mask of their conjunction |
| Frame.KeepDistinctNames | utils/chart_generator.py:208 | selecting columns with a mask keeps their names distinct |
| Frame.KeepAppend | utils/data_processor.py:97 | a mask over two parts is the masked parts joined |
| ChartGenerator.AxisTitle | utils/chart_generator.py:66-67 | each underscore becomes a space and other uncased characters stay. A letter keeps its identity and is upper case exactly when it starts a word: it is first, or follows an uncased character |
| ChartGenerator.AxisTitleIdempotent | utils/chart_generator.py:66-67 | making an axis title from an axis title changes nothing |
| ChartGenerator.Effective | utils/chart_generator.py:57 | a colour (or size) column is used exactly when it is set, non-empty and present |
| ChartGenerator.AxesGuard | utils/chart_generator.py:46-50 | an unset axis gives "Please select X and Y axes for …"; a missing column gives "Selected columns not found in data"; otherwise it lets the chart through |
| ChartGenerator.BarChart | utils/chart_generator.py:40-70 | a failed guard gives its placeholder. Once the guards pass, a bar plot of the configured x against the configured y is drawn over all rows, with the colour column when it is usable and a legend whenever a colour was set |
| ChartGenerator.LineChart | utils/chart_generator.py:72-106 | a failed guard gives its placeholder. Once the guards pass it fails exactly when the x values cannot be compared; otherwise a line plot of the configured x and y over the same rows sorted by x |
| ChartGenerator.ScatterChart | utils/chart_generator.py:108-140 | a failed guard gives its placeholder. Once the guards pass it fails exactly when the size column in use holds a value Plotly refuses (anything but a non-negative number); otherwise a scatter plot of the configured x and y over all rows, hovering every column, with a legend when colour or size was set |
| ChartGenerator.SizeGapIsRefused | utils/chart_generator.py:122-131 | a size column with an empty cell turns the scatter plot into the "Error creating chart: …" placeholder |
| ChartGenerator.PieChart | utils/chart_generator.py:142-184 | an unset field or a missing column gives its placeholder. Once both columns exist it fails exactly when they are the same column or the values are not numeric; otherwise a pie of the configured names and values, one slice per grouped sum, with a legend |
| ChartGenerator.Build | utils/chart_generator.py:26-35 | an unknown chart type gives the "Unsupported chart type: …" placeholder without failing; only the line, scatter and pie builders can fail |
| ChartGenerator.CreateChart | utils/chart_generator.py:10-38 | no data gives "No data available"; an unknown type gives "Unsupported chart type: …"; a failing builder gives "Error creating chart: …"; otherwise the builder's figure |
| ChartGenerator.UnsetAxisReportedFirst | utils/chart_generator.py:22-50 | an unset axis is reported by the bar, line and scatter builders before anything else |
| ChartGenerator.ChartTitles | utils/chart_generator.py:58 | the titles are "Bar Chart: y by x", "Line Chart: y over x", "Scatter Plot: y vs x" and "Pie Chart: values by names"; the axis titles come from the column names |
| ChartGenerator.ConfigDeterminesTitles | utils/chart_generator.py:58 | two tables given the same configuration get the same titles, kind and legend setting |
| ChartGenerator.AbsentColorStillShowsLegend | utils/chart_generator.py:57-64 | a colour column that is set but absent is not used, yet the legend is shown |
| ChartGenerator.LineRowsSorted | utils/chart_generator.py:85 | the line chart's rows are a permutation with missing x values last and numeric x values ascending |
| ChartGenerator.PieSlices | utils/chart_generator.py:154 | one slice per distinct non-missing name; each slice is the sum of the values of exactly that name's rows; the slices add up to the total of all named rows |
| ChartGenerator.CreateHistogram | utils/chart_generator.py:227-245 | an absent column gives "Column not found in data"; otherwise the histogram of that column titled "Distribution of column" |
| ChartGenerator.NumericColumns | utils/chart_generator.py:208 | exactly the names of the numeric columns, each once when the column names are distinct |
| ChartGenerator.NumericNames | utils/chart_generator.py:208 | the names of the columns a numeric mask keeps are exactly the numeric columns' names |
| ChartGenerator.CorrelationHeatmap | utils/chart_generator.py:206-211 | the heatmap is drawn exactly when the numeric-dtype mask keeps at least two columns, over exactly their names; otherwise the "Need at least 2 numeric columns" placeholder |

## Left out

- Reading CSV and Excel bytes is not modelled. Each read is a parameter of `Loading.Upload`: a function from encoding to parsed table or failure.
- `pd.to_numeric` and `pd.to_datetime` are parameters (`Cleaning.Coercions`). A raising datetime parse, caught by the bare `except`, is a predicate on the column.
- Floating point is modelled as exact reals. The mean and the 50% test are computed without rounding.
- Text.TitleCase: only ASCII letters are cased; Python's Unicode case rules are not modelled.
- Text.Lower: only ASCII letters are cased.
- Aggregation.Aggregate: sum, mean, min and max on a non-numeric column are an error in the model. Pandas concatenates strings for sum, compares strings for min and max, and fails for mean. On a datetime column pandas returns the earliest and latest timestamps for min and max, and the model reports an error.
- Aggregation.Explain: the text of the pandas exceptions is not reproduced. The cause is the offending column name.
- Aggregation.AggregateRows: the order of the groups is not stated. Pandas sorts them by key.
- Grouping.Keys: groups come in first-appearance order, not sorted.
- ChartGenerator.PieChart: a values column whose dtype is not numeric is an error in the model. Pandas sums an object column without complaint and hands the result to `px.pie`: it concatenates strings, and adds numbers held as objects. The model does not follow that path.
- ChartGenerator.PieChart: the error texts "names column is also the values column" and "values are not numeric" are the model's own; the `str(e)` pandas would give differs.
- ChartGenerator.LineChart: the error text "x values cannot be compared" is the model's own; the `str(e)` of pandas' TypeError differs.
- Filtering.ApplyFilters: range bounds are reals. The source accepts any 2-tuple, and pandas compares string or timestamp bounds with a text or datetime column. The model treats every range over text or dates as a failed comparison.
- Cleaning.AsDates: each cell is parsed on its own. With `infer_datetime_format=True` pandas guesses one format from the column, so one cell's result can depend on the others.
- ChartGenerator.ScatterChart: the error text "size values must be non-negative numbers" is the model's own; Plotly's `str(e)` differs. The refusal follows Plotly's `marker.size` validator (numbers, minimum 0) and is not modelled beyond it.
- ChartGenerator.LineChart: the order of rows with equal x values is not fixed, because pandas' default quicksort is not stable.
- Plotly rendering, layout, legend placement and hover templates are not modelled. A figure is a record of what the code decides: kind, titles, columns, legend flag and rows.
- `_create_empty_chart` is the `Placeholder` figure. Its styling is not modelled.
- The correlation matrix of `create_correlation_heatmap` is not computed; only its guard and column choice are.
- ColumnSummary.InfoOf: the dtype is reported as the three-way `Dtype`, not as pandas' dtype string. Every numeric dtype counts as `int64` or `float64`.
- `data.copy()` and the absence of in-place mutation follow from value semantics and need no contract.
- `app.py` and `utils/export_helper.py` (the Streamlit page and file export) are not part of this model.
