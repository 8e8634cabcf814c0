/** The table that flows through the pipeline: an ordered list of named,
    typed columns stored row by row, as a pandas DataFrame holds it. */
module Frame {

  datatype Option<+T> = None | Some(value: T)

  datatype Result<+T, +E> = Ok(value: T) | Err(error: E)

  /** One cell: pandas' NaN/NaT, a float, a string, or a timestamp
      (nanoseconds since the epoch). */
  datatype Cell = Missing | Num(n: real) | Text(s: string) | Date(stamp: int)

  /** The three dtypes the loader distinguishes: 'object' (text or mixed),
      a number dtype, and datetime64. */
  datatype Dtype = Object | Numeric | Datetime

  datatype Header = Header(name: string, dtype: Dtype)

  type Row = seq<Cell>

  datatype Table = Table(header: seq<Header>, rows: seq<Row>)

  /** A numeric column holds only numbers and NaN, a datetime column only
      timestamps and NaT; an object column may hold anything. */
  predicate Fits(dtype: Dtype, c: Cell) {
    match dtype
    case Object => true
    case Numeric => c.Missing? || c.Num?
    case Datetime => c.Missing? || c.Date?
  }

  predicate RowFits(header: seq<Header>, row: Row) {
    |row| == |header| && forall j :: 0 <= j < |row| ==> Fits(header[j].dtype, row[j])
  }

  predicate DistinctNames(header: seq<Header>) {
    forall a, b :: 0 <= a < b < |header| ==> header[a].name != header[b].name
  }

  /** Rectangular, with unique column names and every cell fitting its column's dtype. */
  predicate WellFormed(t: Table) {
    DistinctNames(t.header) && forall i :: 0 <= i < |t.rows| ==> RowFits(t.header, t.rows[i])
  }

  /** Every row is long enough to have a cell at column j. */
  predicate HasColumn(rows: seq<Row>, j: nat) {
    forall i :: 0 <= i < |rows| ==> j < |rows[i]|
  }

  function Names(header: seq<Header>): (r: seq<string>)
    ensures |r| == |header| && forall j :: 0 <= j < |header| ==> r[j] == header[j].name
  {
    seq(|header|, j requires 0 <= j < |header| => header[j].name)
  }

  /** Position of the column called `name` (pandas' `name in data.columns`
      followed by `data[name]`). */
  function IndexOf(header: seq<Header>, name: string): (r: Option<nat>)
    ensures r.Some? ==> r.value < |header| && header[r.value].name == name
    ensures r.None? <==> forall k :: 0 <= k < |header| ==> header[k].name != name
  {
    if header == [] then None
    else if header[0].name == name then Some(0)
    else match IndexOf(header[1..], name)
      case None => assert forall k :: 1 <= k < |header| ==> header[k] == header[1..][k - 1]; None
      case Some(k) => Some(k + 1)
  }

  /** With unique names the position is the only one that carries the name. */
  lemma IndexOfUnique(header: seq<Header>, name: string, j: nat)
    requires DistinctNames(header)
    requires j < |header| && header[j].name == name
    ensures IndexOf(header, name) == Some(j)
  {
  }

  /** The cells of column j, top to bottom (pandas' `data[col]`). */
  function Column(rows: seq<Row>, j: nat): (c: seq<Cell>)
    requires HasColumn(rows, j)
    ensures |c| == |rows| && forall i :: 0 <= i < |rows| ==> c[i] == rows[i][j]
  {
    seq(|rows|, i requires 0 <= i < |rows| => rows[i][j])
  }

  /** pandas' `DataFrame.empty`: no rows or no columns. */
  predicate IsEmpty(t: Table) {
    |t.rows| == 0 || |t.header| == 0
  }

  predicate AllMissing(cells: seq<Cell>) {
    forall i :: 0 <= i < |cells| ==> cells[i].Missing?
  }

  /** pandas' `notna().sum()`: how many cells are not missing. */
  function Present(cells: seq<Cell>): (n: nat)
    ensures n <= |cells|
    ensures n == 0 <==> AllMissing(cells)
  {
    if cells == [] then 0
    else
      assert forall i :: 1 <= i < |cells| ==> cells[i] == cells[1..][i - 1];
      (if cells[0].Missing? then 0 else 1) + Present(cells[1..])
  }

  /** `s` is obtained from `t` by deleting elements, keeping their order. */
  predicate IsSubsequence<T(==)>(s: seq<T>, t: seq<T>) {
    || s == []
    || (t != [] && ((s[0] == t[0] && IsSubsequence(s[1..], t[1..])) || IsSubsequence(s, t[1..])))
  }

  /** The elements satisfying p, in their original order (a boolean mask
      applied to a DataFrame: `data[mask]`). */
  function Keep<T>(s: seq<T>, p: T -> bool): (r: seq<T>)
    ensures |r| <= |s|
    ensures forall x :: x in r ==> x in s && p(x)
    ensures forall x :: x in s && p(x) ==> x in r
  {
    if s == [] then []
    else
      (if p(s[0]) then [s[0]] else []) + Keep(s[1..], p)
  }

  /** What a mask keeps is a subsequence of what it was applied to. */
  lemma {:induction false} KeepIsSubsequence<T>(s: seq<T>, p: T -> bool)
    ensures IsSubsequence(Keep(s, p), s)
  {
    if s != [] {
      KeepIsSubsequence(s[1..], p);
      var rest := Keep(s[1..], p);
      if p(s[0]) {
        assert ([s[0]] + rest)[1..] == rest;
      } else {
        assert Keep(s, p) == rest;
        SubsequenceDropHead(rest, s);
      }
    }
  }

  lemma {:induction false} SubsequenceDropHead<T>(r: seq<T>, s: seq<T>)
    requires s != [] && IsSubsequence(r, s[1..])
    ensures IsSubsequence(r, s)
  {
  }

  /** A mask keeps every copy of every element it accepts and none of the others. */
  lemma {:induction false} KeepCounts<T>(s: seq<T>, p: T -> bool, x: T)
    ensures multiset(Keep(s, p))[x] == if p(x) then multiset(s)[x] else 0
  {
    if s != [] {
      KeepCounts(s[1..], p, x);
      assert s == [s[0]] + s[1..];
    }
  }

  /** Applying two masks in turn is applying their conjunction. */
  lemma {:induction false} KeepKeep<T>(s: seq<T>, p: T -> bool, q: T -> bool, pq: T -> bool)
    requires forall x :: pq(x) == (p(x) && q(x))
    ensures Keep(Keep(s, p), q) == Keep(s, pq)
  {
    if s != [] {
      KeepKeep(s[1..], p, q, pq);
      var k := Keep(s[1..], p);
      if p(s[0]) {
        assert Keep(s, p) == [s[0]] + k && ([s[0]] + k)[1..] == k;
      } else {
        assert Keep(s, p) == k;
      }
    }
  }

  /** A mask that accepts everything keeps everything. */
  lemma {:induction false} KeepEverything<T>(s: seq<T>, p: T -> bool)
    requires forall x :: x in s ==> p(x)
    ensures Keep(s, p) == s
  {
    if s != [] {
      KeepEverything(s[1..], p);
    }
  }

  /** A mask applied to a concatenation is the concatenation of the masked parts. */
  lemma {:induction false} KeepAppend<T>(a: seq<T>, b: seq<T>, p: T -> bool)
    ensures Keep(a + b, p) == Keep(a, p) + Keep(b, p)
  {
    if a == [] {
      assert a + b == b;
    } else {
      assert (a + b)[0] == a[0] && (a + b)[1..] == a[1..] + b;
      KeepAppend(a[1..], b, p);
    }
  }

  /** A mask over columns with distinct names keeps them distinct. */
  lemma {:induction false} KeepDistinctNames(header: seq<Header>, p: Header -> bool)
    ensures DistinctNames(header) ==> DistinctNames(Keep(header, p))
  {
    if header != [] && DistinctNames(header) {
      var rest := Keep(header[1..], p);
      assert DistinctNames(header[1..]) by {
        assert forall j :: 0 <= j < |header| - 1 ==> header[1..][j] == header[j + 1];
      }
      KeepDistinctNames(header[1..], p);
      if p(header[0]) {
        forall x | x in rest ensures x.name != header[0].name {
          var j :| 0 <= j < |header[1..]| && header[1..][j] == x;
          assert x == header[j + 1];
        }
        var r := [header[0]] + rest;
        forall a, b | 0 <= a < b < |r| ensures r[a].name != r[b].name {
          if a == 0 {
            assert r[b] == rest[b - 1] && r[b] in rest;
          } else {
            assert r[a] == rest[a - 1] && r[b] == rest[b - 1];
          }
        }
      }
    }
  }

  /** Two masks that agree on every element keep the same elements. */
  lemma {:induction false} KeepAgree<T>(s: seq<T>, p: T -> bool, q: T -> bool)
    requires forall x :: x in s ==> p(x) == q(x)
    ensures Keep(s, p) == Keep(s, q)
  {
    if s != [] {
      assert forall x :: x in s[1..] ==> x in s;
      KeepAgree(s[1..], p, q);
    }
  }
}
