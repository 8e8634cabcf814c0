/** The order `DataFrame.sort_values(by=col)` puts rows in: ascending by
    the column's values, missing values last. Values of different types
    cannot be compared (Python raises TypeError); `Comparable` says when
    that cannot happen, and the cross-type part of `CellLe` only makes the
    order total so that it can be reasoned about. */
module Ordering {
  import opened Frame

  function Rank(c: Cell): nat {
    match c
    case Num(_) => 0
    case Text(_) => 1
    case Date(_) => 2
    case Missing => 3
  }

  /** Python's order on strings: code point by code point, a prefix first. */
  predicate StrLe(s: string, t: string) {
    s == [] || (t != [] && (s[0] < t[0] || (s[0] == t[0] && StrLe(s[1..], t[1..]))))
  }

  lemma {:induction false} StrLeTotal(s: string, t: string)
    ensures StrLe(s, t) || StrLe(t, s)
  {
    if s != [] && t != [] && s[0] == t[0] {
      StrLeTotal(s[1..], t[1..]);
    }
  }

  lemma {:induction false} StrLeTransitive(s: string, t: string, u: string)
    requires StrLe(s, t) && StrLe(t, u)
    ensures StrLe(s, u)
  {
    if s != [] && t != [] && u != [] && s[0] == t[0] == u[0] {
      StrLeTransitive(s[1..], t[1..], u[1..]);
    }
  }

  /** Numbers, strings and timestamps by value, missing values after everything. */
  predicate CellLe(a: Cell, b: Cell) {
    if Rank(a) != Rank(b) then Rank(a) < Rank(b)
    else match (a, b)
      case (Num(x), Num(y)) => x <= y
      case (Text(s), Text(t)) => StrLe(s, t)
      case (Date(d), Date(e)) => d <= e
      case _ => true
  }

  lemma CellLeTotal(a: Cell, b: Cell)
    ensures CellLe(a, b) || CellLe(b, a)
  {
    if a.Text? && b.Text? {
      StrLeTotal(a.s, b.s);
    }
  }

  lemma CellLeTransitive(a: Cell, b: Cell, c: Cell)
    requires CellLe(a, b) && CellLe(b, c)
    ensures CellLe(a, c)
  {
    if a.Text? && b.Text? && c.Text? {
      StrLeTransitive(a.s, b.s, c.s);
    }
  }

  /** No two non-missing values are of different types, so sorting cannot raise. */
  predicate Comparable(cells: seq<Cell>) {
    forall a, b :: 0 <= a < |cells| && 0 <= b < |cells| && !cells[a].Missing? && !cells[b].Missing? ==>
      Rank(cells[a]) == Rank(cells[b])
  }

  predicate SortedBy(rows: seq<Row>, j: nat)
    requires HasColumn(rows, j)
  {
    forall a, b :: 0 <= a < b < |rows| ==> CellLe(rows[a][j], rows[b][j])
  }

  /** Insert one row into rows already sorted by column j. */
  function Insert(x: Row, rows: seq<Row>, j: nat): (r: seq<Row>)
    requires j < |x| && HasColumn(rows, j)
    ensures multiset(r) == multiset(rows) + multiset{x}
    ensures HasColumn(r, j) && |r| == |rows| + 1
  {
    if rows == [] then [x]
    else if CellLe(x[j], rows[0][j]) then [x] + rows
    else
      assert rows == [rows[0]] + rows[1..];
      [rows[0]] + Insert(x, rows[1..], j)
  }

  lemma {:induction false} InsertKeepsSorted(x: Row, rows: seq<Row>, j: nat)
    requires j < |x| && HasColumn(rows, j)
    requires SortedBy(rows, j)
    ensures SortedBy(Insert(x, rows, j), j)
  {
    if rows == [] {
    } else if CellLe(x[j], rows[0][j]) {
      forall b | 1 <= b < |rows| ensures CellLe(x[j], rows[b][j]) {
        CellLeTransitive(x[j], rows[0][j], rows[b][j]);
      }
    } else {
      var rest := Insert(x, rows[1..], j);
      InsertKeepsSorted(x, rows[1..], j);
      CellLeTotal(x[j], rows[0][j]);
      forall b | 0 <= b < |rest| ensures CellLe(rows[0][j], rest[b][j]) {
        assert rest[b] in multiset(rest);
        if rest[b] != x {
          assert rest[b] in multiset(rows[1..]);
          var m :| 0 <= m < |rows[1..]| && rows[1..][m] == rest[b];
          assert rows[m + 1] == rest[b];
        }
      }
    }
  }

  /** `sort_values(by=col)`: the same rows, ascending by column j. */
  function SortRows(rows: seq<Row>, j: nat): (r: seq<Row>)
    requires HasColumn(rows, j)
    ensures multiset(r) == multiset(rows) && |r| == |rows|
    ensures HasColumn(r, j)
    ensures SortedBy(r, j)
  {
    if rows == [] then []
    else
      assert rows == [rows[0]] + rows[1..];
      InsertKeepsSorted(rows[0], SortRows(rows[1..], j), j);
      Insert(rows[0], SortRows(rows[1..], j), j)
  }
}
