/** `df.groupby(key)[target].<reducer>()` over the (key, target) cells of a
    table's rows. pandas' defaults are modelled: rows whose key is missing
    belong to no group, and a group whose targets are all missing sums to 0.
    The groups are listed in order of first appearance; pandas sorts them,
    and no contract in this project depends on the order. */
module Grouping {
  import opened Frame

  /** A row reduced to its (key cell, target cell). */
  type Pair = (Cell, Cell)

  /** The five reducers of `aggregate_data`. */
  datatype Reducer = CountOf | SumOf | MeanOf | MinOf | MaxOf

  /** The reducer named by `agg_function`, if it is one of the five. */
  function ParseReducer(name: string): (r: Option<Reducer>)
    ensures r.None? <==> name !in {"count", "sum", "mean", "min", "max"}
    ensures r == Some(CountOf) <==> name == "count"
    ensures r == Some(SumOf) <==> name == "sum"
    ensures r == Some(MeanOf) <==> name == "mean"
    ensures r == Some(MinOf) <==> name == "min"
    ensures r == Some(MaxOf) <==> name == "max"
  {
    if name == "count" then Some(CountOf)
    else if name == "sum" then Some(SumOf)
    else if name == "mean" then Some(MeanOf)
    else if name == "min" then Some(MinOf)
    else if name == "max" then Some(MaxOf)
    else None
  }

  /** The pairs of a table's rows at key column g and target column v. */
  function Pairs(rows: seq<Row>, g: nat, v: nat): (ps: seq<Pair>)
    requires HasColumn(rows, g) && HasColumn(rows, v)
    ensures |ps| == |rows| && forall i :: 0 <= i < |rows| ==> ps[i] == (rows[i][g], rows[i][v])
  {
    seq(|rows|, i requires 0 <= i < |rows| => (rows[i][g], rows[i][v]))
  }

  predicate KeyOccurs(ps: seq<Pair>, k: Cell) {
    exists i :: 0 <= i < |ps| && ps[i].0 == k
  }

  /** The distinct non-missing keys, each once. */
  function Keys(ps: seq<Pair>): (ks: seq<Cell>)
    ensures forall a, b :: 0 <= a < b < |ks| ==> ks[a] != ks[b]
    ensures forall k :: k in ks <==> k != Missing && KeyOccurs(ps, k)
  {
    if ps == [] then []
    else
      var init := ps[..|ps| - 1];
      var ks := Keys(init);
      var k := ps[|ps| - 1].0;
      assert forall i :: 0 <= i < |init| ==> init[i] == ps[i];
      assert forall c :: KeyOccurs(ps, c) <==> KeyOccurs(init, c) || c == k;
      if k == Missing || k in ks then ks else ks + [k]
  }

  /** The target cells of the group with key k, in row order. */
  function ValuesOf(ps: seq<Pair>, k: Cell): (vs: seq<Cell>)
    ensures |vs| <= |ps|
    ensures !KeyOccurs(ps, k) ==> vs == []
  {
    if ps == [] then []
    else
      var init := ps[..|ps| - 1];
      assert forall i :: 0 <= i < |init| ==> init[i] == ps[i];
      ValuesOf(init, k) + (if ps[|ps| - 1].0 == k then [ps[|ps| - 1].1] else [])
  }

  /** The mask that selects the rows with key k. */
  function KeyMask(k: Cell): Pair -> bool {
    (p: Pair) => p.0 == k
  }

  /** The rows of group k: a mask on the key, as `groupby` selects them. */
  function GroupOf(ps: seq<Pair>, k: Cell): (g: seq<Pair>)
    ensures forall p :: p in g <==> p in ps && p.0 == k
  {
    Keep(ps, KeyMask(k))
  }

  /** ValuesOf collects exactly the targets of group k's rows, in row order. */
  lemma {:induction false} ValuesAreGroupTargets(ps: seq<Pair>, k: Cell)
    ensures ValuesOf(ps, k) == Results(GroupOf(ps, k))
  {
    if ps != [] {
      var n := |ps| - 1;
      assert ValuesOf(ps, k) == ValuesOf(ps[..n], k) + (if ps[n].0 == k then [ps[n].1] else []);
      ValuesAreGroupTargets(ps[..n], k);
      GroupTargetsOfLast(ps, k);
    }
  }

  /** Group k of a table grows by the last row's target when that row has key k. */
  lemma GroupTargetsOfLast(ps: seq<Pair>, k: Cell)
    requires ps != []
    ensures var n := |ps| - 1;
            Results(GroupOf(ps, k)) == Results(GroupOf(ps[..n], k)) + (if ps[n].0 == k then [ps[n].1] else [])
  {
    var n := |ps| - 1;
    var init := ps[..n];
    assert ps == init + [ps[n]];
    KeepAppend(init, [ps[n]], KeyMask(k));
    var last := Keep([ps[n]], KeyMask(k));
    assert GroupOf(ps, k) == GroupOf(init, k) + last;
    assert Results(last) == if ps[n].0 == k then [ps[n].1] else [];
    ResultsAppend(GroupOf(init, k), last);
  }

  lemma ResultsAppend(a: seq<Pair>, b: seq<Pair>)
    ensures Results(a + b) == Results(a) + Results(b)
  {
  }

  /** The target cells of every row whose key is not missing. */
  function KeyedValues(ps: seq<Pair>): (vs: seq<Cell>)
    ensures |vs| <= |ps|
  {
    if ps == [] then []
    else KeyedValues(ps[..|ps| - 1]) + (if ps[|ps| - 1].0 != Missing then [ps[|ps| - 1].1] else [])
  }

  /** How many cells are numbers. */
  function NumCount(vs: seq<Cell>): nat {
    if vs == [] then 0 else (if vs[0].Num? then 1 else 0) + NumCount(vs[1..])
  }

  /** The sum of the numbers among the cells, skipping everything else (0 for none). */
  function Total(vs: seq<Cell>): real {
    if vs == [] then 0.0 else (if vs[0].Num? then vs[0].n else 0.0) + Total(vs[1..])
  }

  /** No numbers among the cells exactly when the count of numbers is 0;
      their total is then 0. */
  lemma {:induction false} NumCountMeaning(vs: seq<Cell>)
    ensures NumCount(vs) == 0 <==> forall i :: 0 <= i < |vs| ==> !vs[i].Num?
    ensures NumCount(vs) == 0 ==> Total(vs) == 0.0
  {
    if vs != [] {
      NumCountMeaning(vs[1..]);
      assert forall i :: 1 <= i < |vs| ==> vs[i] == vs[1..][i - 1];
    }
  }

  lemma {:induction false} TotalAppend(a: seq<Cell>, b: seq<Cell>)
    ensures Total(a + b) == Total(a) + Total(b)
  {
    if a == [] {
      assert a + b == b;
    } else {
      assert (a + b)[1..] == a[1..] + b;
      TotalAppend(a[1..], b);
    }
  }

  lemma {:induction false} PresentAppend(a: seq<Cell>, b: seq<Cell>)
    ensures Present(a + b) == Present(a) + Present(b)
  {
    if a == [] {
      assert a + b == b;
    } else {
      assert (a + b)[1..] == a[1..] + b;
      PresentAppend(a[1..], b);
    }
  }

  /** The smallest number among the cells, if any. */
  function Smallest(vs: seq<Cell>): (m: Option<real>)
    ensures m.None? <==> forall i :: 0 <= i < |vs| ==> !vs[i].Num?
    ensures m.Some? ==> Num(m.value) in vs
    ensures m.Some? ==> forall i :: 0 <= i < |vs| && vs[i].Num? ==> m.value <= vs[i].n
  {
    if vs == [] then None
    else
      var rest := Smallest(vs[1..]);
      assert forall i :: 1 <= i < |vs| ==> vs[i] == vs[1..][i - 1];
      if !vs[0].Num? then rest
      else if rest.None? || vs[0].n <= rest.value then Some(vs[0].n)
      else rest
  }

  /** The largest number among the cells, if any. */
  function Largest(vs: seq<Cell>): (m: Option<real>)
    ensures m.None? <==> forall i :: 0 <= i < |vs| ==> !vs[i].Num?
    ensures m.Some? ==> Num(m.value) in vs
    ensures m.Some? ==> forall i :: 0 <= i < |vs| && vs[i].Num? ==> vs[i].n <= m.value
  {
    if vs == [] then None
    else
      var rest := Largest(vs[1..]);
      assert forall i :: 1 <= i < |vs| ==> vs[i] == vs[1..][i - 1];
      if !vs[0].Num? then rest
      else if rest.None? || rest.value <= vs[0].n then Some(vs[0].n)
      else rest
  }

  /** One group's result: `count` counts the non-missing cells, `sum` adds
      the numbers (0 when there are none), `mean`, `min` and `max` are
      missing when there are no numbers. */
  function Reduce(f: Reducer, vs: seq<Cell>): (r: Cell)
    ensures r.Missing? <==> f != CountOf && f != SumOf && NumCount(vs) == 0
    ensures f == CountOf ==> r.Num? && 0.0 <= r.n <= |vs| as real && (r.n == 0.0 <==> AllMissing(vs))
    ensures f == SumOf && NumCount(vs) == 0 ==> r == Num(0.0)
    ensures f == MeanOf && r.Num? ==> r.n * NumCount(vs) as real == Total(vs)
    ensures f == MinOf && r.Num? ==> r in vs && forall i :: 0 <= i < |vs| && vs[i].Num? ==> r.n <= vs[i].n
    ensures f == MaxOf && r.Num? ==> r in vs && forall i :: 0 <= i < |vs| && vs[i].Num? ==> vs[i].n <= r.n
  {
    NumCountMeaning(vs);
    match f
    case CountOf => Num(Present(vs) as real)
    case SumOf => Num(Total(vs))
    case MeanOf => if NumCount(vs) == 0 then Missing else Num(Total(vs) / NumCount(vs) as real)
    case MinOf => if Smallest(vs).None? then Missing else Num(Smallest(vs).value)
    case MaxOf => if Largest(vs).None? then Missing else Num(Largest(vs).value)
  }

  /** `groupby(key)[target].f().reset_index()`: one (key, result) per group. */
  function Grouped(ps: seq<Pair>, f: Reducer): (gs: seq<Pair>)
    ensures |gs| == |Keys(ps)|
    ensures forall i :: 0 <= i < |gs| ==> gs[i].0 == Keys(ps)[i]
  {
    var ks := Keys(ps);
    seq(|ks|, i requires 0 <= i < |ks| => (ks[i], Reduce(f, ValuesOf(ps, ks[i]))))
  }

  /** Each group's result is the reducer applied to the targets of exactly
      the rows carrying that group's key, in row order. */
  lemma GroupedValue(ps: seq<Pair>, f: Reducer, i: nat)
    requires i < |Keys(ps)|
    ensures Grouped(ps, f)[i].1 == Reduce(f, Results(GroupOf(ps, Keys(ps)[i])))
  {
    ValuesAreGroupTargets(ps, Keys(ps)[i]);
  }

  /** The rows (by position) that belong to group k and have a target. */
  ghost function CountedRows(ps: seq<Pair>, k: Cell): set<int> {
    set i | 0 <= i < |ps| && ps[i].0 == k && ps[i].1 != Missing
  }

  lemma CountedRowsSnoc(ps: seq<Pair>, k: Cell)
    requires ps != []
    ensures var n := |ps| - 1;
      && n !in CountedRows(ps[..n], k)
      && CountedRows(ps, k) == CountedRows(ps[..n], k) + (if ps[n].0 == k && ps[n].1 != Missing then {n} else {})
  {
    var n := |ps| - 1;
    var init := ps[..n];
    forall i | 0 <= i < n ensures (i in CountedRows(ps, k)) == (i in CountedRows(init, k)) {
      assert ps[i] == init[i];
    }
  }

  /** `count` of group k is the number of its rows whose target is not missing. */
  lemma {:induction false} CountIsRowCount(ps: seq<Pair>, k: Cell)
    ensures Present(ValuesOf(ps, k)) == |CountedRows(ps, k)|
  {
    if ps == [] {
      assert CountedRows(ps, k) == {};
    } else {
      var n := |ps| - 1;
      var init := ps[..n];
      CountIsRowCount(init, k);
      PresentAppend(ValuesOf(init, k), if ps[n].0 == k then [ps[n].1] else []);
      CountedRowsSnoc(ps, k);
    }
  }

  /** The sum of one group: Total of its targets. */
  function GroupTotal(ps: seq<Pair>, k: Cell): real {
    Total(ValuesOf(ps, k))
  }

  /** The sum of the group totals over a list of keys. */
  function TotalOver(ps: seq<Pair>, ks: seq<Cell>): real {
    if ks == [] then 0.0 else GroupTotal(ps, ks[0]) + TotalOver(ps, ks[1..])
  }

  /** Shifting one key's total by d shifts the sum over distinct keys by d
      if the key is among them, and not at all otherwise. */
  lemma {:induction false} TotalOverShift(ps: seq<Pair>, qs: seq<Pair>, ks: seq<Cell>, k0: Cell, d: real)
    requires forall a, b :: 0 <= a < b < |ks| ==> ks[a] != ks[b]
    requires forall k :: k in ks ==> GroupTotal(ps, k) == GroupTotal(qs, k) + (if k == k0 then d else 0.0)
    ensures TotalOver(ps, ks) == TotalOver(qs, ks) + (if k0 in ks then d else 0.0)
  {
    if ks != [] {
      assert forall a, b :: 0 <= a < b < |ks[1..]| ==> ks[1..][a] != ks[1..][b] by {
        forall a, b | 0 <= a < b < |ks[1..]| ensures ks[1..][a] != ks[1..][b] {
          assert ks[1..][a] == ks[a + 1] && ks[1..][b] == ks[b + 1];
        }
      }
      TotalOverShift(ps, qs, ks[1..], k0, d);
      if ks[0] == k0 {
        assert k0 !in ks[1..] by {
          forall i | 0 <= i < |ks[1..]| ensures ks[1..][i] != k0 {
            assert ks[1..][i] == ks[i + 1];
          }
        }
      }
      assert k0 in ks <==> ks[0] == k0 || k0 in ks[1..];
    }
  }

  lemma TotalOverAppend(ps: seq<Pair>, ks: seq<Cell>, k: Cell)
    ensures TotalOver(ps, ks + [k]) == TotalOver(ps, ks) + GroupTotal(ps, k)
  {
    if ks != [] {
      assert (ks + [k])[1..] == ks[1..] + [k];
      TotalOverAppend(ps, ks[1..], k);
    }
  }

  /** Grouping neither loses nor invents value: the group sums add up to the
      sum of the targets of all rows that have a key. */
  lemma {:induction false} GroupTotalsAddUp(ps: seq<Pair>)
    ensures TotalOver(ps, Keys(ps)) == Total(KeyedValues(ps))
  {
    if ps != [] {
      var n := |ps| - 1;
      var init := ps[..n];
      var (k0, v) := ps[n];
      var d := if v.Num? then v.n else 0.0;
      GroupTotalsAddUp(init);
      assert Total([v]) == d;
      forall k | true
        ensures GroupTotal(ps, k) == GroupTotal(init, k) + (if k == k0 then d else 0.0)
      {
        TotalAppend(ValuesOf(init, k), if k0 == k then [v] else []);
      }
      var ks := Keys(init);
      TotalOverShift(ps, init, ks, k0, d);
      if k0 == Missing {
        assert k0 !in ks;
        assert KeyedValues(ps) == KeyedValues(init);
      } else {
        TotalAppend(KeyedValues(init), [v]);
        if k0 !in ks {
          assert !KeyOccurs(init, k0);
          TotalOverAppend(ps, ks, k0);
        }
      }
    }
  }

  /** The result cells of a list of groups. */
  function Results(gs: seq<Pair>): (vs: seq<Cell>)
    ensures |vs| == |gs| && forall i :: 0 <= i < |gs| ==> vs[i] == gs[i].1
  {
    seq(|gs|, i requires 0 <= i < |gs| => gs[i].1)
  }

  /** The group sums over a list of keys, as cells. */
  function SumCells(ps: seq<Pair>, ks: seq<Cell>): (vs: seq<Cell>)
    ensures |vs| == |ks| && forall i :: 0 <= i < |ks| ==> vs[i] == Num(GroupTotal(ps, ks[i]))
  {
    if ks == [] then []
    else
      var rest := SumCells(ps, ks[1..]);
      assert forall i :: 1 <= i < |ks| ==> ks[i] == ks[1..][i - 1];
      [Num(GroupTotal(ps, ks[0]))] + rest
  }

  lemma {:induction false} TotalOfSumCells(ps: seq<Pair>, ks: seq<Cell>)
    ensures Total(SumCells(ps, ks)) == TotalOver(ps, ks)
  {
    if ks != [] {
      TotalOfSumCells(ps, ks[1..]);
      assert SumCells(ps, ks)[1..] == SumCells(ps, ks[1..]);
    }
  }

  /** Summing per group loses nothing: the group sums add up to the sum of
      the targets of all rows that have a key. */
  lemma GroupedSumsAddUp(ps: seq<Pair>)
    ensures Total(Results(Grouped(ps, SumOf))) == Total(KeyedValues(ps))
  {
    assert Results(Grouped(ps, SumOf)) == SumCells(ps, Keys(ps));
    TotalOfSumCells(ps, Keys(ps));
    GroupTotalsAddUp(ps);
  }
}
