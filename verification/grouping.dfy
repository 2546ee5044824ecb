/** `groupby([year, category]).sum()`: one point per (year, category) present. */
module Grouping {
  import opened Rows
  import Text

  /** The category column of a tab: `Moneda_short` in the currency tab,
      `Mercado` in the market tab. */
  datatype Dimension = ByCurrency | ByMarket

  datatype Key = Key(year: int, category: string)

  /** One aggregated bar: its key and the summed amount. */
  datatype Point = Point(key: Key, total: int)

  function Category(r: Row, dim: Dimension): string
  {
    match dim
    case ByCurrency => ShortCode(r.currency)
    case ByMarket => r.market
  }

  function KeyOf(r: Row, dim: Dimension): Key
  {
    Key(r.year, Category(r, dim))
  }

  /** The order pandas gives group keys: by year, then by category name. */
  predicate KeyLess(a: Key, b: Key)
  {
    a.year < b.year || (a.year == b.year && Text.Less(a.category, b.category))
  }

  lemma KeyLessTransitive(a: Key, b: Key, c: Key)
    requires KeyLess(a, b) && KeyLess(b, c)
    ensures KeyLess(a, c)
  {
    if a.year == b.year == c.year {
      Text.LessTransitive(a.category, b.category, c.category);
    }
  }

  lemma KeyLessIrreflexive(a: Key)
    ensures !KeyLess(a, a)
  {
    Text.LessIrreflexive(a.category);
  }

  lemma KeyLessTotal(a: Key, b: Key)
    ensures a == b || KeyLess(a, b) || KeyLess(b, a)
  {
    Text.LessTotal(a.category, b.category);
  }

  /** Strictly ascending keys: in particular no key occurs twice. */
  predicate Sorted(ps: seq<Point>)
  {
    forall i, j :: 0 <= i < j < |ps| ==> KeyLess(ps[i].key, ps[j].key)
  }

  function Keys(ps: seq<Point>): set<Key>
  {
    set p | p in ps :: p.key
  }

  function RowKeys(rows: seq<Row>, dim: Dimension): set<Key>
  {
    set r | r in rows :: KeyOf(r, dim)
  }

  /** Sum of the totals of the points keyed `k`. */
  function TotalAt(ps: seq<Point>, k: Key): int
  {
    if |ps| == 0 then 0
    else (if ps[0].key == k then ps[0].total else 0) + TotalAt(ps[1..], k)
  }

  /** Sum of the amounts of the rows keyed `k`. */
  function RowTotal(rows: seq<Row>, dim: Dimension, k: Key): int
  {
    if |rows| == 0 then 0
    else (if KeyOf(rows[0], dim) == k then rows[0].amount else 0) + RowTotal(rows[1..], dim, k)
  }

  function SumTotals(ps: seq<Point>): int
  {
    if |ps| == 0 then 0 else ps[0].total + SumTotals(ps[1..])
  }

  function SumAmounts(rows: seq<Row>): int
  {
    if |rows| == 0 then 0 else rows[0].amount + SumAmounts(rows[1..])
  }

  lemma SortedCons(p: Point, ps: seq<Point>)
    requires Sorted(ps)
    requires |ps| == 0 || KeyLess(p.key, ps[0].key)
    ensures Sorted([p] + ps)
  {
    forall j | 0 <= j < |ps|
      ensures KeyLess(p.key, ps[j].key)
    {
      if j > 0 {
        KeyLessTransitive(p.key, ps[0].key, ps[j].key);
      }
    }
  }

  /** Adds `a` to the point keyed `k`, creating the point in key order if absent. */
  function Add(ps: seq<Point>, k: Key, a: int): (r: seq<Point>)
    requires Sorted(ps)
    ensures Sorted(r)
    ensures |r| > 0 && (r[0].key == k || (|ps| > 0 && r[0].key == ps[0].key))
  {
    if |ps| == 0 then
      [Point(k, a)]
    else if ps[0].key == k then
      SortedCons(Point(k, ps[0].total + a), ps[1..]);
      [Point(k, ps[0].total + a)] + ps[1..]
    else if KeyLess(k, ps[0].key) then
      SortedCons(Point(k, a), ps);
      [Point(k, a)] + ps
    else
      KeyLessTotal(k, ps[0].key);
      var rest := Add(ps[1..], k, a);
      SortedCons(ps[0], rest);
      [ps[0]] + rest
  }

  /** `Add` introduces the key `k` and no other. */
  lemma {:induction false} AddKeys(ps: seq<Point>, k: Key, a: int)
    requires Sorted(ps)
    ensures Keys(Add(ps, k, a)) == Keys(ps) + {k}
  {
    if |ps| > 0 {
      assert ps == [ps[0]] + ps[1..];
      KeysCons(ps[0], ps[1..]);
      if ps[0].key == k {
        KeysCons(Point(k, ps[0].total + a), ps[1..]);
      } else if KeyLess(k, ps[0].key) {
        KeysCons(Point(k, a), ps);
      } else {
        AddKeys(ps[1..], k, a);
        KeysCons(ps[0], Add(ps[1..], k, a));
      }
    }
  }

  lemma KeysCons(p: Point, ps: seq<Point>)
    ensures Keys([p] + ps) == {p.key} + Keys(ps)
  {
  }

  /** `Add` raises the total at `k` by `a` and leaves every other total alone. */
  lemma {:induction false} AddTotals(ps: seq<Point>, k: Key, a: int, k': Key)
    requires Sorted(ps)
    ensures TotalAt(Add(ps, k, a), k') == TotalAt(ps, k') + (if k' == k then a else 0)
  {
    if |ps| > 0 && ps[0].key != k && !KeyLess(k, ps[0].key) {
      AddTotals(ps[1..], k, a, k');
      var r := Add(ps, k, a);
      assert r[1..] == Add(ps[1..], k, a);
    } else if |ps| > 0 && ps[0].key == k {
      var r := Add(ps, k, a);
      assert r[1..] == ps[1..];
    }
  }

  /** `Add` raises the grand total by exactly `a`. */
  lemma {:induction false} AddSum(ps: seq<Point>, k: Key, a: int)
    requires Sorted(ps)
    ensures SumTotals(Add(ps, k, a)) == SumTotals(ps) + a
  {
    if |ps| > 0 && ps[0].key != k && !KeyLess(k, ps[0].key) {
      AddSum(ps[1..], k, a);
      var r := Add(ps, k, a);
      assert r[1..] == Add(ps[1..], k, a);
    } else if |ps| > 0 && ps[0].key == k {
      var r := Add(ps, k, a);
      assert r[1..] == ps[1..];
    }
  }

  /** The grouped sums of `rows` by (year, category), in key order. */
  function GroupSum(rows: seq<Row>, dim: Dimension): (ps: seq<Point>)
    ensures Sorted(ps)
    ensures |ps| == 0 <==> |rows| == 0
  {
    if |rows| == 0 then []
    else Add(GroupSum(rows[1..], dim), KeyOf(rows[0], dim), rows[0].amount)
  }

  /** One point per (year, category) key that occurs in `rows`, and no other. */
  lemma {:induction false} GroupSumKeys(rows: seq<Row>, dim: Dimension)
    ensures Keys(GroupSum(rows, dim)) == RowKeys(rows, dim)
  {
    if |rows| > 0 {
      assert rows == [rows[0]] + rows[1..];
      GroupSumKeys(rows[1..], dim);
      AddKeys(GroupSum(rows[1..], dim), KeyOf(rows[0], dim), rows[0].amount);
    }
  }

  /** The total grouped under any key is the sum of the rows with that key. */
  lemma {:induction false} GroupSumTotals(rows: seq<Row>, dim: Dimension, k: Key)
    ensures TotalAt(GroupSum(rows, dim), k) == RowTotal(rows, dim, k)
  {
    if |rows| > 0 {
      GroupSumTotals(rows[1..], dim, k);
      AddTotals(GroupSum(rows[1..], dim), KeyOf(rows[0], dim), rows[0].amount, k);
    }
  }

  /** Grouping conserves the grand total. */
  lemma {:induction false} GroupSumConserves(rows: seq<Row>, dim: Dimension)
    ensures SumTotals(GroupSum(rows, dim)) == SumAmounts(rows)
  {
    if |rows| > 0 {
      GroupSumConserves(rows[1..], dim);
      AddSum(GroupSum(rows[1..], dim), KeyOf(rows[0], dim), rows[0].amount);
    }
  }

  lemma {:induction false} TotalAtAbsent(ps: seq<Point>, k: Key)
    requires forall j :: 0 <= j < |ps| ==> ps[j].key != k
    ensures TotalAt(ps, k) == 0
  {
    if |ps| > 0 {
      TotalAtAbsent(ps[1..], k);
    }
  }

  /** In a sorted sequence `TotalAt` of a point's key is that point's total. */
  lemma {:induction false} TotalAtPoint(ps: seq<Point>, i: nat)
    requires Sorted(ps) && i < |ps|
    ensures TotalAt(ps, ps[i].key) == ps[i].total
  {
    if i == 0 {
      forall j | 0 <= j < |ps[1..]|
        ensures ps[1..][j].key != ps[0].key
      {
        assert KeyLess(ps[0].key, ps[j + 1].key);
        KeyLessIrreflexive(ps[0].key);
      }
      TotalAtAbsent(ps[1..], ps[0].key);
    } else {
      assert KeyLess(ps[0].key, ps[i].key);
      KeyLessIrreflexive(ps[0].key);
      TotalAtPoint(ps[1..], i - 1);
    }
  }

  /** Every grouped point carries the sum of exactly the rows with its key. */
  lemma PointIsSumOfItsRows(rows: seq<Row>, dim: Dimension, i: nat)
    requires i < |GroupSum(rows, dim)|
    ensures GroupSum(rows, dim)[i].total == RowTotal(rows, dim, GroupSum(rows, dim)[i].key)
  {
    TotalAtPoint(GroupSum(rows, dim), i);
    GroupSumTotals(rows, dim, GroupSum(rows, dim)[i].key);
  }
}
