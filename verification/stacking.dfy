/** The market tab's stacked bars: fixed draw order and the base and centre of
    every segment within its year. */
module Stacking {
  import Text
  import opened Grouping
  import opened YearOverYear

  /** `stack_order`, bottom to top. */
  const StackOrder: seq<string> := ["Repos", "Mercado Secundario", "Mercado Primario"]

  /** `Mercado_orden` of a market missing from `stack_order` (the `fillna(99)`). */
  const Unlisted: nat := 99

  /** `Mercado_orden`: the market's position in `stack_order`, or 99. */
  function Priority(market: string): (r: nat)
    ensures r == Unlisted <==> market !in StackOrder
    ensures r != Unlisted ==> r < |StackOrder| && StackOrder[r] == market
  {
    if market == StackOrder[0] then 0
    else if market == StackOrder[1] then 1
    else if market == StackOrder[2] then 2
    else Unlisted
  }

  function Year(x: Annotated): int
  {
    x.point.key.year
  }

  function Market(x: Annotated): string
  {
    x.point.key.category
  }

  function Amount(x: Annotated): int
  {
    x.point.total
  }

  /** The final row order: year, then `Mercado_orden`, then market name. The last
      component is the order the preceding sort by (market, year) leaves among
      equal `Mercado_orden` values, which the stable sort by (year, order) keeps. */
  predicate Before(a: Annotated, b: Annotated)
  {
    || Year(a) < Year(b)
    || (Year(a) == Year(b) && Priority(Market(a)) < Priority(Market(b)))
    || (Year(a) == Year(b) && Priority(Market(a)) == Priority(Market(b)) && Text.Less(Market(a), Market(b)))
  }

  lemma BeforeTransitive(a: Annotated, b: Annotated, c: Annotated)
    requires Before(a, b) && Before(b, c)
    ensures Before(a, c)
  {
    if Text.Less(Market(a), Market(b)) && Text.Less(Market(b), Market(c)) {
      Text.LessTransitive(Market(a), Market(b), Market(c));
    }
  }

  lemma NotBeforeStep(a: Annotated, b: Annotated, c: Annotated)
    requires Before(b, c) && !Before(a, c)
    ensures !Before(a, b)
  {
    if Before(a, b) {
      BeforeTransitive(a, b, c);
    }
  }

  lemma BeforeIrreflexive(a: Annotated)
    ensures !Before(a, a)
  {
    Text.LessIrreflexive(Market(a));
  }

  /** Two items neither of which is before the other have the same key. */
  lemma BeforeTotal(a: Annotated, b: Annotated)
    ensures a.point.key == b.point.key || Before(a, b) || Before(b, a)
  {
    Text.LessTotal(Market(a), Market(b));
  }

  /** `xs[j]` does not belong before `xs[i]`. */
  predicate InOrder(xs: seq<Annotated>, i: nat, j: nat)
    requires i < |xs| && j < |xs|
  {
    !Before(xs[j], xs[i])
  }

  predicate StackSorted(xs: seq<Annotated>)
  {
    forall i, j :: 0 <= i < j < |xs| ==> InOrder(xs, i, j)
  }

  predicate DistinctKeys(xs: seq<Annotated>)
  {
    forall i, j :: 0 <= i < j < |xs| ==> xs[i].point.key != xs[j].point.key
  }

  lemma StackSortedCons(y: Annotated, ys: seq<Annotated>)
    requires StackSorted(ys)
    requires forall j :: 0 <= j < |ys| ==> !Before(ys[j], y)
    ensures StackSorted([y] + ys)
  {
    var zs := [y] + ys;
    forall i, j | 0 <= i < j < |zs|
      ensures InOrder(zs, i, j)
    {
      if i > 0 {
        assert InOrder(ys, i - 1, j - 1);
      }
    }
  }

  lemma StackSortedTail(xs: seq<Annotated>)
    requires StackSorted(xs) && |xs| > 0
    ensures StackSorted(xs[1..])
  {
    forall i, j | 0 <= i < j < |xs| - 1
      ensures InOrder(xs[1..], i, j)
    {
      assert InOrder(xs, i + 1, j + 1);
    }
  }

  /** Places `x` in front of the first element it comes before. */
  function Insert(x: Annotated, xs: seq<Annotated>): (r: seq<Annotated>)
    requires StackSorted(xs)
    ensures StackSorted(r)
    ensures multiset(r) == multiset(xs) + multiset{x}
  {
    if |xs| == 0 then [x]
    else if Before(x, xs[0]) then
      assert forall j :: 0 <= j < |xs| ==> !Before(xs[j], x) by {
        forall j | 0 <= j < |xs|
          ensures !Before(xs[j], x)
        {
          if j == 0 {
            BeforeIrreflexive(xs[0]);
          } else {
            assert InOrder(xs, 0, j);
          }
          NotBeforeStep(xs[j], x, xs[0]);
        }
      }
      StackSortedCons(x, xs);
      [x] + xs
    else
      assert xs == [xs[0]] + xs[1..];
      StackSortedTail(xs);
      var rest := Insert(x, xs[1..]);
      assert forall j :: 0 <= j < |rest| ==> !Before(rest[j], xs[0]) by {
        forall j | 0 <= j < |rest|
          ensures !Before(rest[j], xs[0])
        {
          assert rest[j] in multiset(rest);
          if rest[j] != x {
            assert rest[j] in xs[1..];
            var m :| 0 <= m < |xs[1..]| && xs[1..][m] == rest[j];
            assert xs[m + 1] == rest[j];
            assert InOrder(xs, 0, m + 1);
          }
        }
      }
      StackSortedCons(xs[0], rest);
      [xs[0]] + rest
  }

  /** The points of one chart in stacking order. */
  function StackSort(xs: seq<Annotated>): (r: seq<Annotated>)
    ensures StackSorted(r)
    ensures multiset(r) == multiset(xs)
  {
    if |xs| == 0 then []
    else
      assert xs == [xs[0]] + xs[1..];
      Insert(xs[0], StackSort(xs[1..]))
  }

  /** Sorting a sequence with distinct keys keeps the keys distinct. */
  lemma {:induction false} StackSortDistinct(xs: seq<Annotated>)
    requires DistinctKeys(xs)
    ensures DistinctKeys(StackSort(xs))
  {
    if |xs| > 0 {
      assert xs == [xs[0]] + xs[1..];
      StackSortDistinct(xs[1..]);
      var sorted := StackSort(xs[1..]);
      forall j | 0 <= j < |sorted|
        ensures sorted[j].point.key != xs[0].point.key
      {
        assert sorted[j] in multiset(sorted);
        var m :| 0 <= m < |xs[1..]| && xs[1..][m] == sorted[j];
        assert xs[m + 1] == sorted[j];
      }
      InsertDistinct(xs[0], sorted);
    }
  }

  lemma {:induction false} InsertDistinct(x: Annotated, xs: seq<Annotated>)
    requires StackSorted(xs) && DistinctKeys(xs)
    requires forall j :: 0 <= j < |xs| ==> xs[j].point.key != x.point.key
    ensures DistinctKeys(Insert(x, xs))
  {
    if |xs| > 0 && !Before(x, xs[0]) {
      StackSortedTail(xs);
      InsertDistinct(x, xs[1..]);
      var rest := Insert(x, xs[1..]);
      forall j | 0 <= j < |rest|
        ensures rest[j].point.key != xs[0].point.key
      {
        assert rest[j] in multiset(rest);
        if rest[j] != x {
          var m :| 0 <= m < |xs[1..]| && xs[1..][m] == rest[j];
          assert xs[m + 1] == rest[j];
        }
      }
    }
  }

  /** A drawn segment: the point with its `Monto_base` and `Monto_centro`; its
      `Mercado_orden` is `Priority` of its market. */
  datatype Segment = Segment(item: Annotated, base: int, centre: real)

  /** Sum of the amounts of `xs[..n]` that fall in year `y`. */
  function YearSum(xs: seq<Annotated>, y: int, n: nat): int
    requires n <= |xs|
  {
    if n == 0 then 0
    else YearSum(xs, y, n - 1) + (if Year(xs[n - 1]) == y then Amount(xs[n - 1]) else 0)
  }

  /** The height of year `y`'s stacked bar. */
  function YearTotal(xs: seq<Annotated>, y: int): int
  {
    YearSum(xs, y, |xs|)
  }

  /** The running sum kept for year `y`, zero before its first row. */
  function RunningSum(running: map<int, int>, y: int): int
  {
    if y in running then running[y] else 0
  }

  /** The segment a row gets: based on the same-year rows before it, centred on its band. */
  function Placed(xs: seq<Annotated>, k: nat): Segment
    requires k < |xs|
  {
    var base := YearSum(xs, Year(xs[k]), k);
    Segment(xs[k], base, base as real + Amount(xs[k]) as real / 2.0)
  }

  /** `groupby("Anio")[amount].cumsum() - amount` and the segment midpoint, in row order. */
  method Stack(xs: seq<Annotated>) returns (segs: seq<Segment>)
    ensures |segs| == |xs|
    ensures forall i :: 0 <= i < |xs| ==> segs[i].item == xs[i]
    ensures forall i :: 0 <= i < |xs| ==> segs[i].base == YearSum(xs, Year(xs[i]), i)
    ensures forall i :: 0 <= i < |xs| ==>
      segs[i].centre == segs[i].base as real + Amount(xs[i]) as real / 2.0
    ensures forall i :: 0 <= i < |xs| - 1 && Year(xs[i]) == Year(xs[i + 1]) ==>
      segs[i + 1].base == segs[i].base + Amount(xs[i])
  {
    segs := [];
    var running: map<int, int> := map[];
    var i := 0;
    while i < |xs|
      invariant 0 <= i <= |xs|
      invariant |segs| == i
      invariant forall y :: RunningSum(running, y) == YearSum(xs, y, i)
      invariant forall k :: 0 <= k < i ==> segs[k] == Placed(xs, k)
    {
      var x := xs[i];
      var y := Year(x);
      var base := RunningSum(running, y);
      segs := segs + [Segment(x, base, base as real + Amount(x) as real / 2.0)];
      running := running[y := base + Amount(x)];
      i := i + 1;
    }
    forall i | 0 <= i < |xs| - 1 && Year(xs[i]) == Year(xs[i + 1])
      ensures segs[i + 1].base == segs[i].base + Amount(xs[i])
    {
      assert segs[i] == Placed(xs, i) && segs[i + 1] == Placed(xs, i + 1);
    }
  }

  lemma {:induction false} YearSumNone(xs: seq<Annotated>, y: int, n: nat)
    requires n <= |xs|
    requires forall j :: 0 <= j < n ==> Year(xs[j]) != y
    ensures YearSum(xs, y, n) == 0
  {
    if n > 0 {
      YearSumNone(xs, y, n - 1);
    }
  }

  lemma {:induction false} YearSumStable(xs: seq<Annotated>, y: int, m: nat, n: nat)
    requires m <= n <= |xs|
    requires forall j :: m <= j < n ==> Year(xs[j]) != y
    ensures YearSum(xs, y, n) == YearSum(xs, y, m)
  {
    if m < n {
      YearSumStable(xs, y, m, n - 1);
    }
  }

  /** A stacking-ordered sequence is ordered by year. */
  lemma SortedYears(xs: seq<Annotated>, i: nat, j: nat)
    requires StackSorted(xs) && i <= j < |xs|
    ensures Year(xs[i]) <= Year(xs[j])
  {
    if i < j {
      assert InOrder(xs, i, j);
    }
  }

  /** `xs[i]` is the first item of its year. */
  predicate StartsYear(xs: seq<Annotated>, i: nat)
    requires i < |xs|
  {
    i == 0 || Year(xs[i - 1]) != Year(xs[i])
  }

  /** The lowest segment of every year starts at zero. */
  lemma FirstOfYearAtZero(xs: seq<Annotated>, i: nat)
    requires StackSorted(xs) && i < |xs|
    requires StartsYear(xs, i)
    ensures YearSum(xs, Year(xs[i]), i) == 0
  {
    forall j | 0 <= j < i
      ensures Year(xs[j]) < Year(xs[i])
    {
      SortedYears(xs, j, i - 1);
      SortedYears(xs, i - 1, i);
    }
    YearSumNone(xs, Year(xs[i]), i);
  }

  /** The top of the highest segment of every year is that year's total. */
  lemma LastOfYearAtTop(xs: seq<Annotated>, i: nat)
    requires StackSorted(xs) && i < |xs|
    requires i == |xs| - 1 || Year(xs[i + 1]) != Year(xs[i])
    ensures YearSum(xs, Year(xs[i]), i) + Amount(xs[i]) == YearTotal(xs, Year(xs[i]))
  {
    forall j | i + 1 <= j < |xs|
      ensures Year(xs[i]) < Year(xs[j])
    {
      SortedYears(xs, i, i + 1);
      SortedYears(xs, i + 1, j);
    }
    YearSumStable(xs, Year(xs[i]), i + 1, |xs|);
  }

  /** `Repos`, first in the stacking order, always sits on the axis. */
  lemma ReposAtBottom(xs: seq<Annotated>, i: nat)
    requires StackSorted(xs) && DistinctKeys(xs) && i < |xs|
    requires Market(xs[i]) == "Repos"
    ensures YearSum(xs, Year(xs[i]), i) == 0
  {
    assert Priority(Market(xs[i])) == 0;
    forall j | 0 <= j < i
      ensures Year(xs[j]) != Year(xs[i])
    {
      assert InOrder(xs, j, i);
      assert xs[j].point.key != xs[i].point.key;
    }
    YearSumNone(xs, Year(xs[i]), i);
  }

  /** Within a year, segments go up by `Mercado_orden`, markets with equal order by name. */
  lemma WithinYearOrder(xs: seq<Annotated>, i: nat, j: nat)
    requires StackSorted(xs) && DistinctKeys(xs) && i < j < |xs|
    requires Year(xs[i]) == Year(xs[j])
    ensures Priority(Market(xs[i])) <= Priority(Market(xs[j]))
    ensures Priority(Market(xs[i])) == Priority(Market(xs[j])) ==> Text.Less(Market(xs[i]), Market(xs[j]))
  {
    assert InOrder(xs, i, j);
    BeforeTotal(xs[i], xs[j]);
  }
}
