/** The two tabs of `render_mercado`, from transaction rows and selector values
    to the numbers the charts draw. */
module Dashboard {
  import opened Months
  import opened Rows
  import opened Grouping
  import opened YearOverYear
  import opened Stacking
  import opened PctLabel

  /** A month label outside `MESES`: the `KeyError` of the inverse lookup. */
  datatype Failure = UnknownMonth(name: string)

  datatype Result<+T> = Ok(value: T) | Err(failure: Failure)

  /** Whether a row survives both selectors. */
  predicate Selected(r: Row, choice: string, cutoff: int)
  {
    r.month <= cutoff && (choice == Both || ShortCode(r.currency) == choice)
  }

  /** Sum of the amounts of the selected rows keyed `k`: what one bar should show. */
  function SelectedTotal(rows: seq<Row>, dim: Dimension, k: Key, choice: string, cutoff: int): int
  {
    if |rows| == 0 then 0
    else
      (if KeyOf(rows[0], dim) == k && Selected(rows[0], choice, cutoff) then rows[0].amount else 0)
      + SelectedTotal(rows[1..], dim, k, choice, cutoff)
  }

  /** The (year, category) keys of the selected rows: the bars that should appear. */
  function SelectedKeys(rows: seq<Row>, dim: Dimension, choice: string, cutoff: int): set<Key>
  {
    set r | r in rows && Selected(r, choice, cutoff) :: KeyOf(r, dim)
  }

  /** The rows the market tab keeps: currency first, then months. */
  function Keep(rows: seq<Row>, choice: string, cutoff: int): seq<Row>
  {
    FilterMonth(FilterCurrency(rows, choice), cutoff)
  }

  lemma {:induction false} MonthTotal(rows: seq<Row>, dim: Dimension, k: Key, cutoff: int)
    ensures RowTotal(FilterMonth(rows, cutoff), dim, k) == SelectedTotal(rows, dim, k, Both, cutoff)
  {
    if |rows| > 0 {
      MonthTotal(rows[1..], dim, k, cutoff);
      var rest := FilterMonth(rows[1..], cutoff);
      assert ([rows[0]] + rest)[1..] == rest;
    }
  }

  lemma {:induction false} KeepCurrencyTotal(rows: seq<Row>, dim: Dimension, k: Key, code: string, cutoff: int)
    requires code != Both
    ensures SelectedTotal(KeepCurrency(rows, code), dim, k, Both, cutoff) == SelectedTotal(rows, dim, k, code, cutoff)
  {
    if |rows| > 0 {
      KeepCurrencyTotal(rows[1..], dim, k, code, cutoff);
      var r := rows[0];
      var rest := KeepCurrency(rows[1..], code);
      if ShortCode(r.currency) == code {
        assert KeepCurrency(rows, code) == [r] + rest;
        assert ([r] + rest)[1..] == rest;
      } else {
        assert KeepCurrency(rows, code) == rest;
      }
    }
  }

  lemma {:induction false} CurrencyTotal(rows: seq<Row>, dim: Dimension, k: Key, choice: string, cutoff: int)
    ensures SelectedTotal(FilterCurrency(rows, choice), dim, k, Both, cutoff) == SelectedTotal(rows, dim, k, choice, cutoff)
  {
    if choice != Both {
      KeepCurrencyTotal(rows, dim, k, choice, cutoff);
    }
  }

  lemma {:induction false} KeepTotal(rows: seq<Row>, dim: Dimension, k: Key, choice: string, cutoff: int)
    ensures RowTotal(Keep(rows, choice, cutoff), dim, k) == SelectedTotal(rows, dim, k, choice, cutoff)
  {
    MonthTotal(FilterCurrency(rows, choice), dim, k, cutoff);
    CurrencyTotal(rows, dim, k, choice, cutoff);
  }

  /** A row is kept exactly when it is selected. */
  lemma {:induction false} KeepMember(rows: seq<Row>, choice: string, cutoff: int, r: Row)
    ensures r in Keep(rows, choice, cutoff) <==> r in rows && Selected(r, choice, cutoff)
  {
    var filtered := FilterCurrency(rows, choice);
    FilterMonthContents(filtered, cutoff);
    assert multiset(Keep(rows, choice, cutoff))[r] == if r.month <= cutoff then multiset(filtered)[r] else 0;
    if choice != Both {
      FilterCurrencyContents(rows, choice);
      assert multiset(filtered)[r] == if ShortCode(r.currency) == choice then multiset(rows)[r] else 0;
    }
    assert r in rows <==> multiset(rows)[r] > 0;
    assert r in filtered <==> multiset(filtered)[r] > 0;
    assert r in Keep(rows, choice, cutoff) <==> multiset(Keep(rows, choice, cutoff))[r] > 0;
  }

  lemma {:induction false} KeepKeys(rows: seq<Row>, dim: Dimension, choice: string, cutoff: int)
    ensures RowKeys(Keep(rows, choice, cutoff), dim) == SelectedKeys(rows, dim, choice, cutoff)
  {
    var kept := Keep(rows, choice, cutoff);
    forall k | k in RowKeys(kept, dim)
      ensures k in SelectedKeys(rows, dim, choice, cutoff)
    {
      var r :| r in kept && KeyOf(r, dim) == k;
      KeepMember(rows, choice, cutoff, r);
    }
    forall k | k in SelectedKeys(rows, dim, choice, cutoff)
      ensures k in RowKeys(kept, dim)
    {
      var r :| r in rows && Selected(r, choice, cutoff) && KeyOf(r, dim) == k;
      KeepMember(rows, choice, cutoff, r);
    }
  }

  /** The bars of one tab before stacking: grouped, in key order, with their changes. */
  function Bars(rows: seq<Row>, dim: Dimension, choice: string, cutoff: int): seq<Annotated>
  {
    YoY(GroupSum(Keep(rows, choice, cutoff), dim))
  }

  /** Each bar carries the total of exactly the selected rows of its year and
      category, and every such (year, category) has a bar. */
  lemma {:induction false} BarsAreSelectedSums(rows: seq<Row>, dim: Dimension, choice: string, cutoff: int)
    ensures forall i :: 0 <= i < |Bars(rows, dim, choice, cutoff)| ==>
      var p := Bars(rows, dim, choice, cutoff)[i].point;
      p.total == SelectedTotal(rows, dim, p.key, choice, cutoff)
    ensures Keys(GroupSum(Keep(rows, choice, cutoff), dim)) == SelectedKeys(rows, dim, choice, cutoff)
  {
    var kept := Keep(rows, choice, cutoff);
    var ps := GroupSum(kept, dim);
    forall i | 0 <= i < |ps|
      ensures ps[i].total == SelectedTotal(rows, dim, ps[i].key, choice, cutoff)
    {
      PointIsSumOfItsRows(kept, dim, i);
      KeepTotal(rows, dim, ps[i].key, choice, cutoff);
    }
    GroupSumKeys(kept, dim);
    KeepKeys(rows, dim, choice, cutoff);
  }

  /** Tab 1, "Volumen por moneda", once the month label has been resolved to `cutoff`:
      yearly totals per short currency code with their year-over-year labels. */
  function CurrencyBars(rows: seq<Row>, cutoff: Month): (bars: seq<Annotated>)
    ensures forall i :: 0 <= i < |bars| ==>
      bars[i].point.total == SelectedTotal(rows, ByCurrency, bars[i].point.key, Both, cutoff)
    ensures |bars| == 0 <==> forall i :: 0 <= i < |rows| ==> rows[i].month > cutoff
    ensures BarKeys(bars) == SelectedKeys(rows, ByCurrency, Both, cutoff)
    ensures DistinctKeys(bars)
    ensures var ps := GroupSum(Keep(rows, Both, cutoff), ByCurrency);
      |bars| == |ps| && forall i :: 0 <= i < |ps| ==> bars[i].point == ps[i]
  {
    BarsAreSelectedSums(rows, ByCurrency, Both, cutoff);
    BarsDistinct(rows, ByCurrency, Both, cutoff);
    YoYKeys(GroupSum(Keep(rows, Both, cutoff), ByCurrency));
    var kept := Keep(rows, Both, cutoff);
    FilterMonthContents(rows, cutoff);
    assert |kept| == 0 <==> forall i :: 0 <= i < |rows| ==> rows[i].month > cutoff by {
      if |kept| > 0 {
        assert kept[0] in multiset(kept);
      } else {
        forall i | 0 <= i < |rows|
          ensures rows[i].month > cutoff
        {
          assert rows[i] in multiset(rows);
        }
      }
    }
    Bars(rows, ByCurrency, Both, cutoff)
  }

  /** A currency's first year in tab 1 has no change and a blank label. */
  lemma {:induction false} CurrencyBarsFirstYear(rows: seq<Row>, cutoff: Month)
    ensures var ps := GroupSum(Keep(rows, Both, cutoff), ByCurrency);
      forall i :: 0 <= i < |ps| && IsFirstYear(ps, i) ==>
        CurrencyBars(rows, cutoff)[i].change == Missing && CurrencyBars(rows, cutoff)[i].caption == ""
  {
    YoYCharacterised(GroupSum(Keep(rows, Both, cutoff), ByCurrency));
  }

  /** Every later year in tab 1 is compared with the same currency's previous
      present year and labelled with that change. */
  lemma {:induction false} CurrencyBarsLaterYear(rows: seq<Row>, cutoff: Month)
    ensures var ps := GroupSum(Keep(rows, Both, cutoff), ByCurrency);
      forall i, j :: 0 <= i < |ps| && 0 <= j < |ps| && IsPriorYear(ps, i, j) ==>
        && CurrencyBars(rows, cutoff)[i].change == PctChange(ps[j].total, ps[i].total)
        && CurrencyBars(rows, cutoff)[i].caption == FmtPct(PctChange(ps[j].total, ps[i].total))
  {
    YoYCharacterised(GroupSum(Keep(rows, Both, cutoff), ByCurrency));
  }

  /** Tab 1 from the selector's month label, which fails outside `MESES`. */
  function CurrencyView(rows: seq<Row>, monthName: string): (r: Result<seq<Annotated>>)
    ensures r.Err? <==> Lookup(monthName).None?
    ensures r.Err? ==> r.failure == UnknownMonth(monthName)
    ensures r.Ok? ==> r.value == CurrencyBars(rows, Lookup(monthName).value)
  {
    match Lookup(monthName)
    case None => Err(UnknownMonth(monthName))
    case Some(cutoff) => Ok(CurrencyBars(rows, cutoff))
  }

  lemma {:induction false} BarsDistinct(rows: seq<Row>, dim: Dimension, choice: string, cutoff: int)
    ensures DistinctKeys(Bars(rows, dim, choice, cutoff))
  {
    var ps := GroupSum(Keep(rows, choice, cutoff), dim);
    forall i, j | 0 <= i < j < |ps|
      ensures ps[i].key != ps[j].key
    {
      KeyLessIrreflexive(ps[i].key);
    }
  }

  /** The (year, category) keys that have a bar. */
  function BarKeys(xs: seq<Annotated>): set<Key>
  {
    set x | x in xs :: x.point.key
  }

  lemma {:induction false} YoYKeys(ps: seq<Point>)
    ensures BarKeys(YoY(ps)) == Keys(ps)
  {
    var bars := YoY(ps);
    forall k | k in BarKeys(bars)
      ensures k in Keys(ps)
    {
      var x :| x in bars && x.point.key == k;
      var i :| 0 <= i < |bars| && bars[i] == x;
      assert ps[i] in ps;
    }
    forall k | k in Keys(ps)
      ensures k in BarKeys(bars)
    {
      var p :| p in ps && p.key == k;
      var i :| 0 <= i < |ps| && ps[i] == p;
      assert bars[i] in bars;
    }
  }

  lemma {:induction false} PermutationKeys(xs: seq<Annotated>, ys: seq<Annotated>)
    requires multiset(xs) == multiset(ys)
    ensures BarKeys(xs) == BarKeys(ys)
  {
    forall x | x in xs
      ensures x in ys
    {
      assert x in multiset(xs);
    }
    forall x | x in ys
      ensures x in xs
    {
      assert x in multiset(ys);
    }
  }

  /** The market tab's bars in stacking order: a reordering of the annotated
      grouped bars, one per selected (year, market), each with its selected sum. */
  function MarketBars(rows: seq<Row>, choice: string, cutoff: int): (xs: seq<Annotated>)
    ensures StackSorted(xs) && DistinctKeys(xs)
    ensures multiset(xs) == multiset(Bars(rows, ByMarket, choice, cutoff))
    ensures BarKeys(xs) == SelectedKeys(rows, ByMarket, choice, cutoff)
    ensures forall i :: 0 <= i < |xs| ==>
      Amount(xs[i]) == SelectedTotal(rows, ByMarket, xs[i].point.key, choice, cutoff)
  {
    var bars := Bars(rows, ByMarket, choice, cutoff);
    BarsAreSelectedSums(rows, ByMarket, choice, cutoff);
    BarsDistinct(rows, ByMarket, choice, cutoff);
    StackSortDistinct(bars);
    var xs := StackSort(bars);
    assert forall i :: 0 <= i < |xs| ==> Amount(xs[i]) == SelectedTotal(rows, ByMarket, xs[i].point.key, choice, cutoff) by {
      forall i | 0 <= i < |xs|
        ensures Amount(xs[i]) == SelectedTotal(rows, ByMarket, xs[i].point.key, choice, cutoff)
      {
        assert xs[i] in multiset(bars);
        var m :| 0 <= m < |bars| && bars[m] == xs[i];
      }
    }
    YoYKeys(GroupSum(Keep(rows, choice, cutoff), ByMarket));
    PermutationKeys(xs, bars);
    xs
  }

  /** Zero bases of a stacking-ordered sequence: every year's first segment and `Repos`. */
  lemma {:induction false} ZeroBases(xs: seq<Annotated>)
    requires StackSorted(xs) && DistinctKeys(xs)
    ensures forall i :: 0 <= i < |xs| && StartsYear(xs, i) ==> YearSum(xs, Year(xs[i]), i) == 0
    ensures forall i :: 0 <= i < |xs| && Market(xs[i]) == "Repos" ==> YearSum(xs, Year(xs[i]), i) == 0
  {
    forall i | 0 <= i < |xs| && StartsYear(xs, i)
      ensures YearSum(xs, Year(xs[i]), i) == 0
    {
      FirstOfYearAtZero(xs, i);
    }
    forall i | 0 <= i < |xs| && Market(xs[i]) == "Repos"
      ensures YearSum(xs, Year(xs[i]), i) == 0
    {
      ReposAtBottom(xs, i);
    }
  }

  function Items(segs: seq<Segment>): (xs: seq<Annotated>)
    ensures |xs| == |segs| && forall i :: 0 <= i < |segs| ==> xs[i] == segs[i].item
  {
    seq(|segs|, i requires 0 <= i < |segs| => segs[i].item)
  }

  /** What tab 2 draws for `cutoff`: the market bars in stacking order, one segment
      per selected (year, market) carrying its selected sum; each year's first
      segment and every `Repos` segment start at 0, consecutive segments of a year
      tile, and each label sits halfway up its segment. */
  predicate Stacked(rows: seq<Row>, choice: string, cutoff: int, segs: seq<Segment>)
  {
    && BarKeys(Items(segs)) == SelectedKeys(rows, ByMarket, choice, cutoff)
    && (forall i :: 0 <= i < |segs| ==>
          Amount(segs[i].item) == SelectedTotal(rows, ByMarket, segs[i].item.point.key, choice, cutoff))
    && StackSorted(Items(segs))
    && (forall i :: 0 <= i < |segs| && StartsYear(Items(segs), i) ==> segs[i].base == 0)
    && (forall i :: 0 <= i < |segs| && Market(segs[i].item) == "Repos" ==> segs[i].base == 0)
    && (forall i :: 0 <= i < |segs| - 1 && Year(segs[i].item) == Year(segs[i + 1].item) ==>
          segs[i + 1].base == segs[i].base + Amount(segs[i].item))
    && (forall i :: 0 <= i < |segs| ==>
          segs[i].centre == segs[i].base as real + Amount(segs[i].item) as real / 2.0)
    && Items(segs) == MarketBars(rows, choice, cutoff)
  }

  /** Every selected row is drawn: its (year, market) has a market bar, and so a
      segment, since `MarketSegments` stacks exactly these bars. */
  lemma {:induction false} SelectedRowIsDrawn(rows: seq<Row>, choice: string, cutoff: int, r: Row)
    requires r in rows && Selected(r, choice, cutoff)
    ensures exists i ::
      0 <= i < |MarketBars(rows, choice, cutoff)| && MarketBars(rows, choice, cutoff)[i].point.key == KeyOf(r, ByMarket)
  {
    var xs := MarketBars(rows, choice, cutoff);
    assert KeyOf(r, ByMarket) in SelectedKeys(rows, ByMarket, choice, cutoff);
    var x :| x in xs && x.point.key == KeyOf(r, ByMarket);
    var i :| 0 <= i < |xs| && xs[i] == x;
  }

  /** Tab 2, "Mercado", once the month label has been resolved to `cutoff`: yearly
      totals per market for the selected currency, stacked in the fixed order. */
  method MarketSegments(rows: seq<Row>, choice: string, cutoff: Month) returns (segs: seq<Segment>)
    ensures BarKeys(Items(segs)) == SelectedKeys(rows, ByMarket, choice, cutoff)
    ensures forall i :: 0 <= i < |segs| ==>
      Amount(segs[i].item) == SelectedTotal(rows, ByMarket, segs[i].item.point.key, choice, cutoff)
    ensures StackSorted(Items(segs))
    ensures forall i :: 0 <= i < |segs| && StartsYear(Items(segs), i) ==> segs[i].base == 0
    ensures forall i :: 0 <= i < |segs| && Market(segs[i].item) == "Repos" ==> segs[i].base == 0
    ensures forall i :: 0 <= i < |segs| - 1 && Year(segs[i].item) == Year(segs[i + 1].item) ==>
      segs[i + 1].base == segs[i].base + Amount(segs[i].item)
    ensures forall i :: 0 <= i < |segs| ==>
      segs[i].centre == segs[i].base as real + Amount(segs[i].item) as real / 2.0
    ensures Items(segs) == MarketBars(rows, choice, cutoff)
  {
    var xs := MarketBars(rows, choice, cutoff);
    ZeroBases(xs);
    segs := Stack(xs);
    assert Items(segs) == xs;
  }

  /** Tab 2 from the selector values; the month label fails outside `MESES`. */
  method MarketView(rows: seq<Row>, choice: string, monthName: string) returns (r: Result<seq<Segment>>)
    ensures r.Err? <==> Lookup(monthName).None?
    ensures r.Err? ==> r.failure == UnknownMonth(monthName)
    ensures r.Ok? ==> Stacked(rows, choice, Lookup(monthName).value, r.value)
  {
    var found := Lookup(monthName);
    if found.None? {
      return Err(UnknownMonth(monthName));
    }
    var segs := MarketSegments(rows, choice, found.value);
    r := Ok(segs);
  }
}
