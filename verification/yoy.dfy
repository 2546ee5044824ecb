/** Year-over-year change per category (`groupby(category).pct_change() * 100`)
    and its label. */
module YearOverYear {
  import opened Options
  import opened Grouping
  import opened PctLabel

  /** A grouped point with its change against the category's previous year and
      the label drawn for it (`YoY_pct`, `YoY_label`). */
  datatype Annotated = Annotated(point: Point, change: Pct, caption: string)

  /** `(curr / prev - 1) * 100` as pandas evaluates it: a zero previous total
      gives an infinity carrying the sign of `curr`, or NaN when `curr` is zero too. */
  function PctChange(prev: int, curr: int): (r: Pct)
    ensures r.Finite? <==> prev != 0
    ensures r.Missing? <==> prev == 0 && curr == 0
    ensures r.Infinite? ==> r.negative == (curr < 0)
    ensures r.Finite? ==> prev as real * (1.0 + r.value / 100.0) == curr as real
  {
    if prev == 0 then
      if curr == 0 then Missing else Infinite(curr < 0)
    else
      var ratio := curr as real / prev as real;
      assert prev as real * ratio == curr as real;
      Finite((ratio - 1.0) * 100.0)
  }

  /** The index of the last point before position `n` in category `c`: what
      `shift(1)` within a pandas group reads. */
  function LastOfCategory(ps: seq<Point>, c: string, n: nat): (r: Option<nat>)
    requires n <= |ps|
    ensures r.Some? ==> r.value < n && ps[r.value].key.category == c
    ensures r.Some? ==> forall k :: r.value < k < n ==> ps[k].key.category != c
    ensures r.None? ==> forall k :: 0 <= k < n ==> ps[k].key.category != c
  {
    if n == 0 then None
    else if ps[n - 1].key.category == c then Some(n - 1)
    else LastOfCategory(ps, c, n - 1)
  }

  function Annotate(ps: seq<Point>, i: nat): Annotated
    requires i < |ps|
  {
    var change :=
      match LastOfCategory(ps, ps[i].key.category, i)
      case None => Missing
      case Some(j) => PctChange(ps[j].total, ps[i].total);
    Annotated(ps[i], change, FmtPct(change))
  }

  /** Each point annotated with its change and label, position by position. */
  function YoY(ps: seq<Point>): (r: seq<Annotated>)
    ensures |r| == |ps|
    ensures forall i :: 0 <= i < |r| ==> r[i] == Annotate(ps, i)
  {
    seq(|ps|, i requires 0 <= i < |ps| => Annotate(ps, i))
  }

  /** No point of the same category lies in an earlier year. */
  predicate IsFirstYear(ps: seq<Point>, i: nat)
    requires i < |ps|
  {
    forall k :: 0 <= k < |ps| && ps[k].key.category == ps[i].key.category ==> ps[i].key.year <= ps[k].key.year
  }

  /** `ps[j]` is the latest point of the same category in a year before `ps[i]`'s. */
  predicate IsPriorYear(ps: seq<Point>, i: nat, j: nat)
    requires i < |ps| && j < |ps|
  {
    && ps[j].key.category == ps[i].key.category
    && ps[j].key.year < ps[i].key.year
    && forall k :: 0 <= k < |ps| && ps[k].key.category == ps[i].key.category && ps[k].key.year < ps[i].key.year
         ==> ps[k].key.year <= ps[j].key.year
  }

  /** In key order an earlier point of the same category is an earlier year. */
  lemma {:induction false} SameCategoryEarlier(ps: seq<Point>, j: nat, i: nat)
    requires Sorted(ps) && j < |ps| && i < |ps|
    requires ps[j].key.category == ps[i].key.category
    ensures j < i <==> ps[j].key.year < ps[i].key.year
  {
    KeyLessIrreflexive(Key(ps[i].key.year, ps[i].key.category));
    if j == i {
    } else if j < i {
      assert KeyLess(ps[j].key, ps[i].key);
    } else {
      assert KeyLess(ps[i].key, ps[j].key);
    }
  }

  /** The first year of a category has no change and the empty label. */
  lemma {:induction false} YoYFirstYear(ps: seq<Point>, i: nat)
    requires Sorted(ps) && i < |ps|
    requires IsFirstYear(ps, i)
    ensures YoY(ps)[i].change == Missing
    ensures YoY(ps)[i].caption == ""
  {
    match LastOfCategory(ps, ps[i].key.category, i)
    case None =>
    case Some(j) =>
      SameCategoryEarlier(ps, j, i);
      assert false;
  }

  /** Within a category the previous group row is the previous present year. */
  lemma {:induction false} PreviousIsPriorYear(ps: seq<Point>, i: nat, j: nat)
    requires Sorted(ps) && i < |ps| && j < |ps|
    requires IsPriorYear(ps, i, j)
    ensures LastOfCategory(ps, ps[i].key.category, i) == Some(j)
  {
    SameCategoryEarlier(ps, j, i);
    var last := LastOfCategory(ps, ps[i].key.category, i);
    assert last.Some?;
    var l := last.value;
    SameCategoryEarlier(ps, l, i);
    if j < l {
      SameCategoryEarlier(ps, j, l);
      assert false;
    }
  }

  /** Every later year is compared with the same category's previous present year. */
  lemma {:induction false} YoYLaterYear(ps: seq<Point>, i: nat, j: nat)
    requires Sorted(ps) && i < |ps| && j < |ps|
    requires IsPriorYear(ps, i, j)
    ensures YoY(ps)[i].change == PctChange(ps[j].total, ps[i].total)
  {
    PreviousIsPriorYear(ps, i, j);
    assert YoY(ps)[i] == Annotate(ps, i);
  }

  /** A point that is not its category's first year has a previous present year. */
  lemma {:induction false} FirstOrPrior(ps: seq<Point>, i: nat)
    requires Sorted(ps) && i < |ps|
    requires !IsFirstYear(ps, i)
    ensures exists j :: 0 <= j < |ps| && IsPriorYear(ps, i, j)
  {
    var c := ps[i].key.category;
    var k :| 0 <= k < |ps| && ps[k].key.category == c && ps[k].key.year < ps[i].key.year;
    SameCategoryEarlier(ps, k, i);
    var last := LastOfCategory(ps, c, i);
    assert last.Some?;
    var j := last.value;
    SameCategoryEarlier(ps, j, i);
    forall k' | 0 <= k' < |ps| && ps[k'].key.category == c && ps[k'].key.year < ps[i].key.year
      ensures ps[k'].key.year <= ps[j].key.year
    {
      SameCategoryEarlier(ps, k', i);
      SameCategoryEarlier(ps, k', j);
    }
    assert IsPriorYear(ps, i, j);
  }

  /** `YoY` over grouped points, position by position: a category's first year has
      no change and a blank label, and every other year is compared with the same
      category's previous present year and labelled with that change. */
  lemma {:induction false} YoYCharacterised(ps: seq<Point>)
    requires Sorted(ps)
    ensures forall i :: 0 <= i < |ps| && IsFirstYear(ps, i) ==>
      YoY(ps)[i].change == Missing && YoY(ps)[i].caption == ""
    ensures forall i, j :: 0 <= i < |ps| && 0 <= j < |ps| && IsPriorYear(ps, i, j) ==>
      && YoY(ps)[i].change == PctChange(ps[j].total, ps[i].total)
      && YoY(ps)[i].caption == FmtPct(PctChange(ps[j].total, ps[i].total))
    ensures forall i :: 0 <= i < |ps| && !IsFirstYear(ps, i) ==>
      exists j :: 0 <= j < |ps| && IsPriorYear(ps, i, j)
  {
    forall i | 0 <= i < |ps| && IsFirstYear(ps, i)
      ensures YoY(ps)[i].change == Missing && YoY(ps)[i].caption == ""
    {
      YoYFirstYear(ps, i);
    }
    forall i, j | 0 <= i < |ps| && 0 <= j < |ps| && IsPriorYear(ps, i, j)
      ensures YoY(ps)[i].change == PctChange(ps[j].total, ps[i].total)
    {
      YoYLaterYear(ps, i, j);
    }
    forall i | 0 <= i < |ps| && !IsFirstYear(ps, i)
      ensures exists j :: 0 <= j < |ps| && IsPriorYear(ps, i, j)
    {
      FirstOrPrior(ps, i);
    }
  }

  /** Currency tab, two years of guaraníes: 100 then 150 gives "+50.0%". */
  lemma ExampleRise()
    ensures YoY([Point(Key(2022, "PYG"), 100), Point(Key(2023, "PYG"), 150)])[1].caption == "+50.0%"
  {
    var ps := [Point(Key(2022, "PYG"), 100), Point(Key(2023, "PYG"), 150)];
    assert LastOfCategory(ps, "PYG", 1) == Some(0);
    assert PctChange(100, 150) == Finite(50.0);
    assert RoundHalfEven(500.0) == 500;
    assert Decimal.Show(50) == "50";
  }

  /** A fall to zero is a finite change: 100 then 0 gives "-100.0%". */
  lemma ExampleFallToZero()
    ensures YoY([Point(Key(2022, "USD"), 100), Point(Key(2023, "USD"), 0)])[1].caption == "-100.0%"
  {
    var ps := [Point(Key(2022, "USD"), 100), Point(Key(2023, "USD"), 0)];
    assert LastOfCategory(ps, "USD", 1) == Some(0);
    assert PctChange(100, 0) == Finite(-100.0);
    assert RoundHalfEven(1000.0) == 1000;
    assert Decimal.Show(100) == "100";
  }
}
