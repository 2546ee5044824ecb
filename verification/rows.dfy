/** Transaction rows and the two selector filters applied to them. */
module Rows {
  import opened Options
  import opened Months

  /** One transaction: `Periodo` split into year and month, `Moneda`,
      `Mercado` and `Monto_en_PYG`. */
  datatype Row = Row(year: int, month: Month, currency: string, market: string, amount: int)

  /** The currency selector value that disables the currency filter. */
  const Both: string := "Ambas"

  /** `Moneda_short`: the two known currency names become their ISO codes,
      every other value passes through unchanged. */
  function ShortCode(currency: string): (code: string)
    ensures code == "PYG" <==> currency == "Guaraní" || currency == "PYG"
    ensures code == "USD" <==> currency == "Dólar" || currency == "USD"
    ensures code != currency ==> currency == "Guaraní" || currency == "Dólar"
  {
    if currency == "Guaraní" then "PYG"
    else if currency == "Dólar" then "USD"
    else currency
  }

  /** `d[d["Mes"] <= cutoff]`: the months January through `cutoff`, inclusive. */
  function FilterMonth(rows: seq<Row>, cutoff: int): (kept: seq<Row>)
    ensures forall i :: 0 <= i < |kept| ==> kept[i].month <= cutoff
    ensures |kept| <= |rows|
  {
    if |rows| == 0 then []
    else
      var rest := FilterMonth(rows[1..], cutoff);
      if rows[0].month <= cutoff then [rows[0]] + rest else rest
  }

  /** The month filter keeps every row within the cutoff, as often as it occurs, and no other. */
  lemma {:induction false} FilterMonthContents(rows: seq<Row>, cutoff: int)
    ensures forall x :: multiset(FilterMonth(rows, cutoff))[x] == if x.month <= cutoff then multiset(rows)[x] else 0
  {
    if |rows| > 0 {
      FilterMonthContents(rows[1..], cutoff);
      assert rows == [rows[0]] + rows[1..];
    }
  }

  /** Rows whose short currency code is `code`. */
  function KeepCurrency(rows: seq<Row>, code: string): (kept: seq<Row>)
    ensures forall i :: 0 <= i < |kept| ==> ShortCode(kept[i].currency) == code
    ensures |kept| <= |rows|
  {
    if |rows| == 0 then []
    else
      var rest := KeepCurrency(rows[1..], code);
      if ShortCode(rows[0].currency) == code then [rows[0]] + rest else rest
  }

  lemma {:induction false} KeepCurrencyContents(rows: seq<Row>, code: string)
    ensures forall x :: multiset(KeepCurrency(rows, code))[x] == if ShortCode(x.currency) == code then multiset(rows)[x] else 0
  {
    if |rows| > 0 {
      KeepCurrencyContents(rows[1..], code);
      assert rows == [rows[0]] + rows[1..];
    }
  }

  /** The currency selector: `"Ambas"` keeps everything, any other choice keeps
      only rows with that short code. */
  function FilterCurrency(rows: seq<Row>, choice: string): (kept: seq<Row>)
    ensures choice == Both ==> kept == rows
    ensures choice != Both ==> forall i :: 0 <= i < |kept| ==> ShortCode(kept[i].currency) == choice
  {
    if choice == Both then rows else KeepCurrency(rows, choice)
  }

  /** A specific currency choice keeps exactly the rows with that short code, as often as they occur. */
  lemma FilterCurrencyContents(rows: seq<Row>, choice: string)
    requires choice != Both
    ensures forall x :: multiset(FilterCurrency(rows, choice))[x] == if ShortCode(x.currency) == choice then multiset(rows)[x] else 0
  {
    KeepCurrencyContents(rows, choice);
  }

  /** Filtering at a smaller cutoff after a larger one is filtering at the smaller
      one: the month filter is monotone in its cutoff. */
  lemma {:induction false} FilterMonthMonotone(rows: seq<Row>, a: int, b: int)
    requires a <= b
    ensures FilterMonth(FilterMonth(rows, b), a) == FilterMonth(rows, a)
    ensures multiset(FilterMonth(rows, a)) <= multiset(FilterMonth(rows, b))
  {
    if |rows| > 0 {
      FilterMonthMonotone(rows[1..], a, b);
    }
    FilterMonthContents(rows, a);
    FilterMonthContents(rows, b);
  }

  /** A cutoff at or above every month present keeps the rows as they are. */
  lemma {:induction false} FilterMonthKeepsAll(rows: seq<Row>, cutoff: int)
    requires forall i :: 0 <= i < |rows| ==> rows[i].month <= cutoff
    ensures FilterMonth(rows, cutoff) == rows
  {
    if |rows| > 0 {
      FilterMonthKeepsAll(rows[1..], cutoff);
      assert rows == [rows[0]] + rows[1..];
    }
  }

  /** The two selectors commute, so the order in which the market tab applies them
      does not matter. */
  lemma {:induction false} FiltersCommute(rows: seq<Row>, choice: string, cutoff: int)
    ensures FilterMonth(FilterCurrency(rows, choice), cutoff) == FilterCurrency(FilterMonth(rows, cutoff), choice)
  {
    if choice != Both && |rows| > 0 {
      FiltersCommute(rows[1..], choice, cutoff);
    }
  }

  predicate HasMonth(rows: seq<Row>, m: int)
  {
    exists i :: 0 <= i < |rows| && rows[i].month == m
  }

  /** The months from `m` to December that occur in `rows`, ascending. */
  function MonthsFrom(rows: seq<Row>, m: int): (ms: seq<Month>)
    requires 1 <= m <= 13
    ensures forall i, j :: 0 <= i < j < |ms| ==> ms[i] < ms[j]
    ensures forall i :: 0 <= i < |ms| ==> m <= ms[i]
    ensures forall k: int :: k in ms <==> m <= k <= 12 && HasMonth(rows, k)
    decreases 13 - m
  {
    if m == 13 then []
    else if HasMonth(rows, m) then [m] + MonthsFrom(rows, m + 1)
    else MonthsFrom(rows, m + 1)
  }

  /** `sorted(d["Mes"].unique())`: the months the selector offers. */
  function AvailableMonths(rows: seq<Row>): (ms: seq<Month>)
    ensures forall i, j :: 0 <= i < j < |ms| ==> ms[i] < ms[j]
    ensures forall k: int :: k in ms <==> HasMonth(rows, k)
  {
    MonthsFrom(rows, 1)
  }

  /** The selector's labels, one per available month. */
  function MonthOptions(rows: seq<Row>): (labels: seq<string>)
    ensures |labels| == |AvailableMonths(rows)|
    ensures forall i :: 0 <= i < |labels| ==> Lookup(labels[i]) == Some(AvailableMonths(rows)[i])
  {
    var ms := AvailableMonths(rows);
    var labels := seq(|ms|, i requires 0 <= i < |ms| => Name(ms[i]));
    assert forall i :: 0 <= i < |labels| ==> Lookup(labels[i]) == Some(ms[i]) by {
      forall i | 0 <= i < |labels|
        ensures Lookup(labels[i]) == Some(ms[i])
      {
        LookupName(ms[i]);
      }
    }
    labels
  }

  /** The preselected cutoff, `index=len(meses) - 1`: the latest month present.
      With no rows there is nothing to select. */
  function DefaultCutoff(rows: seq<Row>): (r: Option<Month>)
    ensures r.None? <==> |rows| == 0
    ensures r.Some? ==> HasMonth(rows, r.value)
    ensures r.Some? ==> forall i :: 0 <= i < |rows| ==> rows[i].month <= r.value
  {
    var ms := AvailableMonths(rows);
    if |ms| == 0 then
      assert |rows| == 0 by {
        if |rows| > 0 {
          assert HasMonth(rows, rows[0].month);
        }
      }
      None
    else
      var last := ms[|ms| - 1];
      assert forall i :: 0 <= i < |rows| ==> rows[i].month <= last by {
        forall i | 0 <= i < |rows|
          ensures rows[i].month <= last
        {
          assert HasMonth(rows, rows[i].month);
          AscendingMax(ms, rows[i].month);
        }
      }
      Some(last)
  }

  lemma AscendingMax(ms: seq<Month>, x: int)
    requires forall i, j :: 0 <= i < j < |ms| ==> ms[i] < ms[j]
    requires x in ms
    ensures x <= ms[|ms| - 1]
  {
  }

  /** At the preselected cutoff the month filter keeps every row. */
  lemma DefaultCutoffKeepsAll(rows: seq<Row>)
    requires DefaultCutoff(rows).Some?
    ensures FilterMonth(rows, DefaultCutoff(rows).value) == rows
  {
    FilterMonthKeepsAll(rows, DefaultCutoff(rows).value);
  }
}
