# Mercado bursátil: chart data pipeline in Dafny

This project models the data-shaping part of `render_mercado`, the function that turns the
Paraguayan securities-market transactions into the numbers its two chart tabs draw:

- **Volumen por moneda**: amounts per year and short currency code (`PYG`, `USD`) for January
  through a selected month. Each bar carries a year-over-year change label.
- **Mercado**: amounts per year and market for a selected currency (or `Ambas`, both) and month
  cutoff. Bars are stacked in a fixed order: `Repos`, then `Mercado Secundario`, then
  `Mercado Primario`, then any other market. Each segment has a base (`Monto_base`) and a
  centre (`Monto_centro`) where its label is placed.

A transaction is a record `Row(year, month, currency, market, amount)`. `year` and `month` come
from `Periodo`, `currency` from `Moneda`, `market` from `Mercado` and `amount` from
`Monto_en_PYG`. Amounts are integers. Percentages and segment centres are reals.

Modules, in pipeline order:

| file | module | models |
|---|---|---|
| `common.dfy` | `Options`, `Text` | optional values, Python's `str` ordering |
| `months.dfy` | `Months` | the `MESES` table and its inverse |
| `rows.dfy` | `Rows` | `Moneda_short`, the month and currency filters, the months offered and the default cutoff |
| `grouping.dfy` | `Grouping` | `groupby([year, category]).sum()` |
| `pct_label.dfy` | `Decimal`, `PctLabel` | `_fmt_pct` and the `:+.1f` rounding |
| `yoy.dfy` | `YearOverYear` | `groupby(category).pct_change() * 100` |
| `stacking.dfy` | `Stacking` | `Mercado_orden`, the stacking sort, `Monto_base` and `Monto_centro` |
| `dashboard.dfy` | `Dashboard` | the two tabs end to end |

Two behaviours of the year-over-year label are worth stating:

- **Zero prior total.** The change is not guarded. pandas computes `curr / 0 - 1`, which is
  `+inf` or `-inf` when the current total is not zero, and the label reads `"+inf%"` or
  `"-inf%"`. When both totals are zero the result is NaN and the label is `""`. `PctChange`
  models exactly this, using `Pct = Missing | Finite | Infinite`.
- **Fall to zero.** A fall from 100 to 0 is a finite -100 % change, labelled `"-100.0%"`
  (lemma `ExampleFallToZero`).

## Model

| member | source | states |
|---|---|---|
| `Months.Lookup` | chart_mercado.py:38 | The inverted `MESES` table returns a month whose name is the given label. It fails exactly when the label is none of the twelve names (a `KeyError` in the source). |
| `Months.NameInjective` | chart_mercado.py:5-9 | The twelve month names are distinct, so two months with the same name are the same month. |
| `Months.LookupName` | chart_mercado.py:109 | The label offered for month `m` resolves back to `m`. |
| `Rows.ShortCode` | chart_mercado.py:28 | The short code is `PYG` exactly for `Guaraní` or `PYG`, and `USD` exactly for `Dólar` or `USD`. Every other currency passes through unchanged. |
| `Rows.FilterMonth` | chart_mercado.py:39 | Every row the month filter keeps is within the cutoff. |
| `Rows.FilterMonthContents` | chart_mercado.py:110 | The month filter keeps exactly the rows with month ≤ cutoff, as many times as they occur: the cutoff is inclusive. |
| `Rows.FilterMonthMonotone` | chart_mercado.py:39 | Filtering at a smaller cutoff after a larger one equals filtering at the smaller one. So the rows kept at cutoff a are a sub-multiset of those kept at cutoff b ≥ a. |
| `Rows.FilterMonthKeepsAll` | chart_mercado.py:39 | A cutoff at or above every month present returns the rows unchanged. |
| `Rows.KeepCurrency` | chart_mercado.py:107 | Every row kept has the chosen short code. |
| `Rows.KeepCurrencyContents` | chart_mercado.py:107 | Exactly the rows whose short code equals the choice are kept, with their multiplicity. |
| `Rows.FilterCurrency` | chart_mercado.py:106-107 | `"Ambas"` returns the rows unchanged. Any other choice keeps only rows with that short code. |
| `Rows.FilterCurrencyContents` | chart_mercado.py:106-107 | A choice other than `"Ambas"` keeps exactly the rows whose short code equals the choice, with their multiplicity. |
| `Rows.FiltersCommute` | chart_mercado.py:106-110 | Applying the currency filter and the month filter in either order gives the same rows. |
| `Rows.AvailableMonths` | chart_mercado.py:98 | The offered months are strictly ascending (so deduplicated). A month is offered exactly when some row falls in it. |
| `Rows.MonthOptions` | chart_mercado.py:101 | There is one label per offered month, and each label resolves back to its month. |
| `Rows.DefaultCutoff` | chart_mercado.py:31-35 | The preselected cutoff is a month present in the data, and no row's month exceeds it. It is absent exactly when there are no rows. |
| `Rows.DefaultCutoffKeepsAll` | chart_mercado.py:35-39 | At the preselected cutoff the month filter keeps every row. |
| `Grouping.GroupSum` | chart_mercado.py:41-45 | Points are strictly ascending by (year, category), so no key appears twice. The output is empty exactly when the input is. |
| `Grouping.GroupSumKeys` | chart_mercado.py:113-116 | The grouped keys are exactly the (year, category) pairs that occur in the rows. |
| `Grouping.GroupSumTotals` | chart_mercado.py:41-45 | For every key, the grouped total equals the sum of the amounts of the rows with that key. |
| `Grouping.PointIsSumOfItsRows` | chart_mercado.py:113-116 | Each point's total is the sum of exactly the rows with its year and category. |
| `Grouping.GroupSumConserves` | chart_mercado.py:41-45 | Grouping conserves the grand total. |
| `Grouping.AddTotals` | chart_mercado.py:41-45 | Adding one row raises its key's total by the row's amount and leaves every other total unchanged. |
| `YearOverYear.PctChange` | chart_mercado.py:120 | The change is finite exactly when the previous total is non-zero, and applying it to the previous total gives back the current one. With a zero previous total the change is NaN if the current total is also zero, otherwise an infinity with the current total's sign. |
| `YearOverYear.LastOfCategory` | chart_mercado.py:120 | Returns the last earlier position of the same category (what `shift(1)` within a group reads), or none if the category has no earlier position. |
| `YearOverYear.YoYCharacterised` | chart_mercado.py:46-49 | For grouped points in key order, a category's first year gets no change and the label `""`. Every other year has a previous present year of its category, and its change is `PctChange` against that year's total, labelled `_fmt_pct` of that change. |
| `YearOverYear.FirstOrPrior` | chart_mercado.py:119-120 | A point that is not its category's first year has a previous present year in the same category. |
| `YearOverYear.PreviousIsPriorYear` | chart_mercado.py:46-48 | In key order, a point's previous row within its category is that category's latest point from an earlier present year. |
| `YearOverYear.YoYFirstYear` | chart_mercado.py:46-49 | A category's first year has no change and the label `""`. |
| `YearOverYear.YoYLaterYear` | chart_mercado.py:119-121 | A later year's change compares its total with the total of the same category's previous present year. |
| `YearOverYear.ExampleRise` | chart_mercado.py:46-49 | Totals of 100 then 150 in one currency give the label `"+50.0%"`. |
| `YearOverYear.ExampleFallToZero` | chart_mercado.py:119-121 | Totals of 100 then 0 give the label `"-100.0%"`, not a blank. |
| `PctLabel.RoundHalfEven` | chart_mercado.py:15 | The result is within one half of its argument, and an exact tie goes to the even neighbour. |
| `PctLabel.FmtPct` | chart_mercado.py:12-15 | The label is `""` exactly for a missing value. A finite value gets an explicit sign (`-` exactly when it is negative), integer digits, a point, one digit and `%`. An infinity gets `"+inf%"` or `"-inf%"`. |
| `PctLabel.LabelRoundTrip` | chart_mercado.py:15 | A finite label, read back as a number, is within 0.05 of the value it was made from. |
| `Decimal.ReadShow` | chart_mercado.py:15 | Reading back the decimal digits of the label's integer part gives the integer. |
| `Stacking.Priority` | chart_mercado.py:124-126 | A market's order is its position in `stack_order`. The result is 99 exactly for markets not in that list. |
| `Stacking.StackSort` | chart_mercado.py:131 | The result is a permutation of its input, ordered by year, then `Mercado_orden`, then market name. |
| `Stacking.StackSortDistinct` | chart_mercado.py:119-131 | Sorting does not create duplicate (year, market) keys. |
| `Stacking.Stack` | chart_mercado.py:134-135 | Each segment's base is the sum of the same-year amounts before it. Consecutive segments of one year tile: the next base is this base plus this amount. The centre is base + amount / 2 (`Monto_centro`). |
| `Stacking.SortedYears` | chart_mercado.py:131 | The stacking order is ordered by year. |
| `Stacking.FirstOfYearAtZero` | chart_mercado.py:134 | After the sort, the first segment of every year has base 0. |
| `Stacking.LastOfYearAtTop` | chart_mercado.py:134 | After the sort, the top of each year's last segment equals that year's total. |
| `Stacking.ReposAtBottom` | chart_mercado.py:124-134 | A `Repos` segment always has base 0. |
| `Stacking.WithinYearOrder` | chart_mercado.py:124-131 | Within a year, `Mercado_orden` never decreases up the stack. Markets with equal order are in name order. |
| `Dashboard.KeepMember` | chart_mercado.py:106-110 | The market tab keeps a row exactly when it passes both selectors. |
| `Dashboard.KeepTotal` | chart_mercado.py:106-116 | For every key, the total of the kept rows equals the sum of the amounts of the selected rows with that key. |
| `Dashboard.KeepKeys` | chart_mercado.py:106-116 | The keys of the kept rows are exactly the keys of the selected rows. |
| `Dashboard.BarsAreSelectedSums` | chart_mercado.py:41-48 | Each bar's total is the sum of the selected rows of its year and category. There is one bar for each such (year, category). |
| `Dashboard.CurrencyBars` | chart_mercado.py:39-49 | For a resolved cutoff, each bar's total is the sum of its year's rows for that currency up to the cutoff. The output is empty exactly when no row falls within the cutoff. There is exactly one bar per (year, code) that has a row up to the cutoff, and no two bars share a key. Bar `i` carries the `i`-th grouped (year, code) total. |
| `Dashboard.CurrencyBarsFirstYear` | chart_mercado.py:46-49 | In tab 1, a currency's first year gets no change and a blank label. |
| `Dashboard.CurrencyBarsLaterYear` | chart_mercado.py:46-49 | In tab 1, every later year gets the percentage change from the same currency's previous present year, and that change formatted as its label. |
| `Dashboard.CurrencyView` | chart_mercado.py:38-39 | Tab 1 fails exactly on a month label outside `MESES`, with that label. Otherwise it shows the bars for the label's month. |
| `Dashboard.MarketBars` | chart_mercado.py:113-131 | The market tab's bars are a reordering of the annotated grouped bars, in stacking order with distinct keys. There is one bar per selected (year, market), and each carries the sum of the selected rows for its year and market. |
| `Dashboard.MarketSegments` | chart_mercado.py:106-135 | For a resolved cutoff, the segments' bars are exactly the market bars, in stacking order, one per selected (year, market), each with its year-over-year label. Every segment carries its selected sum. Each year's first segment and every `Repos` segment start at 0. Consecutive segments of a year tile without gap or overlap. Each centre is base + amount / 2. |
| `Dashboard.SelectedRowIsDrawn` | chart_mercado.py:106-116 | Every row that passes both selectors has a market bar, and so a tab-2 segment, for its (year, market). |
| `Dashboard.MarketView` | chart_mercado.py:106-110 | Tab 2 fails exactly on a month label outside `MESES`, with that label. Otherwise its segments have every property listed for `MarketSegments` at the label's month, bars and centres included. |

## Left out

- `app.py` (`load_data`, `main`): reading the spreadsheet, Streamlit's cache, header
  normalisation and navigation. The model takes the rows as already-typed records.
- Streamlit widgets. Selector values are plain parameters (`choice`, `monthName`). With no rows the
  month selector has nothing to offer. In the source the inverse lookup then raises; here
  `DefaultCutoff` is absent and an unknown label gives `UnknownMonth`.
- All Altair chart construction: encodings, tooltips, axis formats, the white text on `Repos`
  segments, and the `labels_bg` layer, which is built but never drawn.
- The `Monto_millones` division by 1,000,000 in the currency tab. Totals stay in guaraníes. The
  percentage changes do not depend on the scale.
- `Instrumento` and every column the pipeline does not read. Missing cells (NaN) in the input
  are not modelled: every row has all five fields.
- `PctLabel.FmtPct`: the percentage is the exact real quotient, not the IEEE double pandas
  computes. The label rounds that exact value half-to-even. When the double differs from the
  exact quotient, a result near a rounding boundary can fall on the other side.
- `pd.Categorical` turning markets outside `stack_order` into NaN in the `Mercado` column. This
  only affects presentation: the bar colour (chart_mercado.py:146-150) and the tooltip name
  (chart_mercado.py:155) of markets outside `stack_order`, which lose their name there. The legend
  entries are fixed by the colour scale's domain. `Mercado_orden`, the changes and the stack
  geometry do not read the column.
- The order of currencies within a year in the currency tab. The source re-sorts by year with
  an unstable quicksort, so this order is not defined. The model keeps the grouped
  (year, code) order. Totals and changes do not depend on it.
- The market tab's intermediate sort by (market, year) is not a separate step. Its only visible
  effect is the tie-break among markets with equal `Mercado_orden`, and `Stacking.Before`
  includes that tie-break.
