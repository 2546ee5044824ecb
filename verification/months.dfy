/** The `MESES` table and its inverse, which turn a month selector label into a cutoff. */
module Months {
  import opened Options

  /** A calendar month number, as `Periodo.dt.month` yields it. */
  type Month = m: int | 1 <= m <= 12 witness 1

  /** `MESES`, January first. */
  const Names: seq<string> := [
    "Enero", "Febrero", "Marzo", "Abril",
    "Mayo", "Junio", "Julio", "Agosto",
    "Septiembre", "Octubre", "Noviembre", "Diciembre"
  ]

  function Name(m: Month): (s: string)
    ensures s in Names
  {
    Names[m - 1]
  }

  /** The inverted table `{v: k for k, v in MESES.items()}` applied to `name`;
      a label outside the table is a `KeyError` in the dashboard, `None` here. */
  function Lookup(name: string): (r: Option<Month>)
    ensures r.Some? ==> Name(r.value) == name
    ensures r.None? <==> forall m: Month :: Name(m) != name
  {
    if name == Names[0] then Some(1)
    else if name == Names[1] then Some(2)
    else if name == Names[2] then Some(3)
    else if name == Names[3] then Some(4)
    else if name == Names[4] then Some(5)
    else if name == Names[5] then Some(6)
    else if name == Names[6] then Some(7)
    else if name == Names[7] then Some(8)
    else if name == Names[8] then Some(9)
    else if name == Names[9] then Some(10)
    else if name == Names[10] then Some(11)
    else if name == Names[11] then Some(12)
    else None
  }

  /** Twelve distinct names: the table is one-to-one. */
  lemma NameInjective(a: Month, b: Month)
    requires Name(a) == Name(b)
    ensures a == b
  {
  }

  /** The label offered for month `m` resolves back to `m`. */
  lemma LookupName(m: Month)
    ensures Lookup(Name(m)) == Some(m)
  {
  }
}
