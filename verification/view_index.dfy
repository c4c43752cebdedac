/**
 Which ledger row the edit and delete forms of `app.py` act on. Both forms
 list the rows of the filtered view and return a position in that view;
 the position is then handed, unchanged, to `editar_lancamento` and
 `remover_lancamento`, which address the full ledger. The two agree only
 when the view is the whole ledger.
 */
module ViewIndex {
  import opened Dates
  import opened Ledger
  import opened Core
  import opened Filters

  // ---------------------------------------------------------------------
  // As written: the view position is used as a ledger position
  // ---------------------------------------------------------------------

  /** Confirming the delete form on view row `i`, as the code does it. */
  function RemoveShownRowAsWritten(t: Table, p: Period, mc: MonthChoice, i: int): (r: Table)
    requires 0 <= i < |ApplyFilters(t, p, mc)|
    ensures |r| == |t| - 1
    ensures forall j :: 0 <= j < i ==> r[j] == t[j]
    ensures forall j :: i <= j < |r| ==> r[j] == t[j + 1]
    ensures multiset(r) + multiset{t[i]} == multiset(t)
  {
    RemoveEntry(t, i)
  }

  /**
   Saving the edit form on view row `i`, as the code does it: the kind is
   read from the view row, the write goes to ledger row `i`.
   */
  function EditShownRowAsWritten(t: Table, p: Period, mc: MonthChoice, i: int,
                                 data: Date, descricao: string, categoria: string, valor: int): (r: Table)
    requires 0 <= i < |ApplyFilters(t, p, mc)|
    ensures |r| == |t|
    ensures r[i] == Entry(data, descricao, categoria, ApplyFilters(t, p, mc)[i].tipo, valor)
    ensures forall j :: 0 <= j < |t| && j != i ==> r[j] == t[j]
  {
    EditEntry(t, i, data, descricao, categoria, ApplyFilters(t, p, mc)[i].tipo, valor)
  }

  const January := Entry(Date(2024, 1, 10), "Aluguel", "Moradia", Despesa, 150000)
  const February := Entry(Date(2024, 2, 5), "Salário", "Salário", Receita, 500000)

  /**
   With February chosen in the month box, the only row shown is February's;
   deleting it removes January's row instead and leaves February's in place.
   */
  lemma DeleteHitsTheWrongRow()
    ensures ApplyFilters([January, February], AllData, OneMonth(MonthKey(2024, 2))) == [February]
    ensures RemoveShownRowAsWritten([January, February], AllData, OneMonth(MonthKey(2024, 2)), 0) == [February]
  {
    var t := [January, February];
    assert t[1..] == [February];
    var w := PeriodWindow(t, AllData);
    assert w == Window(January.data, February.data);
    assert Select(t, Between(w.start, w.end)) == t;
    assert Select(t, InMonth(MonthKey(2024, 2))) == [February];
  }

  /**
   Editing the only February row shown overwrites January's row with the
   edited values, and February's row keeps its old values.
   */
  lemma EditHitsTheWrongRow()
    ensures ApplyFilters([January, February], AllData, OneMonth(MonthKey(2024, 2))) == [February]
    ensures EditShownRowAsWritten([January, February], AllData, OneMonth(MonthKey(2024, 2)), 0,
                                  February.data, "Salário de fevereiro", February.categoria, February.valor)
         == [Entry(February.data, "Salário de fevereiro", February.categoria, Receita, February.valor), February]
  {
    DeleteHitsTheWrongRow();
  }

  // ---------------------------------------------------------------------
  // Corrected: map the view position back to the ledger
  // ---------------------------------------------------------------------

  /**
   The ledger position of the `i`-th row that mask `m` selects: that row is
   the ledger row, and exactly `i` selected rows come before it.
   */
  function LedgerIndexOf(t: Table, m: Mask, i: int): (j: int)
    requires 0 <= i < |Select(t, m)|
    ensures 0 <= j < |t|
    ensures t[j] == Select(t, m)[i] && Holds(m, t[j])
    ensures |Select(t[..j], m)| == i
  {
    var rest := Select(t[1..], m);
    assert Select(t, m) == if Holds(m, t[0]) then [t[0]] + rest else rest;
    if Holds(m, t[0]) && i == 0 then
      assert t[..0] == [];
      0
    else
      var k := if Holds(m, t[0]) then i - 1 else i;
      assert Select(t, m)[i] == rest[k];
      var j' := LedgerIndexOf(t[1..], m, k);
      assert t[j' + 1] == t[1..][j'];
      assert t[..j' + 1][1..] == t[1..][..j'];
      j' + 1
  }

  /** Selecting across an accepted row: the row stays between the two selections. */
  lemma SelectAcross(a: Table, x: Entry, b: Table, m: Mask)
    requires Holds(m, x)
    ensures Select(a + [x] + b, m) == Select(a, m) + [x] + Select(b, m)
  {
    assert Select([x], m) == [x] by {
      assert [x][1..] == [];
      assert Select([x][1..], m) == [];
    }
    SelectAppend(a, [x], m);
    SelectAppend(a + [x], b, m);
  }

  /** The selection is what mask `m` keeps before the `i`-th selected row, that row, and what it keeps after. */
  lemma SelectAtIndex(t: Table, m: Mask, i: int)
    requires 0 <= i < |Select(t, m)|
    ensures var j := LedgerIndexOf(t, m, i);
            Select(t, m) == Select(t[..j], m) + [t[j]] + Select(t[j + 1..], m)
  {
    var j := LedgerIndexOf(t, m, i);
    assert t == t[..j] + [t[j]] + t[j + 1..];
    SelectAcross(t[..j], t[j], t[j + 1..], m);
  }

  /** Slicing a three-part sequence at its middle element. */
  lemma SliceAround<T>(v: seq<T>, a: seq<T>, x: T, b: seq<T>)
    requires v == a + [x] + b
    ensures v[..|a|] == a && v[|a| + 1..] == b
  {
  }

  /** The selection splits around the `i`-th selected row. */
  lemma SelectAround(t: Table, m: Mask, i: int)
    requires 0 <= i < |Select(t, m)|
    ensures var j := LedgerIndexOf(t, m, i);
            && Select(t[..j], m) == Select(t, m)[..i]
            && Select(t[j + 1..], m) == Select(t, m)[i + 1..]
  {
    var j := LedgerIndexOf(t, m, i);
    SelectAtIndex(t, m, i);
    SliceAround(Select(t, m), Select(t[..j], m), t[j], Select(t[j + 1..], m));
  }

  /** Leaving out the `i`-th selected row leaves it out of the selection and nothing else. */
  lemma SelectWithout(t: Table, m: Mask, i: int)
    requires 0 <= i < |Select(t, m)|
    ensures var j := LedgerIndexOf(t, m, i);
            Select(t[..j] + t[j + 1..], m) == Select(t, m)[..i] + Select(t, m)[i + 1..]
  {
    var j := LedgerIndexOf(t, m, i);
    var x, y := t[..j], t[j + 1..];
    SelectAround(t, m, i);
    SelectAppend(x, y, m);
  }

  /** When every row is selected, view positions are ledger positions. */
  lemma LedgerIndexWhenAllShown(t: Table, m: Mask, i: int)
    requires forall k :: 0 <= k < |t| ==> Holds(m, t[k])
    requires 0 <= i < |Select(t, m)|
    ensures LedgerIndexOf(t, m, i) == i
  {
    var j := LedgerIndexOf(t, m, i);
    SelectKeepsAll(t[..j], m);
  }

  /** Remove the `i`-th row mask `m` selects from the ledger. */
  function RemoveSelected(t: Table, m: Mask, i: int): (r: Table)
    requires 0 <= i < |Select(t, m)|
    ensures |r| == |t| - 1
    ensures exists j :: && 0 <= j < |t| && t[j] == Select(t, m)[i] && |Select(t[..j], m)| == i
                        && r == t[..j] + t[j + 1..]
    ensures multiset(r) + multiset{Select(t, m)[i]} == multiset(t)
    ensures Select(r, m) == Select(t, m)[..i] + Select(t, m)[i + 1..]
  {
    var j := LedgerIndexOf(t, m, i);
    SelectWithout(t, m, i);
    RemoveEntry(t, j)
  }

  /** Overwrite the `i`-th row mask `m` selects, keeping its kind. */
  function EditSelected(t: Table, m: Mask, i: int, data: Date, descricao: string, categoria: string, valor: int)
    : (r: Table)
    requires 0 <= i < |Select(t, m)|
    ensures exists j :: && 0 <= j < |t| && t[j] == Select(t, m)[i] && |Select(t[..j], m)| == i
                        && r == t[j := Entry(data, descricao, categoria, t[j].tipo, valor)]
    ensures var e := Entry(data, descricao, categoria, Select(t, m)[i].tipo, valor);
            multiset(r) == multiset(t) - multiset{Select(t, m)[i]} + multiset{e}
  {
    var j := LedgerIndexOf(t, m, i);
    var e := Entry(data, descricao, categoria, t[j].tipo, valor);
    var r := t[j := e];
    assert t == t[..j] + [t[j]] + t[j + 1..];
    assert r == t[..j] + [e] + t[j + 1..];
    r
  }

  /**
   Confirming the delete form on view row `i`, corrected: the row removed is
   the one shown, and the view, under the same mask, loses exactly that row.
   */
  function RemoveShownRow(t: Table, p: Period, mc: MonthChoice, i: int): (r: Table)
    requires 0 <= i < |ApplyFilters(t, p, mc)|
    ensures |r| == |t| - 1
    ensures exists j :: && 0 <= j < |t| && t[j] == ApplyFilters(t, p, mc)[i]
                        && |Select(t[..j], ViewMask(t, p, mc))| == i
                        && r == t[..j] + t[j + 1..]
    ensures multiset(r) + multiset{ApplyFilters(t, p, mc)[i]} == multiset(t)
    ensures var view := ApplyFilters(t, p, mc);
            Select(r, ViewMask(t, p, mc)) == view[..i] + view[i + 1..]
  {
    ApplyFiltersIsOneMask(t, p, mc);
    RemoveSelected(t, ViewMask(t, p, mc), i)
  }

  /**
   Saving the edit form on view row `i`, corrected: the row shown is the
   one overwritten, it keeps its kind, and every other row is unchanged.
   */
  function EditShownRow(t: Table, p: Period, mc: MonthChoice, i: int,
                        data: Date, descricao: string, categoria: string, valor: int): (r: Table)
    requires 0 <= i < |ApplyFilters(t, p, mc)|
    ensures var shown := ApplyFilters(t, p, mc)[i];
            exists j :: && 0 <= j < |t| && t[j] == shown && |Select(t[..j], ViewMask(t, p, mc))| == i
                        && r == t[j := Entry(data, descricao, categoria, shown.tipo, valor)]
    ensures var shown := ApplyFilters(t, p, mc)[i];
            multiset(r) == multiset(t) - multiset{shown} + multiset{Entry(data, descricao, categoria, shown.tipo, valor)}
  {
    ApplyFiltersIsOneMask(t, p, mc);
    EditSelected(t, ViewMask(t, p, mc), i, data, descricao, categoria, valor)
  }

  /** Without any filter the code as written does what was intended. */
  lemma AsWrittenIsRightWithoutFilters(t: Table, i: int, data: Date, descricao: string, categoria: string, valor: int)
    requires 0 <= i < |t|
    ensures ApplyFilters(t, AllData, AllMonths) == t
    ensures RemoveShownRowAsWritten(t, AllData, AllMonths, i) == RemoveShownRow(t, AllData, AllMonths, i)
    ensures EditShownRowAsWritten(t, AllData, AllMonths, i, data, descricao, categoria, valor)
         == EditShownRow(t, AllData, AllMonths, i, data, descricao, categoria, valor)
  {
    AllDataShowsEverything(t);
    ApplyFiltersIsOneMask(t, AllData, AllMonths);
    var m := ViewMask(t, AllData, AllMonths);
    forall k | 0 <= k < |t| ensures Holds(m, t[k]) {
      assert t[k] in Select(t, m);
    }
    LedgerIndexWhenAllShown(t, m, i);
  }
}
