/**
 The numbers `finance/charts.py` feeds to its plots: the monthly evolution
 table, the per-category totals of the pie charts and of the distribution
 bars, and the running balance. The figures themselves are not modelled.
 */
module Charts {
  import opened Dates
  import opened Ledger
  import opened Core
  import opened Filters

  // ---------------------------------------------------------------------
  // Monthly evolution (grafico_evolucao_mensal)
  // ---------------------------------------------------------------------

  datatype MonthRow = MonthRow(key: MonthKey, receitas: int, despesas: int, saldo: int)

  /** The length of Python's `xs[:n]` for a list of length `len` (a negative `n` counts from the end). */
  function SliceLength(len: nat, n: int): (k: nat)
    ensures k <= len
  {
    if n >= 0 then (if n < len then n else len)
    else (if len + n > 0 then len + n else 0)
  }

  /** The totals of one month: the general summary restricted to that month's rows. */
  function MonthRowOf(t: Table, k: MonthKey): (r: MonthRow)
    ensures r.key == k && r.saldo == r.receitas - r.despesas
  {
    var s := TotalSummary(Select(t, InMonth(k)));
    MonthRow(k, s.receitas, s.despesas, s.receitas - s.despesas)
  }

  /**
   A new row changes only its own month's totals, and those by exactly its
   contribution.
   */
  lemma MonthRowAppend(t: Table, e: Entry, k: MonthKey)
    ensures KeyOf(e.data) != k ==> MonthRowOf(t + [e], k) == MonthRowOf(t, k)
    ensures KeyOf(e.data) == k ==>
              && MonthRowOf(t + [e], k).receitas == MonthRowOf(t, k).receitas + RowSummary(e).receitas
              && MonthRowOf(t + [e], k).despesas == MonthRowOf(t, k).despesas + RowSummary(e).despesas
  {
    SelectAppend(t, [e], InMonth(k));
    assert [e][1..] == [];
    assert Select([e], InMonth(k)) == if KeyOf(e.data) == k then [e] else [];
    var before := Select(t, InMonth(k));
    if KeyOf(e.data) == k {
      SummaryAppend(before, e);
    } else {
      assert before + [] == before;
    }
  }

  predicate Listed(rows: seq<MonthRow>, k: MonthKey) {
    exists i :: 0 <= i < |rows| && rows[i].key == k
  }

  /**
   The table behind the monthly bars: the `meses` most recent months present
   in the data, oldest first, each with its income, expense and balance.
   */
  function MonthlyEvolution(t: Table, meses: int): (rows: seq<MonthRow>)
    ensures t == [] ==> rows == []
    ensures meses >= 0 ==> |rows| <= meses
    ensures meses > 0 && t != [] ==> rows != []
    ensures forall i :: 0 <= i < |rows| ==> HasMonth(t, rows[i].key)
    ensures forall i, j :: 0 <= i < j < |rows| ==> KeyLt(rows[i].key, rows[j].key)
    ensures meses >= 0 && |rows| < meses ==> forall k :: HasMonth(t, k) ==> Listed(rows, k)
    ensures forall j, i :: 0 <= j < |t| && 0 <= i < |rows| && !Listed(rows, KeyOf(t[j].data))
                           ==> KeyLt(KeyOf(t[j].data), rows[i].key)
    ensures forall i :: 0 <= i < |rows| ==>
      && rows[i].receitas == TotalSummary(Select(t, InMonth(rows[i].key))).receitas
      && rows[i].despesas == TotalSummary(Select(t, InMonth(rows[i].key))).despesas
      && rows[i].saldo == rows[i].receitas - rows[i].despesas
  {
    if t == [] then []
    else
      var desc := MonthsPresent(t);
      var n := SliceLength(|desc|, meses);
      var rows := RowsFor(t, Reversed(desc[..n]));
      EvolutionFacts(t, meses, desc, n, rows);
      rows
  }

  /** The months of `ks`, last first. */
  function Reversed(ks: seq<MonthKey>): (r: seq<MonthKey>)
    ensures |r| == |ks|
    ensures forall i :: 0 <= i < |ks| ==> r[i] == ks[|ks| - 1 - i]
  {
    if ks == [] then [] else Reversed(ks[1..]) + [ks[0]]
  }

  /** One row per month of `ks`, in the same order. */
  function RowsFor(t: Table, ks: seq<MonthKey>): (rows: seq<MonthRow>)
    ensures |rows| == |ks|
    ensures forall i :: 0 <= i < |ks| ==> rows[i] == MonthRowOf(t, ks[i])
  {
    seq(|ks|, i requires 0 <= i < |ks| => MonthRowOf(t, ks[i]))
  }

  lemma EvolutionFacts(t: Table, meses: int, desc: seq<MonthKey>, n: nat, rows: seq<MonthRow>)
    requires t != []
    requires desc == MonthsPresent(t)
    requires n == SliceLength(|desc|, meses)
    requires rows == RowsFor(t, Reversed(desc[..n]))
    ensures meses > 0 ==> rows != []
    ensures meses >= 0 && |rows| < meses ==> forall k :: HasMonth(t, k) ==> Listed(rows, k)
    ensures forall j, i :: 0 <= j < |t| && 0 <= i < |rows| && !Listed(rows, KeyOf(t[j].data))
                           ==> KeyLt(KeyOf(t[j].data), rows[i].key)
  {
  }

  // ---------------------------------------------------------------------
  // Category totals (grafico_despesas_por_categoria, grafico_receitas_por_categoria,
  // grafico_distribuicao_categorias)
  // ---------------------------------------------------------------------

  datatype CategoryTotal = CategoryTotal(categoria: string, total: int)

  function SumTotals(g: seq<CategoryTotal>): int {
    if g == [] then 0 else g[0].total + SumTotals(g[1..])
  }

  predicate DistinctCategories(g: seq<CategoryTotal>) {
    forall i, j :: 0 <= i < j < |g| ==> g[i].categoria != g[j].categoria
  }

  predicate Shows(g: seq<CategoryTotal>, c: string) {
    exists i :: 0 <= i < |g| && g[i].categoria == c
  }

  function TotalsFor(t: Table, k: Kind, cs: seq<string>): (g: seq<CategoryTotal>)
    ensures |g| == |cs|
    ensures forall i :: 0 <= i < |g| ==> g[i] == CategoryTotal(cs[i], CategorySum(t, k, cs[i]))
    ensures SumTotals(g) == SumOver(t, k, cs)
  {
    if cs == [] then []
    else [CategoryTotal(cs[0], CategorySum(t, k, cs[0]))] + TotalsFor(t, k, cs[1..])
  }

  /**
   `df[df['Tipo'] == k].groupby('Categoria')['Valor'].sum()`: one total per
   category of kind `k`, adding up to the kind's total.
   */
  function GroupByCategory(t: Table, k: Kind): (g: seq<CategoryTotal>)
    ensures DistinctCategories(g)
    ensures forall c :: Shows(g, c) <==> c in CategorySet(t, k)
    ensures forall i :: 0 <= i < |g| ==> g[i].total == CategorySum(t, k, g[i].categoria)
    ensures SumTotals(g) == KindTotal(t, k)
  {
    var cs := CategoriesOf(t, k);
    var g := TotalsFor(t, k, cs);
    forall i | 0 <= i < |t| && t[i].tipo == k ensures t[i].categoria in cs {
      assert t[i].categoria in CategorySet(t, k);
    }
    CategorySumsAddUp(t, k, cs);
    assert forall c :: Shows(g, c) <==> c in cs by {
      forall c | c in cs ensures Shows(g, c) {
        var i :| 0 <= i < |cs| && cs[i] == c;
        assert g[i].categoria == c;
      }
    }
    g
  }

  /** `categorias[categorias > 0.0]` */
  function KeepPositive(g: seq<CategoryTotal>): (r: seq<CategoryTotal>)
    ensures forall x :: x in r <==> x in g && x.total > 0
    ensures DistinctCategories(g) ==> DistinctCategories(r)
    ensures (forall i :: 0 <= i < |g| ==> g[i].total >= 0) ==> SumTotals(r) == SumTotals(g)
  {
    if g == [] then []
    else
      var rest := KeepPositive(g[1..]);
      assert forall x :: x in g <==> x == g[0] || x in g[1..];
      if g[0].total > 0 then
        assert DistinctCategories(g) ==> forall x :: x in rest ==> x.categoria != g[0].categoria;
        [g[0]] + rest
      else
        rest
  }

  /** `a` may precede `b` in a list sorted by total, ascending or descending. */
  predicate Before(a: CategoryTotal, b: CategoryTotal, ascending: bool) {
    if ascending then a.total <= b.total else a.total >= b.total
  }

  /** Non-decreasing (`ascending`) or non-increasing totals. */
  predicate Ordered(g: seq<CategoryTotal>, ascending: bool) {
    forall i, j :: 0 <= i < j < |g| ==> Before(g[i], g[j], ascending)
  }

  lemma OrderedCons(h: CategoryTotal, g: seq<CategoryTotal>, ascending: bool)
    requires Ordered(g, ascending)
    requires forall y :: y in g ==> Before(h, y, ascending)
    ensures Ordered([h] + g, ascending)
  {
    var r := [h] + g;
    forall i, j | 0 <= i < j < |r| ensures Before(r[i], r[j], ascending) {
      assert r[j] == g[j - 1];
      if i > 0 {
        assert r[i] == g[i - 1];
      }
    }
  }

  /** The head of an ordered list may precede every element. */
  lemma OrderedHeadFirst(g: seq<CategoryTotal>, ascending: bool)
    requires Ordered(g, ascending) && g != []
    ensures forall y :: y in g ==> Before(g[0], y, ascending)
    ensures Ordered(g[1..], ascending)
  {
    forall y | y in g ensures Before(g[0], y, ascending) {
      var j :| 0 <= j < |g| && g[j] == y;
    }
    var tail := g[1..];
    forall i, j | 0 <= i < j < |tail| ensures Before(tail[i], tail[j], ascending) {
      assert tail[i] == g[i + 1] && tail[j] == g[j + 1];
    }
  }

  /** Putting `x` behind the head: the head still comes first. */
  lemma OrderedBehindHead(g: seq<CategoryTotal>, x: CategoryTotal, rest: seq<CategoryTotal>, ascending: bool)
    requires Ordered(g, ascending) && g != []
    requires !Before(x, g[0], ascending)
    requires Ordered(rest, ascending)
    requires multiset(rest) == multiset(g[1..]) + multiset{x}
    ensures Ordered([g[0]] + rest, ascending)
  {
    OrderedHeadFirst(g, ascending);
    forall y | y in rest ensures Before(g[0], y, ascending) {
      assert y in multiset(rest);
      if y != x {
        assert y in multiset(g[1..]);
        assert y in g[1..];
      }
    }
    OrderedCons(g[0], rest, ascending);
  }

  function InsertByTotal(x: CategoryTotal, g: seq<CategoryTotal>, ascending: bool): (r: seq<CategoryTotal>)
    requires Ordered(g, ascending)
    ensures Ordered(r, ascending)
    ensures |r| == |g| + 1
    ensures multiset(r) == multiset(g) + multiset{x}
    ensures SumTotals(r) == x.total + SumTotals(g)
  {
    if g == [] then [x]
    else if Before(x, g[0], ascending) then
      OrderedHeadFirst(g, ascending);
      OrderedCons(x, g, ascending);
      var r := [x] + g;
      assert r[1..] == g;
      r
    else
      OrderedHeadFirst(g, ascending);
      var rest := InsertByTotal(x, g[1..], ascending);
      OrderedBehindHead(g, x, rest, ascending);
      assert g == [g[0]] + g[1..];
      var r := [g[0]] + rest;
      assert r[1..] == rest;
      r
  }

  /** `sort_values(ascending=...)`: the same totals, in order. */
  function SortByTotal(g: seq<CategoryTotal>, ascending: bool): (r: seq<CategoryTotal>)
    ensures Ordered(r, ascending)
    ensures |r| == |g|
    ensures multiset(r) == multiset(g)
    ensures SumTotals(r) == SumTotals(g)
  {
    if g == [] then []
    else
      assert g == [g[0]] + g[1..];
      InsertByTotal(g[0], SortByTotal(g[1..], ascending), ascending)
  }

  /**
   The slices of a category pie for kind `k`: the categories with a positive
   sum, largest first. The pie's displayed total is `SumTotals` of the result.
   */
  function CategoryPie(t: Table, k: Kind): (r: seq<CategoryTotal>)
    ensures Ordered(r, false)
    ensures forall i :: 0 <= i < |r| ==> r[i].total > 0 && r[i].total == CategorySum(t, k, r[i].categoria)
    ensures forall c :: Shows(r, c) <==> c in CategorySet(t, k) && CategorySum(t, k, c) > 0
    ensures multiset(r) == multiset(KeepPositive(GroupByCategory(t, k)))
  {
    var g := GroupByCategory(t, k);
    var kept := KeepPositive(g);
    var r := SortByTotal(kept, false);
    SameRowsSameShows(r, kept);
    PositiveCategories(t, k);
    forall i | 0 <= i < |r| ensures r[i].total > 0 && r[i].total == CategorySum(t, k, r[i].categoria) {
      assert r[i] in multiset(kept);
      assert r[i] in g;
    }
    r
  }

  /** Two lists holding the same totals show the same categories. */
  lemma SameRowsSameShows(a: seq<CategoryTotal>, b: seq<CategoryTotal>)
    requires multiset(a) == multiset(b)
    ensures forall c :: Shows(a, c) <==> Shows(b, c)
  {
    forall c | Shows(a, c) ensures Shows(b, c) {
      var i :| 0 <= i < |a| && a[i].categoria == c;
      assert a[i] in multiset(b);
      var j :| 0 <= j < |b| && b[j] == a[i];
    }
    forall c | Shows(b, c) ensures Shows(a, c) {
      var i :| 0 <= i < |b| && b[i].categoria == c;
      assert b[i] in multiset(a);
      var j :| 0 <= j < |a| && a[j] == b[i];
    }
  }

  /** A category survives the positivity filter exactly when one of its totals is positive. */
  lemma KeptShows(g: seq<CategoryTotal>, c: string)
    ensures Shows(KeepPositive(g), c) <==> exists i :: 0 <= i < |g| && g[i].categoria == c && g[i].total > 0
  {
    var kept := KeepPositive(g);
    if Shows(kept, c) {
      var i :| 0 <= i < |kept| && kept[i].categoria == c;
      assert kept[i] in g;
      var j :| 0 <= j < |g| && g[j] == kept[i];
      assert g[j].categoria == c && g[j].total > 0;
    }
    if exists i :: 0 <= i < |g| && g[i].categoria == c && g[i].total > 0 {
      var i :| 0 <= i < |g| && g[i].categoria == c && g[i].total > 0;
      assert g[i] in kept;
      var j :| 0 <= j < |kept| && kept[j] == g[i];
      assert kept[j].categoria == c;
    }
  }

  /** One category is kept for the pie exactly when its sum is positive. */
  lemma PositiveCategory(t: Table, k: Kind, c: string)
    ensures Shows(KeepPositive(GroupByCategory(t, k)), c) <==> c in CategorySet(t, k) && CategorySum(t, k, c) > 0
  {
    var g := GroupByCategory(t, k);
    KeptShows(g, c);
    if c in CategorySet(t, k) && CategorySum(t, k, c) > 0 {
      assert Shows(g, c);
      var i :| 0 <= i < |g| && g[i].categoria == c;
      assert g[i].total > 0;
    }
  }

  /** The categories kept for the pie are those whose sum is positive. */
  lemma PositiveCategories(t: Table, k: Kind)
    ensures forall c :: Shows(KeepPositive(GroupByCategory(t, k)), c)
                        <==> c in CategorySet(t, k) && CategorySum(t, k, c) > 0
  {
    forall c {
      PositiveCategory(t, k, c);
    }
  }

  /** With non-negative amounts, the pie's total is the kind's general total. */
  lemma PieTotalIsKindTotal(t: Table, k: Kind)
    requires forall i :: 0 <= i < |t| ==> t[i].valor >= 0
    ensures SumTotals(CategoryPie(t, k)) == KindTotal(t, k)
  {
    var g := GroupByCategory(t, k);
    forall i | 0 <= i < |g| ensures g[i].total >= 0 {
      var rows := Select(Select(t, KindIs(k)), CategoryIs(g[i].categoria));
      SelectMembers(t, KindIs(k));
      SelectMembers(Select(t, KindIs(k)), CategoryIs(g[i].categoria));
      forall j | 0 <= j < |rows| ensures rows[j].valor >= 0 {
        assert rows[j] in rows;
        assert rows[j] in Select(t, KindIs(k));
      }
      TotalNonNegative(rows);
    }
    var kept := KeepPositive(g);
    assert SumTotals(kept) == SumTotals(g);
    assert SumTotals(SortByTotal(kept, false)) == SumTotals(kept);
  }

  /**
   The horizontal distribution bars: every income and every expense category
   with its sum, smallest first; nothing for an empty table.
   */
  function DistributionBars(t: Table): (r: (seq<CategoryTotal>, seq<CategoryTotal>))
    ensures t == [] ==> r == ([], [])
    ensures Ordered(r.0, true) && Ordered(r.1, true)
    ensures t != [] ==> (multiset(r.0) == multiset(GroupByCategory(t, Receita))
                      && multiset(r.1) == multiset(GroupByCategory(t, Despesa)))
    ensures SumTotals(r.0) == TotalSummary(t).receitas
    ensures SumTotals(r.1) == TotalSummary(t).despesas
  {
    if t == [] then ([], [])
    else (SortByTotal(GroupByCategory(t, Receita), true), SortByTotal(GroupByCategory(t, Despesa), true))
  }

  // ---------------------------------------------------------------------
  // Running balance (grafico_saldo_ao_longo_do_tempo)
  // ---------------------------------------------------------------------

  /**
   `Valor Ajustado`: a row's contribution to the balance, the same as in the
   general summary for the two kinds, but a row of any other kind counts as
   an expense here.
   */
  function Signed(e: Entry): (r: int)
    ensures e.tipo == Receita || e.tipo == Despesa ==> r == RowSummary(e).saldo
    ensures e.tipo.Other? ==> r == -e.valor
  {
    if e.tipo == Receita then e.valor else -e.valor
  }

  /** The last value of the `cumsum`: 0 for no rows. */
  function SignedSum(t: Table): (r: int)
    ensures t == [] ==> r == 0
  {
    if t == [] then 0 else Signed(t[0]) + SignedSum(t[1..])
  }

  /** An income-only table ends at its `Valor` sum, an expense-only one at minus it. */
  lemma {:induction false} SingleKindBalance(t: Table)
    ensures (forall i :: 0 <= i < |t| ==> t[i].tipo == Receita) ==> SignedSum(t) == Total(t)
    ensures (forall i :: 0 <= i < |t| ==> t[i].tipo == Despesa) ==> SignedSum(t) == -Total(t)
  {
    if t != [] {
      SingleKindBalance(t[1..]);
      assert forall i :: 0 <= i < |t[1..]| ==> t[1..][i] == t[i + 1];
    }
  }

  lemma {:induction false} SignedSumAppend(a: Table, b: Table)
    ensures SignedSum(a + b) == SignedSum(a) + SignedSum(b)
  {
    if a == [] {
      assert a + b == b;
    } else {
      assert (a + b)[1..] == a[1..] + b;
      SignedSumAppend(a[1..], b);
    }
  }

  /** Taking a row out of a table takes its signed amount out of the sum. */
  lemma SignedSumWithout(x: Table, e: Entry, y: Table)
    ensures SignedSum(x + [e] + y) == Signed(e) + SignedSum(x + y)
    ensures multiset(x + y) == multiset(x + [e] + y) - multiset{e}
  {
    SignedSumAppend(x + [e], y);
    SignedSumAppend(x, [e]);
    SignedSumAppend(x, y);
    assert SignedSum([e]) == Signed(e);
  }

  /** The signed sum does not depend on the order of the rows. */
  lemma {:induction false} SignedSumPermutation(a: Table, b: Table)
    requires multiset(a) == multiset(b)
    ensures SignedSum(a) == SignedSum(b)
    decreases |a|
  {
    if a != [] {
      var e, rest := a[0], a[1..];
      assert a == [e] + rest;
      assert multiset(rest) == multiset(a) - multiset{e};
      assert e in multiset(b);
      var j :| 0 <= j < |b| && b[j] == e;
      var x, y := b[..j], b[j + 1..];
      assert b == x + [e] + y;
      SignedSumWithout(x, e, y);
      SignedSumPermutation(rest, x + y);
    } else {
      assert |b| == |multiset(b)| == 0;
    }
  }

  /** Income minus expense when every row is one of the two kinds. */
  lemma {:induction false} SignedSumIsBalance(t: Table)
    requires forall i :: 0 <= i < |t| ==> t[i].tipo == Receita || t[i].tipo == Despesa
    ensures SignedSum(t) == TotalSummary(t).saldo
  {
    if t != [] {
      SignedSumIsBalance(t[1..]);
      KindTotalStep(t, Receita);
      KindTotalStep(t, Despesa);
    }
  }

  predicate Chronological(t: Table) {
    forall i, j :: 0 <= i < j < |t| ==> DateLe(t[i].data, t[j].data)
  }

  lemma ChronologicalCons(h: Entry, t: Table)
    requires Chronological(t)
    requires forall y :: y in t ==> DateLe(h.data, y.data)
    ensures Chronological([h] + t)
  {
    var r := [h] + t;
    forall i, j | 0 <= i < j < |r| ensures DateLe(r[i].data, r[j].data) {
      assert r[j] == t[j - 1];
      if i > 0 {
        assert r[i] == t[i - 1];
      }
    }
  }

  /** The head of a chronological table is its oldest row; the rest stays chronological. */
  lemma ChronologicalHeadFirst(t: Table)
    requires Chronological(t) && t != []
    ensures forall y :: y in t ==> DateLe(t[0].data, y.data)
    ensures Chronological(t[1..])
  {
    DateLeTotalOrder();
    forall y | y in t ensures DateLe(t[0].data, y.data) {
      var j :| 0 <= j < |t| && t[j] == y;
    }
    var tail := t[1..];
    forall i, j | 0 <= i < j < |tail| ensures DateLe(tail[i].data, tail[j].data) {
      assert tail[i] == t[i + 1] && tail[j] == t[j + 1];
    }
  }

  /** Putting `e` in front of a chronological table it does not postdate. */
  lemma ChronologicalInFront(e: Entry, t: Table)
    requires Chronological(t) && t != []
    requires DateLe(e.data, t[0].data)
    ensures Chronological([e] + t)
  {
    ChronologicalHeadFirst(t);
    DateLeTotalOrder();
    ChronologicalCons(e, t);
  }

  /** Putting `e` behind the head of a chronological table it postdates. */
  lemma ChronologicalBehindHead(t: Table, e: Entry, rest: Table)
    requires Chronological(t) && t != []
    requires !DateLe(e.data, t[0].data)
    requires Chronological(rest)
    requires multiset(rest) == multiset(t[1..]) + multiset{e}
    ensures Chronological([t[0]] + rest)
  {
    ChronologicalHeadFirst(t);
    forall y | y in rest ensures DateLe(t[0].data, y.data) {
      assert y in multiset(rest);
      if y != e {
        assert y in multiset(t[1..]);
        assert y in t[1..];
      } else {
        DateLeTotalOrder();
      }
    }
    ChronologicalCons(t[0], rest);
  }

  function InsertByDate(e: Entry, t: Table): (r: Table)
    requires Chronological(t)
    ensures Chronological(r)
    ensures |r| == |t| + 1
    ensures multiset(r) == multiset(t) + multiset{e}
  {
    if t == [] then [e]
    else if DateLe(e.data, t[0].data) then
      ChronologicalInFront(e, t);
      var r := [e] + t;
      assert r[1..] == t;
      r
    else
      ChronologicalHeadFirst(t);
      var rest := InsertByDate(e, t[1..]);
      ChronologicalBehindHead(t, e, rest);
      assert t == [t[0]] + t[1..];
      var r := [t[0]] + rest;
      assert r[1..] == rest;
      r
  }

  /** `df.sort_values('Data')`: the same rows, oldest first. */
  function SortByDate(t: Table): (r: Table)
    ensures Chronological(r)
    ensures |r| == |t|
    ensures multiset(r) == multiset(t)
  {
    if t == [] then []
    else
      assert t == [t[0]] + t[1..];
      InsertByDate(t[0], SortByDate(t[1..]))
  }

  datatype BalancePoint = BalancePoint(data: Date, saldo: int)

  /** Sorting by date does not change the final balance. */
  lemma SortedBalance(t: Table)
    ensures SignedSum(SortByDate(t)[..|t|]) == SignedSum(t)
  {
    var sorted := SortByDate(t);
    assert sorted[..|t|] == sorted;
    SignedSumPermutation(sorted, t);
  }

  /** One more row of the prefix adds its signed amount. */
  lemma SignedSumStep(s: Table, i: int)
    requires 0 <= i < |s|
    ensures SignedSum(s[..i + 1]) == SignedSum(s[..i]) + Signed(s[i])
  {
    assert s[..i + 1] == s[..i] + [s[i]];
    SignedSumAppend(s[..i], [s[i]]);
  }

  /**
   The running balance plotted over time: rows in date order, each adding its
   amount if it is a Receita and subtracting it otherwise. The last point
   ("Saldo Atual") is the signed sum of the whole table.
   */
  method RunningBalance(t: Table) returns (points: seq<BalancePoint>)
    ensures |points| == |t|
    ensures forall i, j :: 0 <= i < j < |points| ==> DateLe(points[i].data, points[j].data)
    ensures forall i :: 0 <= i < |points| ==>
      points[i] == BalancePoint(SortByDate(t)[i].data, SignedSum(SortByDate(t)[..i + 1]))
    ensures t != [] ==> points[|t| - 1].saldo == SignedSum(t)
  {
    var sorted := SortByDate(t);
    var acc := 0;
    points := [];
    for i := 0 to |sorted|
      invariant |points| == i
      invariant acc == SignedSum(sorted[..i])
      invariant forall j :: 0 <= j < i ==> points[j] == BalancePoint(sorted[j].data, SignedSum(sorted[..j + 1]))
    {
      SignedSumStep(sorted, i);
      acc := acc + Signed(sorted[i]);
      points := points + [BalancePoint(sorted[i].data, acc)];
    }
    SortedBalance(t);
  }
}
