/**
 The ledger operations of `finance/core.py`, with the CSV load and save
 stripped: each operation takes the loaded table and returns the table that
 would be saved, or the summary that would be returned.
 */
module Core {
  import opened Dates
  import opened Ledger

  // ---------------------------------------------------------------------
  // Totals
  // ---------------------------------------------------------------------

  datatype Summary = Summary(receitas: int, despesas: int, saldo: int)

  /**
   Sum of `Valor` over the rows whose `Tipo` is `k`: nothing for no rows,
   and a single row counts only towards its own kind.
   */
  function KindTotal(t: Table, k: Kind): (r: int)
    ensures t == [] ==> r == 0
    ensures |t| == 1 ==> r == if t[0].tipo == k then t[0].valor else 0
  {
    assert |t| == 1 ==> Select(t, KindIs(k)) == if t[0].tipo == k then [t[0]] else [] by {
      if |t| == 1 {
        assert t[1..] == [];
      }
    }
    Total(Select(t, KindIs(k)))
  }

  /** `calcular_somatorio_geral`: income, expense and their difference. */
  function TotalSummary(t: Table): (s: Summary)
    ensures s.saldo == s.receitas - s.despesas
    ensures (forall i :: 0 <= i < |t| ==> t[i].tipo != Receita) ==> s.receitas == 0
    ensures (forall i :: 0 <= i < |t| ==> t[i].tipo != Despesa) ==> s.despesas == 0
  {
    AbsentKindTotalsZero(t, Receita);
    AbsentKindTotalsZero(t, Despesa);
    var receitas := KindTotal(t, Receita);
    var despesas := KindTotal(t, Despesa);
    Summary(receitas, despesas, receitas - despesas)
  }

  lemma AbsentKindTotalsZero(t: Table, k: Kind)
    ensures (forall i :: 0 <= i < |t| ==> t[i].tipo != k) ==> KindTotal(t, k) == 0
  {
    if forall i :: 0 <= i < |t| ==> t[i].tipo != k {
      SelectKeepsNone(t, KindIs(k));
    }
  }

  function Plus(a: Summary, b: Summary): Summary {
    Summary(a.receitas + b.receitas, a.despesas + b.despesas, a.saldo + b.saldo)
  }

  function Minus(a: Summary, b: Summary): Summary {
    Summary(a.receitas - b.receitas, a.despesas - b.despesas, a.saldo - b.saldo)
  }

  /** What one row contributes to the totals: nothing unless it is a Receita or a Despesa. */
  function RowSummary(e: Entry): Summary {
    match e.tipo
    case Receita => Summary(e.valor, 0, e.valor)
    case Despesa => Summary(0, e.valor, -e.valor)
    case Other(_) => Summary(0, 0, 0)
  }

  /** Reference definition: the totals accumulated row by row, oldest row first. */
  function AccumulatedSummary(t: Table): Summary {
    if t == [] then Summary(0, 0, 0)
    else Plus(AccumulatedSummary(t[..|t| - 1]), RowSummary(t[|t| - 1]))
  }

  /** One kind's total over a concatenation is the sum of its totals over the parts. */
  lemma KindTotalConcat(a: Table, b: Table, k: Kind)
    ensures KindTotal(a + b, k) == KindTotal(a, k) + KindTotal(b, k)
  {
    SelectAppend(a, b, KindIs(k));
    TotalAppend(Select(a, KindIs(k)), Select(b, KindIs(k)));
  }

  /** Totals of a concatenation are the sums of the totals. */
  lemma SummaryConcat(a: Table, b: Table)
    ensures TotalSummary(a + b) == Plus(TotalSummary(a), TotalSummary(b))
  {
    KindTotalConcat(a, b, Receita);
    KindTotalConcat(a, b, Despesa);
    var s, sa, sb := TotalSummary(a + b), TotalSummary(a), TotalSummary(b);
    assert s.receitas == sa.receitas + sb.receitas;
    assert s.despesas == sa.despesas + sb.despesas;
    PlusOfParts(s, sa, sb);
  }

  /** Two totals whose income and expense add up add up as summaries. */
  lemma PlusOfParts(s: Summary, x: Summary, y: Summary)
    requires s.receitas == x.receitas + y.receitas && s.despesas == x.despesas + y.despesas
    requires s.saldo == s.receitas - s.despesas
    requires x.saldo == x.receitas - x.despesas && y.saldo == y.receitas - y.despesas
    ensures s == Plus(x, y)
  {
  }

  lemma SummaryOfRow(e: Entry)
    ensures TotalSummary([e]) == RowSummary(e)
  {
    assert [e][1..] == [];
  }

  /** Appending a row changes the totals by exactly that row's contribution. */
  lemma SummaryAppend(t: Table, e: Entry)
    ensures TotalSummary(t + [e]) == Plus(TotalSummary(t), RowSummary(e))
  {
    SummaryConcat(t, [e]);
    SummaryOfRow(e);
  }

  /** The vectorised totals agree with the row-by-row reference. */
  lemma {:induction false} SummaryIsAccumulated(t: Table)
    ensures TotalSummary(t) == AccumulatedSummary(t)
  {
    if t != [] {
      var init, last := t[..|t| - 1], t[|t| - 1];
      assert init + [last] == t;
      SummaryIsAccumulated(init);
      SummaryAppend(init, last);
    } else {
      assert TotalSummary(t) == Summary(0, 0, 0);
    }
  }

  /** A row whose `Tipo` is neither literal leaves every total unchanged. */
  lemma OtherKindIgnored(t: Table, e: Entry)
    requires e.tipo.Other?
    ensures TotalSummary(t + [e]) == TotalSummary(t)
  {
    KindTotalConcat(t, [e], Receita);
    KindTotalConcat(t, [e], Despesa);
  }

  lemma {:induction false} TotalsNonNegative(t: Table)
    requires forall i :: 0 <= i < |t| ==> t[i].valor >= 0
    ensures TotalSummary(t).receitas >= 0 && TotalSummary(t).despesas >= 0
  {
    SelectMembers(t, KindIs(Receita));
    SelectMembers(t, KindIs(Despesa));
    var r, d := Select(t, KindIs(Receita)), Select(t, KindIs(Despesa));
    assert forall i :: 0 <= i < |r| ==> r[i] in t;
    assert forall i :: 0 <= i < |d| ==> d[i] in t;
    TotalNonNegative(r);
    TotalNonNegative(d);
  }

  // ---------------------------------------------------------------------
  // Totals per category
  // ---------------------------------------------------------------------

  predicate Distinct(cs: seq<string>) {
    forall i, j :: 0 <= i < j < |cs| ==> cs[i] != cs[j]
  }

  /** The categories occurring among the rows of kind `k`. */
  function CategorySet(t: Table, k: Kind): set<string> {
    set i | 0 <= i < |t| && t[i].tipo == k :: t[i].categoria
  }

  /** Sum of `Valor` over the rows of kind `k` and category `c`. */
  function CategorySum(t: Table, k: Kind, c: string): int {
    Total(Select(Select(t, KindIs(k)), CategoryIs(c)))
  }

  /** The distinct categories of the rows of kind `k`, each once. */
  function CategoriesOf(t: Table, k: Kind): (cs: seq<string>)
    ensures Distinct(cs)
    ensures forall c :: c in cs <==> c in CategorySet(t, k)
  {
    if t == [] then []
    else
      var rest := CategoriesOf(t[1..], k);
      assert forall c :: c in CategorySet(t, k) <==>
        (t[0].tipo == k && c == t[0].categoria) || c in CategorySet(t[1..], k) by {
        forall c ensures c in CategorySet(t, k) ==>
          (t[0].tipo == k && c == t[0].categoria) || c in CategorySet(t[1..], k) {
          if c in CategorySet(t, k) {
            var i :| 0 <= i < |t| && t[i].tipo == k && t[i].categoria == c;
            if i > 0 {
              assert t[1..][i - 1] == t[i];
            }
          }
        }
        forall c | c in CategorySet(t[1..], k) ensures c in CategorySet(t, k) {
          var i :| 0 <= i < |t[1..]| && t[1..][i].tipo == k && t[1..][i].categoria == c;
          assert t[i + 1] == t[1..][i];
        }
      }
      if t[0].tipo == k && t[0].categoria !in rest then [t[0].categoria] + rest else rest
  }

  /** `calcular_somatorio_por_categoria`, one kind: category -> sum of that kind's rows. */
  function CategoryMap(t: Table, k: Kind): (m: map<string, int>)
    ensures m.Keys == CategorySet(t, k)
    ensures forall c :: c in m ==> m[c] == CategorySum(t, k, c)
  {
    map c | c in CategorySet(t, k) :: CategorySum(t, k, c)
  }

  /** `calcular_somatorio_por_categoria`: the income map and the expense map. */
  function SumByCategory(t: Table): (r: (map<string, int>, map<string, int>))
    ensures r.0.Keys == CategorySet(t, Receita) && r.1.Keys == CategorySet(t, Despesa)
    ensures forall c :: c in r.0 ==> r.0[c] == CategorySum(t, Receita, c)
    ensures forall c :: c in r.1 ==> r.1[c] == CategorySum(t, Despesa, c)
  {
    (CategoryMap(t, Receita), CategoryMap(t, Despesa))
  }

  /** The category sums over a list of categories. */
  function SumOver(t: Table, k: Kind, cs: seq<string>): int {
    if cs == [] then 0 else CategorySum(t, k, cs[0]) + SumOver(t, k, cs[1..])
  }

  /** The values of `m` at the keys `ks`, added up. */
  function SumValues(m: map<string, int>, ks: seq<string>): int
    requires forall i :: 0 <= i < |ks| ==> ks[i] in m
  {
    if ks == [] then 0 else m[ks[0]] + SumValues(m, ks[1..])
  }

  lemma KindTotalStep(t: Table, k: Kind)
    requires t != []
    ensures KindTotal(t, k) == (if t[0].tipo == k then t[0].valor else 0) + KindTotal(t[1..], k)
  {
  }

  lemma CategorySumStep(t: Table, k: Kind, c: string)
    requires t != []
    ensures CategorySum(t, k, c)
         == (if t[0].tipo == k && t[0].categoria == c then t[0].valor else 0) + CategorySum(t[1..], k, c)
  {
  }

  /** The first row adds to the sum over distinct categories at most once. */
  lemma {:induction false} SumOverStep(t: Table, k: Kind, cs: seq<string>)
    requires t != []
    requires Distinct(cs)
    ensures SumOver(t, k, cs)
         == (if t[0].tipo == k && t[0].categoria in cs then t[0].valor else 0) + SumOver(t[1..], k, cs)
  {
    if cs != [] {
      CategorySumStep(t, k, cs[0]);
      SumOverStep(t, k, cs[1..]);
      assert t[0].categoria in cs <==> t[0].categoria == cs[0] || t[0].categoria in cs[1..];
      assert cs[0] !in cs[1..];
    }
  }

  /**
   Per-category sums add up to the kind's total, over any duplicate-free list
   of categories that covers every category of that kind.
   */
  lemma {:induction false} CategorySumsAddUp(t: Table, k: Kind, cs: seq<string>)
    requires Distinct(cs)
    requires forall i :: 0 <= i < |t| && t[i].tipo == k ==> t[i].categoria in cs
    ensures SumOver(t, k, cs) == KindTotal(t, k)
  {
    if t == [] {
      SumOverEmpty(k, cs);
    } else {
      SumOverStep(t, k, cs);
      KindTotalStep(t, k);
      forall i | 0 <= i < |t[1..]| && t[1..][i].tipo == k ensures t[1..][i].categoria in cs {
        assert t[1..][i] == t[i + 1];
      }
      CategorySumsAddUp(t[1..], k, cs);
    }
  }

  lemma {:induction false} SumOverEmpty(k: Kind, cs: seq<string>)
    ensures SumOver([], k, cs) == 0
  {
    if cs != [] {
      SumOverEmpty(k, cs[1..]);
    }
  }

  lemma {:induction false} SumValuesOfCategoryMap(t: Table, k: Kind, ks: seq<string>)
    requires forall i :: 0 <= i < |ks| ==> ks[i] in CategoryMap(t, k)
    ensures SumValues(CategoryMap(t, k), ks) == SumOver(t, k, ks)
  {
    if ks != [] {
      SumValuesOfCategoryMap(t, k, ks[1..]);
    }
  }

  /**
   The values of each map returned by `calcular_somatorio_por_categoria`,
   enumerated once per key, add up to the corresponding total of
   `calcular_somatorio_geral`.
   */
  lemma CategoryMapsSumToTotals(t: Table, ks: seq<string>, k: Kind)
    requires k == Receita || k == Despesa
    requires Distinct(ks)
    requires forall c :: c in ks <==> c in CategoryMap(t, k)
    ensures SumValues(CategoryMap(t, k), ks)
         == if k == Receita then TotalSummary(t).receitas else TotalSummary(t).despesas
  {
    SumValuesOfCategoryMap(t, k, ks);
    forall i | 0 <= i < |t| && t[i].tipo == k ensures t[i].categoria in ks {
      assert t[i].categoria in CategorySet(t, k);
    }
    CategorySumsAddUp(t, k, ks);
  }

  // ---------------------------------------------------------------------
  // Index-based edits
  // ---------------------------------------------------------------------

  /** `adicionar_lancamento`: the new row goes at the end. */
  function AddEntry(t: Table, data: Date, descricao: string, categoria: string, tipo: Kind, valor: int): (r: Table)
    ensures |r| == |t| + 1
    ensures r[..|t|] == t
    ensures r[|t|] == Entry(data, descricao, categoria, tipo, valor)
  {
    t + [Entry(data, descricao, categoria, tipo, valor)]
  }

  /** `remover_lancamento`: drop row i and renumber the rest densely from 0. */
  function RemoveEntry(t: Table, i: int): (r: Table)
    requires 0 <= i < |t|
    ensures |r| == |t| - 1
    ensures forall j :: 0 <= j < i ==> r[j] == t[j]
    ensures forall j :: i <= j < |r| ==> r[j] == t[j + 1]
    ensures multiset(r) + multiset{t[i]} == multiset(t)
  {
    assert t == t[..i] + [t[i]] + t[i + 1..];
    t[..i] + t[i + 1..]
  }

  /** `editar_lancamento`: all five fields of row i are replaced, not merged. */
  function EditEntry(t: Table, i: int, data: Date, descricao: string, categoria: string, tipo: Kind, valor: int)
    : (r: Table)
    requires 0 <= i < |t|
    ensures |r| == |t|
    ensures r[i] == Entry(data, descricao, categoria, tipo, valor)
    ensures forall j :: 0 <= j < |t| && j != i ==> r[j] == t[j]
  {
    t[i := Entry(data, descricao, categoria, tipo, valor)]
  }

  /** The result of an index-based change: the new table, or the error raised for a row label the table lacks. */
  datatype Mutation = Changed(table: Table) | RowNotFound

  /**
   `remover_lancamento` for any index: `df.drop` raises for a label the
   table does not have, so nothing is written.
   */
  function Remove(t: Table, i: int): (r: Mutation)
    ensures r.RowNotFound? <==> !(0 <= i < |t|)
    ensures r.Changed? ==> (&& |r.table| == |t| - 1
                            && (forall j :: 0 <= j < i ==> r.table[j] == t[j])
                            && (forall j :: i <= j < |r.table| ==> r.table[j] == t[j + 1])
                            && multiset(r.table) + multiset{t[i]} == multiset(t))
  {
    if 0 <= i < |t| then Changed(RemoveEntry(t, i)) else RowNotFound
  }

  /**
   `editar_lancamento` for any index: `df.at` with a label the table lacks
   enlarges the frame with a row of that label, so the five assignments
   build a new row, which is saved after all the others.
   */
  function Edit(t: Table, i: int, data: Date, descricao: string, categoria: string, tipo: Kind, valor: int)
    : (r: Table)
    ensures var e := Entry(data, descricao, categoria, tipo, valor);
            && (0 <= i < |t| ==> (&& |r| == |t| && r[i] == e
                                  && forall j :: 0 <= j < |t| && j != i ==> r[j] == t[j]))
            && (!(0 <= i < |t|) ==> (|r| == |t| + 1 && r[..|t|] == t && r[|t|] == e))
  {
    if 0 <= i < |t| then EditEntry(t, i, data, descricao, categoria, tipo, valor)
    else AddEntry(t, data, descricao, categoria, tipo, valor)
  }

  /** Removing the row just added gives back the table. */
  lemma RemoveUndoesAdd(t: Table, data: Date, descricao: string, categoria: string, tipo: Kind, valor: int)
    ensures RemoveEntry(AddEntry(t, data, descricao, categoria, tipo, valor), |t|) == t
  {
    var r := RemoveEntry(AddEntry(t, data, descricao, categoria, tipo, valor), |t|);
    assert |r| == |t|;
    assert forall j :: 0 <= j < |t| ==> r[j] == t[j];
  }

  /** Writing a row's own fields back is the identity. */
  lemma EditWithOwnFields(t: Table, i: int)
    requires 0 <= i < |t|
    ensures EditEntry(t, i, t[i].data, t[i].descricao, t[i].categoria, t[i].tipo, t[i].valor) == t
  {
    var r := EditEntry(t, i, t[i].data, t[i].descricao, t[i].categoria, t[i].tipo, t[i].valor);
    assert forall j :: 0 <= j < |t| ==> r[j] == t[j];
  }

  /** An edit leaves nothing of the old row behind: the second of two edits of a row wins. */
  lemma SecondEditWins(t: Table, i: int, a: Entry, b: Entry)
    requires 0 <= i < |t|
    ensures EditEntry(EditEntry(t, i, a.data, a.descricao, a.categoria, a.tipo, a.valor),
                      i, b.data, b.descricao, b.categoria, b.tipo, b.valor)
         == EditEntry(t, i, b.data, b.descricao, b.categoria, b.tipo, b.valor)
  {
    var r1 := EditEntry(EditEntry(t, i, a.data, a.descricao, a.categoria, a.tipo, a.valor),
                        i, b.data, b.descricao, b.categoria, b.tipo, b.valor);
    var r2 := EditEntry(t, i, b.data, b.descricao, b.categoria, b.tipo, b.valor);
    assert forall j :: 0 <= j < |t| ==> r1[j] == r2[j];
  }

  /** The totals after an edit: the old row's contribution is replaced by the new one's. */
  lemma SummaryAfterEdit(t: Table, i: int, e: Entry)
    requires 0 <= i < |t|
    ensures TotalSummary(EditEntry(t, i, e.data, e.descricao, e.categoria, e.tipo, e.valor))
         == Plus(Minus(TotalSummary(t), RowSummary(t[i])), RowSummary(e))
  {
    var a, b := t[..i], t[i + 1..];
    assert t == a + [t[i]] + b;
    assert EditEntry(t, i, e.data, e.descricao, e.categoria, e.tipo, e.valor) == a + [e] + b;
    SummaryWith(a, t[i], b);
    SummaryWith(a, e, b);
  }

  /** The totals after a removal lose exactly the removed row's contribution. */
  lemma SummaryAfterRemove(t: Table, i: int)
    requires 0 <= i < |t|
    ensures TotalSummary(RemoveEntry(t, i)) == Minus(TotalSummary(t), RowSummary(t[i]))
  {
    var a, b := t[..i], t[i + 1..];
    assert t == a + [t[i]] + b;
    assert RemoveEntry(t, i) == a + b;
    SummaryWith(a, t[i], b);
  }

  /** A row inside a table contributes to the totals exactly what it contributes alone. */
  lemma SummaryWith(a: Table, x: Entry, b: Table)
    ensures TotalSummary(a + [x] + b) == Plus(TotalSummary(a + b), RowSummary(x))
  {
    KindTotalWith(a, x, b, Receita);
    KindTotalWith(a, x, b, Despesa);
    var s, sab, sx := TotalSummary(a + [x] + b), TotalSummary(a + b), TotalSummary([x]);
    assert s.receitas == sab.receitas + sx.receitas;
    assert s.despesas == sab.despesas + sx.despesas;
    PlusOfParts(s, sab, sx);
    SummaryOfRow(x);
  }

  lemma KindTotalWith(a: Table, x: Entry, b: Table, k: Kind)
    ensures KindTotal(a + [x] + b, k) == KindTotal(a + b, k) + KindTotal([x], k)
  {
    KindTotalConcat(a + [x], b, k);
    KindTotalConcat(a, [x], k);
    KindTotalConcat(a, b, k);
  }

  // ---------------------------------------------------------------------
  // Searches
  // ---------------------------------------------------------------------

  /** `filtrar_por_categoria`: the rows of one category, in table order. */
  function FilterByCategory(t: Table, c: string): (r: Table)
    ensures IsSubsequence(r, t)
    ensures forall i :: 0 <= i < |r| ==> r[i].categoria == c
    ensures forall i :: 0 <= i < |t| && t[i].categoria == c ==> t[i] in r
    ensures forall e: Entry :: e.categoria == c ==> multiset(r)[e] == multiset(t)[e]
  {
    SelectIsSubsequence(t, CategoryIs(c));
    SelectMembers(t, CategoryIs(c));
    SelectCounts(t, CategoryIs(c));
    Select(t, CategoryIs(c))
  }

  /** Summing one kind over one category's rows gives that category's entry in the category map. */
  lemma CategoryFilterMatchesGrouping(t: Table, c: string, k: Kind)
    ensures KindTotal(FilterByCategory(t, c), k) == CategorySum(t, k, c)
  {
    SelectSelect(t, CategoryIs(c), KindIs(k));
    SelectSelect(t, KindIs(k), CategoryIs(c));
    SelectAgreeingMasks(t, Both(CategoryIs(c), KindIs(k)), Both(KindIs(k), CategoryIs(c)));
  }

  /** `buscar_por_periodo`: the rows dated within [inicio, fim], both ends included. */
  function SearchByPeriod(t: Table, inicio: Date, fim: Date): (r: Table)
    ensures IsSubsequence(r, t)
    ensures forall e: Entry :: e in r <==> e in t && DateLe(inicio, e.data) && DateLe(e.data, fim)
    ensures forall e: Entry :: DateLe(inicio, e.data) && DateLe(e.data, fim) ==> multiset(r)[e] == multiset(t)[e]
  {
    SelectIsSubsequence(t, Between(inicio, fim));
    SelectMembers(t, Between(inicio, fim));
    SelectCounts(t, Between(inicio, fim));
    Select(t, Between(inicio, fim))
  }
}
