# Dashboard Financeiro — ledger engine in Dafny

The Dashboard Financeiro is a personal finance app. Its ledger is a table of entries with the
columns `Data, Descrição, Categoria, Tipo, Valor`; `Tipo` is `Receita` (income) or
`Despesa` (expense). This project models the logic behind the dashboard, as pure functions
over an immutable table, and proves the properties the app relies on:

- `finance/core.py`:
  - the general sums (`calcular_somatorio_geral`) and the per-category sums (`calcular_somatorio_por_categoria`);
  - adding, removing and editing an entry by index;
  - the category filter and the period search.
- `app.py`:
  - the period and month filters of the dashboard (`aplicar_filtros`);
  - the month options of the month select box;
  - the checks the new-entry and edit forms make before they write.
- `finance/charts.py`: the numbers the charts are drawn from:
  - the monthly evolution table;
  - the category pies;
  - the horizontal distribution bars;
  - the running balance.

Modules, one per file:

- `Dates` (`dates.dfy`):
  - calendar dates and pandas monthly periods;
  - `pd.DateOffset(months=n)` subtraction, which clamps the day to the end of the target month;
  - the start of a year.
- `Ledger` (`ledger.dfy`):
  - entries and tables;
  - boolean row masks (`df[mask]`) as a datatype;
  - selection and the `Valor` sum.
- `Core` (`core.py`): totals, category sums, index-based changes and the two searches.
- `Filters` (`app.py`): period windows, `aplicar_filtros` and the month options.
- `ViewIndex` (`view_index.dfy`): which ledger row the edit and delete forms act on (see Findings).
- `Forms` (`app.py`): `str.strip()` and the guards of the two forms.
- `Charts` (`charts.py`): the chart data.

Amounts are integers (cents). Dates have day granularity, because the forms store midnight
timestamps. A `Tipo` other than the two literals is kept as `Other`. The code never produces
one, but it reads whatever the stored table holds:

- the totals ignore such rows;
- the running balance subtracts them, as `charts.py` does.

The model follows the code, which checks less than one might expect:

- no entry-time validation of dates, kinds or blank categories happens in `core.py`;
- `remover_lancamento` with a missing index raises (`RowNotFound` in the model);
- `editar_lancamento` with a missing index appends a new row, because `df.at` enlarges the frame, instead of failing;
- the edit form accepts an amount of zero.

## Model

| member | source | states |
|---|---|---|
| Dates.SubtractMonths | app.py:427-435 | `data_max - DateOffset(months=n)` lands exactly n calendar months earlier, keeps the day when that month has it and otherwise clamps to the month's last day; the result is a valid date |
| Dates.SubtractMonthsIsEarlier | app.py:427-435 | the start of a "last n months" window never lies after the newest date, and strictly before it for n > 0 |
| Dates.SubtractMonthsAntitone | app.py:427-435 | reaching back more months gives an earlier or equal window start |
| Dates.YearStart | app.py:436-438 | 1 January of the newest date's year is a valid date no later than any date of that year |
| Ledger.Select | finance/core.py:91-92 | `df[mask]` has at most the table's rows, and every row it keeps satisfies the mask (membership, order and multiplicity are the three lemmas below) |
| Ledger.SelectMembers | finance/core.py:91-92 | a row is in `df[mask]` exactly when it is in the table and satisfies the mask |
| Ledger.SelectIsSubsequence | finance/core.py:91-92 | `df[mask]` keeps the selected rows in table order |
| Ledger.SelectCounts | finance/core.py:84 | every accepted row occurs in the selection as often as in the table, and a rejected row never occurs |
| Ledger.SelectSelect | app.py:443-448 | masking the masked table again is one mask with the conjunction of both |
| Ledger.Total | finance/core.py:99 | `['Valor'].sum()` of no rows is 0 and of one row is that row's amount (additivity is TotalAppend) |
| Ledger.TotalAppend | finance/core.py:99-100 | the `Valor` sum of two tables put together is the sum of their sums |
| Ledger.TotalNonNegative | finance/core.py:99-100 | non-negative amounts sum to a non-negative total |
| Core.KindTotal | finance/core.py:99-100 | `df[df['Tipo'] == k]['Valor'].sum()`: 0 for no rows, and a single row counts its amount only towards its own kind |
| Core.KindTotalConcat | finance/core.py:99-100 | one kind's total over two tables put together is the sum of its totals over each (with KindTotal's one-row clause this determines the total) |
| Core.TotalSummary | finance/core.py:94-107 | saldo is receitas minus despesas; a table without income rows has receitas 0, without expense rows despesas 0 |
| Core.SummaryIsAccumulated | finance/core.py:99-101 | the summary equals the row-by-row accumulation in which an income row adds to receitas, an expense row adds to despesas and any other kind adds nothing |
| Core.SummaryAppend | finance/core.py:99-101 | appending one row changes the summary by that row's contribution only |
| Core.OtherKindIgnored | finance/core.py:99-100 | a row of an unrecognised kind leaves the summary unchanged |
| Core.TotalsNonNegative | finance/core.py:99-100 | with non-negative amounts both receitas and despesas are non-negative |
| Core.CategoriesOf | finance/core.py:114-115 | the groupby keys of one kind: each category of that kind exactly once |
| Core.CategoryMap | finance/core.py:114-115 | the dictionary's keys are exactly the categories of that kind, each mapped to the sum of that kind's rows in it |
| Core.SumByCategory | finance/core.py:109-117 | the income dictionary and the expense dictionary, each as CategoryMap states |
| Core.CategorySumsAddUp | finance/core.py:114-115 | summing the category sums over the distinct categories of a kind gives the kind's total |
| Core.CategoryMapsSumToTotals | finance/core.py:99-117 | the values of the income (expense) dictionary add up to the general receitas (despesas) |
| Core.AddEntry | finance/core.py:38-51 | the new row goes at the end and every earlier row is unchanged |
| Core.RemoveEntry | finance/core.py:59-65 | dropping row i keeps the rows before it, shifts the rows after it down by one and removes exactly one copy of row i |
| Core.Remove | finance/core.py:59-65 | an index outside the table is an error that writes nothing; otherwise as RemoveEntry |
| Core.EditEntry | finance/core.py:67-77 | row i gets all five new fields and every other row is unchanged |
| Core.Edit | finance/core.py:67-77 | in range as EditEntry; an index outside the table appends the new row after all the others |
| Core.RemoveUndoesAdd | finance/core.py:38-65 | removing the row just added gives back the original table |
| Core.EditWithOwnFields | finance/core.py:67-77 | writing a row's own fields back leaves the table unchanged |
| Core.SecondEditWins | finance/core.py:67-77 | fields are replaced, not merged: of two edits of the same row only the second survives |
| Core.SummaryAfterEdit | finance/core.py:67-107 | after an edit the totals change by the new row's contribution minus the old row's |
| Core.SummaryAfterRemove | finance/core.py:59-107 | after a removal the totals lose exactly the removed row's contribution |
| Core.FilterByCategory | finance/core.py:79-84 | exactly the rows of that category, in table order, each as often as in the table |
| Core.CategoryFilterMatchesGrouping | finance/core.py:79-117 | summing one kind over a category filter gives that category's entry in the per-category dictionary |
| Core.SearchByPeriod | finance/core.py:86-92 | a row is returned exactly when its date lies in [inicio, fim], both ends included; order and multiplicity are kept |
| Filters.MinDate | app.py:417 | `df['Data'].min()` is a date of the table and no row is older |
| Filters.MaxDate | app.py:418 | `df['Data'].max()` is a date of the table and no row is newer |
| Filters.PeriodWindow | app.py:427-441 | every named period ends at the newest date |
| Filters.PeriodWindowStart | app.py:427-441 | "Todos os dados" covers every row; "Este ano" starts on 1 January of the newest date's year and covers every row of that year; the "last months" periods start that many calendar months before the newest date |
| Filters.ApplyFilters | app.py:412-450 | an empty table stays empty; the rows shown are a subsequence of the table, so order is kept |
| Filters.ApplyFiltersMembers | app.py:443-448 | a row is shown exactly when it is in the table, lies in the period's window and, if a month is chosen, in that month |
| Filters.ApplyFiltersIsOneMask | app.py:443-448 | the two successive masks equal one combined mask on the full table |
| Filters.AllDataShowsEverything | app.py:439-443 | "Todos os dados" with "Todos os meses" shows the whole table, in order |
| Filters.AllDataOneMonthIsTheMonth | app.py:439-448 | "Todos os dados" with one month chosen shows exactly that month's rows |
| Filters.NewestInWindow | app.py:427-441 | the newest date lies inside every period's window |
| Filters.NewestRowsAlwaysShown | app.py:427-443 | every period shows the newest rows, so a non-empty table never filters to nothing without a month |
| Filters.RecentPeriodsAreNested | app.py:427-435 | last month ⊆ last 3 months ⊆ last 6 months |
| Filters.InsertDescending | app.py:389 | inserting a month into a strictly descending list keeps it strictly descending and adds only that month |
| Filters.MonthsPresent | app.py:389 | the unique periods of the data, newest first, each once, and no other |
| Filters.MonthOptions | app.py:389-391 | "Todos os meses" first, then every month of the data strictly newest first, and a month is offered exactly when the data has a row in it |
| Filters.OfferedMonthsAreNonEmpty | app.py:389-397 | every offered month, over all the data, shows at least one row |
| Forms.Strip | app.py:517 | `str.strip()` returns the slice of the text between leading and trailing Python whitespace and starts and ends with non-whitespace |
| Forms.StripEmptyIffBlank | app.py:517 | a text strips to nothing exactly when it is all whitespace |
| Forms.SubmitNewEntry | app.py:630-638 | saved exactly when description, positive amount and category are all present, appending one row of the chosen kind; otherwise nothing is written and the missing-fields warning is given |
| Forms.SubmitEdit | app.py:499-527 | as the code does it: saved exactly when the description has a non-whitespace character, and then ledger row `indice` (a position in the filtered view) is overwritten with the edited fields and the shown row's kind, every other row unchanged; otherwise the empty-description warning is given and nothing is written |
| Forms.SubmitEditCorrected | app.py:499-527 | corrected edit form: the same guard; then the ledger position j holding the shown row, with exactly `indice` shown rows before it, is overwritten in place with the edited fields and the shown row's kind, every other row staying where it was |
| Forms.EditAcceptsNonBlankNewDescriptions | app.py:630 | among descriptions the new-entry form accepts, the edit form refuses exactly the all-whitespace ones |
| Charts.SliceLength | finance/charts.py:288 | `xs[:n]` never has more than `len(xs)` elements |
| Charts.MonthRowOf | finance/charts.py:304-311 | one month's row carries that month's key and a saldo equal to its receitas minus its despesas |
| Charts.MonthRowAppend | finance/charts.py:304-311 | a new row leaves every other month's totals unchanged and changes its own month's receitas or despesas by exactly its contribution |
| Charts.MonthlyEvolution | finance/charts.py:283-311 | at most `meses` months, each present in the data, oldest first; they are the most recent months present; every month is included when there are fewer than `meses`; each row holds that month's income, expense and their difference |
| Charts.GroupByCategory | finance/charts.py:66 | one total per category of the kind, no category twice, each equal to its category sum, adding up to the kind's total |
| Charts.KeepPositive | finance/charts.py:67 | keeps exactly the positive totals and, with non-negative amounts, the overall sum |
| Charts.InsertByTotal | finance/charts.py:81 | inserting into an ordered list keeps it ordered and adds exactly that total |
| Charts.SortByTotal | finance/charts.py:81 | `sort_values` returns the same totals, ordered, with the same sum |
| Charts.CategoryPie | finance/charts.py:62-82 | the slices are exactly the categories with a positive sum, largest first, each labelled with its sum |
| Charts.PositiveCategories | finance/charts.py:66-67 | a category survives the positivity filter exactly when it has rows of the kind and a positive sum |
| Charts.SameRowsSameShows | finance/charts.py:81 | sorting does not change which categories are shown |
| Charts.PieTotalIsKindTotal | finance/charts.py:81-82 | with non-negative amounts the pie's displayed total equals the kind's general total |
| Charts.DistributionBars | finance/charts.py:390-392 | every income and every expense category with its sum, smallest first, summing to receitas and despesas; nothing for an empty table |
| Charts.Signed | finance/charts.py:219-222 | a row's `Valor Ajustado` is its contribution to the general saldo for income and expense rows; a row of any other `Tipo` counts as an expense |
| Charts.SingleKindBalance | finance/charts.py:219-223 | the last cumulative balance of an income-only table is its `Valor` sum, and of an expense-only table minus that sum |
| Charts.SignedSumPermutation | finance/charts.py:218-223 | the final accumulated balance does not depend on the order of the rows |
| Charts.SignedSumIsBalance | finance/charts.py:219-223 | when every row is income or expense, the accumulated balance equals the general saldo |
| Charts.InsertByDate | finance/charts.py:218 | inserting a row into a chronological table keeps it chronological and adds exactly that row |
| Charts.SortByDate | finance/charts.py:218 | `sort_values('Data')` returns the same rows, oldest first |
| Charts.RunningBalance | finance/charts.py:218-248 | one point per row, dated in non-decreasing order, each the signed sum of the sorted rows up to it; the last point is the table's signed sum |
| ViewIndex.RemoveShownRowAsWritten | app.py:539-554 | as the code does it: ledger row `i` is dropped, where `i` is a position in the filtered view; the rows before it stay and the rows after it move down by one |
| ViewIndex.EditShownRowAsWritten | app.py:493-520 | as the code does it: ledger row `i` is overwritten with the kind of view row `i` |
| ViewIndex.DeleteHitsTheWrongRow | app.py:539-554 | with February chosen, deleting the only row shown removes January's row and keeps February's |
| ViewIndex.EditHitsTheWrongRow | app.py:493-520 | with February chosen, editing the only row shown overwrites January's row |
| ViewIndex.LedgerIndexOf | app.py:397-408 | the ledger position of the i-th shown row: that row, with exactly i shown rows before it |
| ViewIndex.SelectAround | app.py:397-408 | the view splits into the rows shown before the i-th, that row, and the rows shown after it |
| ViewIndex.LedgerIndexWhenAllShown | app.py:397-408 | when every row is shown, view positions are ledger positions |
| ViewIndex.RemoveSelected | finance/core.py:59-65 | removing the i-th selected row drops the ledger position j holding it, with exactly i selected rows before j, keeping every other row in order; the selection loses exactly position i |
| ViewIndex.EditSelected | finance/core.py:67-77 | editing the i-th selected row overwrites, in place, the ledger position j holding it (exactly i selected rows before j), keeping its kind; every other row is unchanged |
| ViewIndex.RemoveShownRow | app.py:539-554 | corrected delete: the ledger position holding the shown row (exactly `indice` shown rows before it) is dropped, and every other row keeps its order; under the same window and month (the old ledger's window, not the period re-resolved against the new ledger's dates) the view loses exactly that row |
| ViewIndex.EditShownRow | app.py:493-520 | corrected edit: the ledger position holding the shown row (exactly `indice` shown rows before it) is overwritten in place, keeping its kind; every other row is unchanged |
| ViewIndex.AsWrittenIsRightWithoutFilters | app.py:397-408 | without filters the code as written and the corrected behaviour coincide |

## Left out

- Storage: `carregar_dados`, `salvar_dados` and `listar_lancamentos` read and write CSV files or Google Sheets. They are not modelled; each operation takes and returns the table.
- The `finance/core.py` that app.py calls is not the one in the repository. The functions at finance/core.py:38, 59 and 67 take no `usuario`, but app.py:520, 554 and 633 pass one, so with the file as it stands those calls raise TypeError. app.py:7-12 also imports names that file does not define. The model assumes a version of `finance/core.py` whose extra `usuario` parameter only picks the storage and whose table logic is the one shown. Both Findings rest on that assumption.
- The Streamlit interface is not modelled: widgets, session state, login, messages, and the matplotlib figures themselves. Only the data each chart is drawn from is modelled.
- The "Período personalizado" branch of `aplicar_filtros` (app.py:421-426) is not modelled, because its dates come from two date widgets.
- Floating-point amounts are not modelled: `Valor` is an integer number of cents, so the `float(valor)` conversions and rounding are out.
- Time of day is not modelled: dates have day granularity, which matches the midnight timestamps the forms store.
- Tie order is not modelled. pandas sorts with an unstable quicksort, so rows or categories with equal keys come out in unspecified order. The model fixes one order and proves that the sums and the multiset of rows do not depend on it.
- `calcular_evolucao_mensal`, `comparar_meses`, `obter_top_categorias_mes` and `calcular_media_mensal` are imported by app.py:11 but not defined in `finance/core.py`; they are not part of this model.
- The widgets restrict what the forms receive: `Valor` through `min_value=0.0` and categories through fixed lists. The model accepts any integer and any string there.
- Core.CategoryMapsSumToTotals: missing cells (NaN/NaT) are not modelled. `read_csv` (finance/core.py:25) turns an empty `Categoria` into NaN, and `groupby` (finance/core.py:114-115) drops NaN keys by default. Such a row counts towards `receitas`/`despesas` but appears in no category dictionary, so for that ledger the category sums fall short of the totals. The model treats an empty category as an ordinary key, so this property holds in the model but not for such a ledger. The same applies to Core.CategoryMap and Core.CategoriesOf.
- Charts.GroupByCategory: `Categoria` is modelled as plain strings. `mostrar_resumo` makes it a categorical column on the session frame (app.py:343-345) and hands that frame to the pie charts (app.py:370-371, 575-580). With pandas' default `observed=False`, grouping a categorical column returns every category of the whole ledger, and categories with no row of the kind get a sum of 0. Those zero entries are not modelled. The pies are unaffected, because the `> 0.0` filter (finance/charts.py:67, 144) removes them. Charts.DistributionBars would list them if it were given such a frame.
- Charts.MonthlyEvolution: the month labels are the periods themselves; their string formatting is left out.

## Findings

| source | as written | input that shows it | evidently intended | confidence | as-written member | corrected member |
|---|---|---|---|---|---|---|
| app.py:539-554 | the delete form lists the rows of the filtered view; it passes the chosen position to `remover_lancamento`, which drops that position in the full ledger | ledger [January row, February row], "Todos os dados" with month 2024-02: the view is [February row]; deleting view row 0 removes the January row | remove the row the user selected | high; not executed | ViewIndex.RemoveShownRowAsWritten, ViewIndex.DeleteHitsTheWrongRow | ViewIndex.RemoveShownRow |
| app.py:493-520 | the edit form does the same: it overwrites ledger row `indice` with the values edited from view row `indice` | same ledger and filters: editing the February row overwrites the January row, and the February row is left unchanged | overwrite the row the user selected | high; not executed | ViewIndex.EditShownRowAsWritten, ViewIndex.EditHitsTheWrongRow, Forms.SubmitEdit | ViewIndex.EditShownRow, Forms.SubmitEditCorrected |
