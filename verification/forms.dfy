/**
 The checks the "Novo Lançamento" and "Editar Lançamento" forms of `app.py`
 make before they write to the ledger, and Python's `str.strip()` that the
 edit form relies on.
 */
module Forms {
  import opened Dates
  import opened Ledger
  import opened Core
  import opened Filters
  import opened ViewIndex

  /**
   Python's `str.isspace()`: the code points `str.strip()` removes when
   called without arguments.
   */
  predicate IsSpace(c: char) {
    || ('\t' <= c <= '\r')
    || ('\U{1C}' <= c <= ' ')
    || c == '\U{85}' || c == '\U{A0}' || c == '\U{1680}'
    || ('\U{2000}' <= c <= '\U{200A}')
    || c == '\U{2028}' || c == '\U{2029}' || c == '\U{202F}' || c == '\U{205F}' || c == '\U{3000}'
  }

  predicate IsBlank(s: string) {
    forall i :: 0 <= i < |s| ==> IsSpace(s[i])
  }

  /** Everything before position `a` is whitespace. */
  predicate BlankBefore(s: string, a: int) {
    forall j :: 0 <= j < a && j < |s| ==> IsSpace(s[j])
  }

  /** Everything from position `b` on is whitespace. */
  predicate BlankFrom(s: string, b: int) {
    forall j :: 0 <= b <= j < |s| ==> IsSpace(s[j])
  }

  /** The first position at or after `i` that is not whitespace, or `|s|`. */
  function SkipSpaces(s: string, i: nat): (k: nat)
    requires i <= |s|
    ensures i <= k <= |s|
    ensures forall j :: i <= j < k ==> IsSpace(s[j])
    ensures k < |s| ==> !IsSpace(s[k])
    decreases |s| - i
  {
    if i == |s| || !IsSpace(s[i]) then i else SkipSpaces(s, i + 1)
  }

  /** Moving back from `e`, the end of the last non-whitespace character at or after `lo`, or `lo`. */
  function SkipSpacesBack(s: string, lo: nat, e: nat): (k: nat)
    requires lo <= e <= |s|
    ensures lo <= k <= e
    ensures forall j :: k <= j < e ==> IsSpace(s[j])
    ensures k > lo ==> !IsSpace(s[k - 1])
    decreases e
  {
    if e == lo || !IsSpace(s[e - 1]) then e else SkipSpacesBack(s, lo, e - 1)
  }

  /**
   `str.strip()`: the slice of `s` left after removing whitespace at both
   ends; it starts and ends with a non-whitespace character, or is empty.
   */
  function Strip(s: string): (r: string)
    ensures exists a :: && 0 <= a <= a + |r| <= |s| && r == s[a..a + |r|]
                        && BlankBefore(s, a) && BlankFrom(s, a + |r|)
    ensures r != [] ==> !IsSpace(r[0]) && !IsSpace(r[|r| - 1])
  {
    var a := SkipSpaces(s, 0);
    var b := SkipSpacesBack(s, a, |s|);
    var r := s[a..b];
    assert r == s[a..a + |r|];
    assert BlankBefore(s, a) && BlankFrom(s, a + |r|);
    r
  }

  /** A string strips to nothing exactly when it is all whitespace. */
  lemma StripEmptyIffBlank(s: string)
    ensures Strip(s) == [] <==> IsBlank(s)
  {
    var r := Strip(s);
    var a :| && 0 <= a <= a + |r| <= |s| && r == s[a..a + |r|]
             && BlankBefore(s, a) && BlankFrom(s, a + |r|);
    if r != [] {
      assert !IsBlank(s) by {
        assert s[a] == r[0];
      }
    }
  }

  /** Why a form refused to save. */
  datatype FormError =
    | MissingRequiredFields  // "Preencha todos os campos obrigatórios"
    | EmptyDescription       // "A descrição não pode estar vazia"

  datatype Outcome = Saved(table: Table) | Rejected(error: FormError)

  /**
   Submitting the new-entry form for kind `grupo`: saved when the description
   is non-empty (whitespace counts), the amount is positive and a category is
   chosen; otherwise nothing is written.
   */
  function SubmitNewEntry(t: Table, grupo: Kind, data: Date, descricao: string, categoria: string, valor: int)
    : (r: Outcome)
    ensures r.Saved? <==> |descricao| > 0 && valor > 0 && |categoria| > 0
    ensures r.Saved? ==> (|r.table| == |t| + 1 && r.table[..|t|] == t
                          && r.table[|t|] == Entry(data, descricao, categoria, grupo, valor))
    ensures r.Rejected? ==> r.error == MissingRequiredFields
  {
    if |descricao| > 0 && valor > 0 && |categoria| > 0 then
      Saved(AddEntry(t, data, descricao, categoria, grupo, valor))
    else
      Rejected(MissingRequiredFields)
  }

  /** `descricao and descricao.strip()`: the edit form's only check. */
  predicate EditGuard(descricao: string) {
    |descricao| > 0 && Strip(descricao) != []
  }

  /**
   Submitting the edit form for row `i` of the filtered view, as the code
   does it: saved when the description has a non-whitespace character, and
   then ledger row `i` (not necessarily the row shown) is overwritten with
   the edited fields and the shown row's kind. Any amount, zero included,
   is accepted.
   */
  function SubmitEdit(t: Table, p: Period, mc: MonthChoice, i: int,
                      data: Date, descricao: string, categoria: string, valor: int): (r: Outcome)
    requires 0 <= i < |ApplyFilters(t, p, mc)|
    ensures r.Saved? <==> exists j :: 0 <= j < |descricao| && !IsSpace(descricao[j])
    ensures r.Saved? ==> && |r.table| == |t|
                         && r.table[i] == Entry(data, descricao, categoria, ApplyFilters(t, p, mc)[i].tipo, valor)
                         && forall j :: 0 <= j < |t| && j != i ==> r.table[j] == t[j]
    ensures r.Rejected? ==> r.error == EmptyDescription
  {
    StripEmptyIffBlank(descricao);
    if EditGuard(descricao) then
      Saved(EditShownRowAsWritten(t, p, mc, i, data, descricao, categoria, valor))
    else
      Rejected(EmptyDescription)
  }

  /**
   The edit form with the view position mapped back to the ledger: the same
   check, and the row shown is the one overwritten, keeping its kind.
   */
  function SubmitEditCorrected(t: Table, p: Period, mc: MonthChoice, i: int,
                               data: Date, descricao: string, categoria: string, valor: int): (r: Outcome)
    requires 0 <= i < |ApplyFilters(t, p, mc)|
    ensures r.Saved? <==> exists j :: 0 <= j < |descricao| && !IsSpace(descricao[j])
    ensures r.Saved? ==> var shown := ApplyFilters(t, p, mc)[i];
                         && |r.table| == |t|
                         && (exists j :: && 0 <= j < |t| && t[j] == shown && |Select(t[..j], ViewMask(t, p, mc))| == i
                                        && r.table == t[j := Entry(data, descricao, categoria, shown.tipo, valor)])
                         && multiset(r.table) == multiset(t) - multiset{shown}
                                                 + multiset{Entry(data, descricao, categoria, shown.tipo, valor)}
    ensures r.Rejected? ==> r.error == EmptyDescription
  {
    StripEmptyIffBlank(descricao);
    if EditGuard(descricao) then
      Saved(EditShownRow(t, p, mc, i, data, descricao, categoria, valor))
    else
      Rejected(EmptyDescription)
  }

  /** The edit form accepts every description the new-entry form accepts, except all-whitespace ones. */
  lemma EditAcceptsNonBlankNewDescriptions(t: Table, p: Period, mc: MonthChoice, i: int, e: Entry, grupo: Kind)
    requires 0 <= i < |ApplyFilters(t, p, mc)|
    requires SubmitNewEntry(t, grupo, e.data, e.descricao, e.categoria, e.valor).Saved?
    ensures SubmitEdit(t, p, mc, i, e.data, e.descricao, e.categoria, e.valor).Saved? <==> !IsBlank(e.descricao)
  {
  }
}
