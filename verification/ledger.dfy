/**
 The ledger table: a sequence of entries with the five persisted columns
 `Data, Descrição, Categoria, Tipo, Valor`, the boolean row masks the code
 builds over those columns, and the two primitive folds (mask selection and
 summing `Valor`).
 */
module Ledger {
  import opened Dates

  /**
   The `Tipo` column. The code only ever compares it with the literals
   "Receita" and "Despesa", so any other text is carried as `Other`.
   */
  datatype Kind = Receita | Despesa | Other(name: string)

  /** One row; `valor` is the amount in cents. */
  datatype Entry = Entry(data: Date, descricao: string, categoria: string, tipo: Kind, valor: int)

  type Table = seq<Entry>

  /** A boolean mask over the columns, `df[mask]` in pandas. */
  datatype Mask =
    | KindIs(kind: Kind)               // df['Tipo'] == kind
    | CategoryIs(categoria: string)    // df['Categoria'] == categoria
    | Between(start: Date, end: Date)  // (df['Data'] >= start) & (df['Data'] <= end)
    | InMonth(key: MonthKey)           // df['Data'].dt.to_period('M') == key
    | Both(left: Mask, right: Mask)    // left & right

  predicate Holds(m: Mask, e: Entry) {
    match m
    case KindIs(k) => e.tipo == k
    case CategoryIs(c) => e.categoria == c
    case Between(s, t) => DateLe(s, e.data) && DateLe(e.data, t)
    case InMonth(k) => KeyOf(e.data) == k
    case Both(a, b) => Holds(a, e) && Holds(b, e)
  }

  /** `a` is `b` with some rows left out and the rest in their original order. */
  predicate IsSubsequence(a: Table, b: Table)
    decreases |b|
  {
    || a == []
    || (&& b != []
        && ((a[0] == b[0] && IsSubsequence(a[1..], b[1..])) || IsSubsequence(a, b[1..])))
  }

  /** `df[mask]`: the rows satisfying the mask, in table order. */
  function Select(t: Table, m: Mask): (r: Table)
    ensures |r| <= |t|
    ensures forall i :: 0 <= i < |r| ==> Holds(m, r[i])
  {
    if t == [] then []
    else
      var rest := Select(t[1..], m);
      if Holds(m, t[0]) then
        var r := [t[0]] + rest;
        assert forall i :: 1 <= i < |r| ==> r[i] == rest[i - 1];
        r
      else
        rest
  }

  /** A row is selected exactly when it is in the table and satisfies the mask. */
  lemma {:induction false} SelectMembers(t: Table, m: Mask)
    ensures forall e :: e in Select(t, m) <==> e in t && Holds(m, e)
  {
    if t != [] {
      SelectMembers(t[1..], m);
      assert t == [t[0]] + t[1..];
      assert forall e :: e in t <==> e == t[0] || e in t[1..];
    }
  }

  /** The selected rows keep their table order. */
  lemma {:induction false} SelectIsSubsequence(t: Table, m: Mask)
    ensures IsSubsequence(Select(t, m), t)
  {
    if t != [] {
      SelectIsSubsequence(t[1..], m);
      var r := Select(t, m);
      if Holds(m, t[0]) {
        assert r[0] == t[0] && r[1..] == Select(t[1..], m);
      }
    }
  }

  /** A row the mask accepts occurs in the selection as often as in the table. */
  lemma {:induction false} SelectCounts(t: Table, m: Mask)
    ensures forall e :: Holds(m, e) ==> multiset(Select(t, m))[e] == multiset(t)[e]
    ensures forall e :: !Holds(m, e) ==> multiset(Select(t, m))[e] == 0
  {
    if t != [] {
      SelectCounts(t[1..], m);
      assert t == [t[0]] + t[1..];
      assert multiset(t) == multiset{t[0]} + multiset(t[1..]);
      if Holds(m, t[0]) {
        var r := Select(t, m);
        assert r == [t[0]] + Select(t[1..], m);
        assert multiset(r) == multiset{t[0]} + multiset(Select(t[1..], m));
      }
    }
  }

  /** `['Valor'].sum()`: 0 for no rows, a single row's own amount for one. */
  function Total(t: Table): (r: int)
    ensures t == [] ==> r == 0
    ensures |t| == 1 ==> r == t[0].valor
  {
    if t == [] then 0 else t[0].valor + Total(t[1..])
  }

  lemma {:induction false} TotalAppend(a: Table, b: Table)
    ensures Total(a + b) == Total(a) + Total(b)
  {
    if a != [] {
      assert (a + b)[1..] == a[1..] + b;
      TotalAppend(a[1..], b);
    } else {
      assert a + b == b;
    }
  }

  /** Amounts are sums: a table of non-negative amounts has a non-negative total. */
  lemma {:induction false} TotalNonNegative(t: Table)
    requires forall i :: 0 <= i < |t| ==> t[i].valor >= 0
    ensures Total(t) >= 0
  {
    if t != [] {
      TotalNonNegative(t[1..]);
    }
  }

  lemma {:induction false} SelectAppend(a: Table, b: Table, m: Mask)
    ensures Select(a + b, m) == Select(a, m) + Select(b, m)
  {
    if a == [] {
      assert a + b == b;
    } else {
      assert (a + b)[1..] == a[1..] + b;
      SelectAppend(a[1..], b, m);
    }
  }

  /** Masking twice is masking once with the conjunction. */
  lemma {:induction false} SelectSelect(t: Table, a: Mask, b: Mask)
    ensures Select(Select(t, a), b) == Select(t, Both(a, b))
  {
    if t != [] {
      SelectSelect(t[1..], a, b);
    }
  }

  /** A mask every row satisfies keeps the whole table. */
  lemma {:induction false} SelectKeepsAll(t: Table, m: Mask)
    requires forall i :: 0 <= i < |t| ==> Holds(m, t[i])
    ensures Select(t, m) == t
  {
    if t != [] {
      SelectKeepsAll(t[1..], m);
      assert [t[0]] + t[1..] == t;
    }
  }

  /** A mask no row satisfies keeps nothing. */
  lemma {:induction false} SelectKeepsNone(t: Table, m: Mask)
    requires forall i :: 0 <= i < |t| ==> !Holds(m, t[i])
    ensures Select(t, m) == []
  {
    if t != [] {
      SelectKeepsNone(t[1..], m);
    }
  }

  /** Masks that agree on every row of the table select the same rows. */
  lemma {:induction false} SelectAgreeingMasks(t: Table, a: Mask, b: Mask)
    requires forall i :: 0 <= i < |t| ==> (Holds(a, t[i]) <==> Holds(b, t[i]))
    ensures Select(t, a) == Select(t, b)
  {
    if t != [] {
      SelectAgreeingMasks(t[1..], a, b);
    }
  }
}
