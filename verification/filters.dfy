/**
 The period and month filters of the dashboard (`aplicar_filtros` in
 `app.py`) and the month options offered next to them. Named periods are
 resolved against the newest and oldest dates in the data, never against
 the clock.
 */
module Filters {
  import opened Dates
  import opened Ledger

  /** The period select box, without the custom-period widget. */
  datatype Period = AllData | LastMonth | LastThreeMonths | LastSixMonths | ThisYear

  /** The month select box: "Todos os meses" or one `YYYY-MM` period. */
  datatype MonthChoice = AllMonths | OneMonth(key: MonthKey)

  /** The inclusive date range a period resolves to. */
  datatype Window = Window(start: Date, end: Date)

  predicate InWindow(w: Window, d: Date) {
    DateLe(w.start, d) && DateLe(d, w.end)
  }

  /** `df['Data'].min()` */
  function MinDate(t: Table): (d: Date)
    requires t != []
    ensures exists i :: 0 <= i < |t| && t[i].data == d
    ensures forall i :: 0 <= i < |t| ==> DateLe(d, t[i].data)
  {
    if |t| == 1 then t[0].data
    else
      var m := MinDate(t[1..]);
      assert forall i :: 1 <= i < |t| ==> t[i] == t[1..][i - 1];
      if DateLe(t[0].data, m) then t[0].data else m
  }

  /** `df['Data'].max()` */
  function MaxDate(t: Table): (d: Date)
    requires t != []
    ensures exists i :: 0 <= i < |t| && t[i].data == d
    ensures forall i :: 0 <= i < |t| ==> DateLe(t[i].data, d)
  {
    if |t| == 1 then t[0].data
    else
      var m := MaxDate(t[1..]);
      assert forall i :: 1 <= i < |t| ==> t[i] == t[1..][i - 1];
      if DateLe(m, t[0].data) then t[0].data else m
  }

  predicate ValidDates(t: Table) {
    forall i :: 0 <= i < |t| ==> ValidDate(t[i].data)
  }

  /** How many calendar months a "last months" period reaches back. */
  function MonthsBack(p: Period): nat
    requires p == LastMonth || p == LastThreeMonths || p == LastSixMonths
  {
    match p
    case LastMonth => 1
    case LastThreeMonths => 3
    case LastSixMonths => 6
  }

  /** The window a named period resolves to, anchored at the newest date of the data. */
  function PeriodWindow(t: Table, p: Period): (w: Window)
    requires t != []
    ensures w.end == MaxDate(t)
  {
    var newest := MaxDate(t);
    match p
    case AllData => Window(MinDate(t), newest)
    case ThisYear => Window(YearStart(newest), newest)
    case _ => Window(SubtractMonths(newest, MonthsBack(p)), newest)
  }

  /**
   Where each named period starts: "Todos os dados" covers every row, "Este
   ano" every row of the newest date's year, and the "last months" periods
   reach back that many calendar months from the newest date.
   */
  lemma PeriodWindowStart(t: Table, p: Period)
    requires t != []
    ensures p == AllData ==> forall i :: 0 <= i < |t| ==> InWindow(PeriodWindow(t, p), t[i].data)
    ensures p == ThisYear ==> PeriodWindow(t, p).start == Date(MaxDate(t).year, 1, 1)
    ensures p == ThisYear ==> forall i :: 0 <= i < |t| && ValidDate(t[i].data) && t[i].data.year == MaxDate(t).year ==>
                                InWindow(PeriodWindow(t, p), t[i].data)
    ensures p.LastMonth? || p.LastThreeMonths? || p.LastSixMonths? ==>
              MonthIndex(KeyOf(PeriodWindow(t, p).start)) == MonthIndex(KeyOf(MaxDate(t))) - MonthsBack(p)
  {
  }

  /** The single mask `aplicar_filtros` amounts to. */
  function ViewMask(t: Table, p: Period, mc: MonthChoice): Mask
    requires t != []
  {
    var w := PeriodWindow(t, p);
    match mc
    case AllMonths => Between(w.start, w.end)
    case OneMonth(k) => Both(Between(w.start, w.end), InMonth(k))
  }

  /** `aplicar_filtros`: keep the rows inside the period's window, then those of the chosen month. */
  function ApplyFilters(t: Table, p: Period, mc: MonthChoice): (r: Table)
    ensures t == [] ==> r == []
    ensures |r| <= |t| && IsSubsequence(r, t)
  {
    if t == [] then t
    else
      var w := PeriodWindow(t, p);
      var inPeriod := Select(t, Between(w.start, w.end));
      match mc
      case AllMonths =>
        SelectIsSubsequence(t, Between(w.start, w.end));
        inPeriod
      case OneMonth(k) =>
        SelectSelect(t, Between(w.start, w.end), InMonth(k));
        SelectIsSubsequence(t, Both(Between(w.start, w.end), InMonth(k)));
        Select(inPeriod, InMonth(k))
  }

  /**
   A row is shown exactly when it is in the table, its date lies in the
   period's window and, with a month chosen, it falls in that month.
   */
  lemma ApplyFiltersMembers(t: Table, p: Period, mc: MonthChoice)
    requires t != []
    ensures forall e: Entry :: e in ApplyFilters(t, p, mc) <==>
      && e in t
      && InWindow(PeriodWindow(t, p), e.data)
      && (mc.OneMonth? ==> KeyOf(e.data) == mc.key)
  {
    var w := PeriodWindow(t, p);
    var r := ApplyFilters(t, p, mc);
    match mc
    case AllMonths =>
      SelectMembers(t, Between(w.start, w.end));
    case OneMonth(k) =>
      var m := Both(Between(w.start, w.end), InMonth(k));
      SelectSelect(t, Between(w.start, w.end), InMonth(k));
      SelectMembers(t, m);
      forall e: Entry ensures e in r <==> e in t && InWindow(w, e.data) && KeyOf(e.data) == k {
        assert e in r <==> e in Select(t, m);
        assert Holds(m, e) <==> InWindow(w, e.data) && KeyOf(e.data) == k;
      }
  }

  /** The filtered view is one mask applied to the table. */
  lemma ApplyFiltersIsOneMask(t: Table, p: Period, mc: MonthChoice)
    requires t != []
    ensures ApplyFilters(t, p, mc) == Select(t, ViewMask(t, p, mc))
  {
    var w := PeriodWindow(t, p);
    if mc.OneMonth? {
      SelectSelect(t, Between(w.start, w.end), InMonth(mc.key));
    }
  }

  /** "Todos os dados" with "Todos os meses" shows the whole table, in order. */
  lemma AllDataShowsEverything(t: Table)
    ensures ApplyFilters(t, AllData, AllMonths) == t
  {
    if t != [] {
      var w := PeriodWindow(t, AllData);
      SelectKeepsAll(t, Between(w.start, w.end));
    }
  }

  /** "Todos os dados" with one month chosen is exactly that month's rows. */
  lemma AllDataOneMonthIsTheMonth(t: Table, k: MonthKey)
    ensures ApplyFilters(t, AllData, OneMonth(k)) == Select(t, InMonth(k))
  {
    if t != [] {
      var w := PeriodWindow(t, AllData);
      var m := Both(Between(w.start, w.end), InMonth(k));
      assert forall i :: 0 <= i < |t| ==> (Holds(m, t[i]) <==> Holds(InMonth(k), t[i])) by {
        forall i | 0 <= i < |t| ensures Holds(m, t[i]) <==> Holds(InMonth(k), t[i]) {
          assert DateLe(w.start, t[i].data) && DateLe(t[i].data, w.end);
        }
      }
      SelectAgreeingMasks(t, m, InMonth(k));
      ApplyFiltersIsOneMask(t, AllData, OneMonth(k));
    }
  }

  /** Every period keeps the newest rows, so a non-empty table never filters to nothing without a month. */
  lemma NewestRowsAlwaysShown(t: Table, p: Period)
    requires t != []
    requires ValidDates(t)
    ensures forall i :: 0 <= i < |t| && t[i].data == MaxDate(t) ==> t[i] in ApplyFilters(t, p, AllMonths)
    ensures ApplyFilters(t, p, AllMonths) != []
  {
    NewestInWindow(t, p);
    ApplyFiltersMembers(t, p, AllMonths);
    var view := ApplyFilters(t, p, AllMonths);
    forall i | 0 <= i < |t| && t[i].data == MaxDate(t) ensures t[i] in view {
    }
    var i :| 0 <= i < |t| && t[i].data == MaxDate(t);
    assert t[i] in view;
  }

  /** The newest date lies inside every period's window. */
  lemma NewestInWindow(t: Table, p: Period)
    requires t != []
    requires ValidDates(t)
    ensures InWindow(PeriodWindow(t, p), MaxDate(t))
  {
    var newest := MaxDate(t);
    var i :| 0 <= i < |t| && t[i].data == newest;
    assert ValidDate(newest);
    match p {
      case AllData =>
      case ThisYear =>
      case _ => SubtractMonthsIsEarlier(newest, MonthsBack(p));
    }
  }

  /** The last month lies within the last 3 months, which lie within the last 6 months. */
  lemma RecentPeriodsAreNested(t: Table)
    requires t != []
    requires ValidDates(t)
    ensures forall e: Entry :: e in ApplyFilters(t, LastMonth, AllMonths) ==> e in ApplyFilters(t, LastThreeMonths, AllMonths)
    ensures forall e: Entry :: e in ApplyFilters(t, LastThreeMonths, AllMonths) ==> e in ApplyFilters(t, LastSixMonths, AllMonths)
  {
    var newest := MaxDate(t);
    var w1, w3, w6 := PeriodWindow(t, LastMonth), PeriodWindow(t, LastThreeMonths), PeriodWindow(t, LastSixMonths);
    SubtractMonthsAntitone(newest, 1, 3);
    SubtractMonthsAntitone(newest, 3, 6);
    DateLeTotalOrder();
    ApplyFiltersMembers(t, LastMonth, AllMonths);
    ApplyFiltersMembers(t, LastThreeMonths, AllMonths);
    ApplyFiltersMembers(t, LastSixMonths, AllMonths);
    forall e: Entry | InWindow(w1, e.data) ensures InWindow(w3, e.data) {
    }
    forall e: Entry | InWindow(w3, e.data) ensures InWindow(w6, e.data) {
    }
  }

  // ---------------------------------------------------------------------
  // Month options
  // ---------------------------------------------------------------------

  /** Newest month first, no month twice. */
  predicate StrictlyDescending(ks: seq<MonthKey>) {
    forall i, j :: 0 <= i < j < |ks| ==> KeyLt(ks[j], ks[i])
  }

  predicate HasMonth(t: Table, k: MonthKey) {
    exists i :: 0 <= i < |t| && KeyOf(t[i].data) == k
  }

  /** Insert a month into a strictly descending list, unless it is already there. */
  function InsertDescending(k: MonthKey, ks: seq<MonthKey>): (r: seq<MonthKey>)
    requires StrictlyDescending(ks)
    ensures StrictlyDescending(r)
    ensures forall x :: x in r <==> x == k || x in ks
  {
    if ks == [] then [k]
    else if KeyLt(ks[0], k) then [k] + ks
    else if ks[0] == k then ks
    else
      var rest := InsertDescending(k, ks[1..]);
      assert KeyLt(k, ks[0]);
      assert forall x :: x in rest ==> KeyLt(x, ks[0]);
      [ks[0]] + rest
  }

  /** `sorted(df['Data'].dt.to_period('M').unique(), reverse=True)` */
  function MonthsPresent(t: Table): (ks: seq<MonthKey>)
    ensures StrictlyDescending(ks)
    ensures forall k :: k in ks <==> HasMonth(t, k)
  {
    if t == [] then []
    else
      var rest := MonthsPresent(t[1..]);
      assert forall k :: HasMonth(t, k) <==> k == KeyOf(t[0].data) || HasMonth(t[1..], k) by {
        forall k | HasMonth(t, k) ensures k == KeyOf(t[0].data) || HasMonth(t[1..], k) {
          var i :| 0 <= i < |t| && KeyOf(t[i].data) == k;
          if i > 0 {
            assert t[1..][i - 1] == t[i];
          }
        }
        forall k | HasMonth(t[1..], k) ensures HasMonth(t, k) {
          var i :| 0 <= i < |t[1..]| && KeyOf(t[1..][i].data) == k;
          assert t[i + 1] == t[1..][i];
        }
      }
      InsertDescending(KeyOf(t[0].data), rest)
  }

  /** The month select box: "Todos os meses" first, then every month of the data, newest first. */
  function MonthOptions(t: Table): (opts: seq<MonthChoice>)
    ensures |opts| >= 1 && opts[0] == AllMonths
    ensures forall i :: 1 <= i < |opts| ==> opts[i].OneMonth?
    ensures forall i, j :: 1 <= i < j < |opts| ==> KeyLt(opts[j].key, opts[i].key)
    ensures forall k :: OneMonth(k) in opts <==> HasMonth(t, k)
  {
    var ks := MonthsPresent(t);
    var opts := [AllMonths] + seq(|ks|, i requires 0 <= i < |ks| => OneMonth(ks[i]));
    assert forall k :: OneMonth(k) in opts <==> k in ks by {
      forall k | OneMonth(k) in opts ensures k in ks {
        var i :| 0 <= i < |opts| && opts[i] == OneMonth(k);
        assert ks[i - 1] == k;
      }
      forall k | k in ks ensures OneMonth(k) in opts {
        var i :| 0 <= i < |ks| && ks[i] == k;
        assert opts[i + 1] == OneMonth(k);
      }
    }
    opts
  }

  /** Choosing any offered month over all the data shows at least one row. */
  lemma OfferedMonthsAreNonEmpty(t: Table, k: MonthKey)
    requires OneMonth(k) in MonthOptions(t)
    ensures ApplyFilters(t, AllData, OneMonth(k)) != []
  {
    AllDataOneMonthIsTheMonth(t, k);
    assert HasMonth(t, k);
    var i :| 0 <= i < |t| && KeyOf(t[i].data) == k;
    assert Holds(InMonth(k), t[i]);
    SelectMembers(t, InMonth(k));
    assert t[i] in Select(t, InMonth(k));
  }
}
