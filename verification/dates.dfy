/**
 Calendar dates and month keys as the ledger uses them.

 The dashboard stores every `Data` as a pandas timestamp at midnight, so a
 date is a (year, month, day) triple ordered chronologically. A month key is
 the pandas `Period('M')` of a date: its (year, month) pair.
 */
module Dates {

  datatype Date = Date(year: int, month: int, day: int)

  /** Proleptic Gregorian leap years, as pandas uses them. */
  predicate IsLeapYear(y: int) {
    (y % 4 == 0 && y % 100 != 0) || y % 400 == 0
  }

  function DaysInMonth(y: int, m: int): (n: int)
    requires 1 <= m <= 12
    ensures 28 <= n <= 31
    ensures n == 29 <==> m == 2 && IsLeapYear(y)
    ensures n == 28 <==> m == 2 && !IsLeapYear(y)
  {
    if m == 2 then (if IsLeapYear(y) then 29 else 28)
    else if m == 4 || m == 6 || m == 9 || m == 11 then 30
    else 31
  }

  predicate ValidDate(d: Date) {
    1 <= d.month <= 12 && 1 <= d.day <= DaysInMonth(d.year, d.month)
  }

  /** Chronological order on dates (pandas timestamp `<=`). */
  predicate DateLe(a: Date, b: Date) {
    || a.year < b.year
    || (a.year == b.year && a.month < b.month)
    || (a.year == b.year && a.month == b.month && a.day <= b.day)
  }

  predicate DateLt(a: Date, b: Date) {
    DateLe(a, b) && a != b
  }

  /** `DateLe` is a total order. */
  lemma DateLeTotalOrder()
    ensures forall a: Date :: DateLe(a, a)
    ensures forall a: Date, b: Date :: DateLe(a, b) && DateLe(b, a) ==> a == b
    ensures forall a: Date, b: Date, c: Date :: DateLe(a, b) && DateLe(b, c) ==> DateLe(a, c)
    ensures forall a: Date, b: Date :: DateLe(a, b) || DateLe(b, a)
  {
  }

  /** A pandas monthly period: the (year, month) of a date. */
  datatype MonthKey = MonthKey(year: int, month: int)

  function KeyOf(d: Date): MonthKey {
    MonthKey(d.year, d.month)
  }

  /** Chronological order on month keys. */
  predicate KeyLt(a: MonthKey, b: MonthKey) {
    a.year < b.year || (a.year == b.year && a.month < b.month)
  }

  /** Number of months elapsed since January of year 0. */
  function MonthIndex(k: MonthKey): int {
    k.year * 12 + (k.month - 1)
  }

  /** The month key with a given month index; the inverse of `MonthIndex`. */
  function KeyAt(n: int): (k: MonthKey)
    ensures 1 <= k.month <= 12
    ensures MonthIndex(k) == n
  {
    MonthKey(n / 12, n % 12 + 1)
  }

  lemma KeyAtMonthIndex(k: MonthKey)
    requires 1 <= k.month <= 12
    ensures KeyAt(MonthIndex(k)) == k
  {
    var n := MonthIndex(k);
    assert n == k.year * 12 + (k.month - 1);
    assert n / 12 == k.year && n % 12 == k.month - 1;
  }

  /** On well-formed keys the chronological order is the order of month indices. */
  lemma KeyLtIsMonthIndexOrder(a: MonthKey, b: MonthKey)
    requires 1 <= a.month <= 12 && 1 <= b.month <= 12
    ensures KeyLt(a, b) <==> MonthIndex(a) < MonthIndex(b)
  {
  }

  /**
   `d - pandas.DateOffset(months = n)`: move back n calendar months and clamp
   the day to the length of the month reached (31 March minus one month is
   28 or 29 February).
   */
  function SubtractMonths(d: Date, n: nat): (r: Date)
    ensures MonthIndex(KeyOf(r)) == MonthIndex(KeyOf(d)) - n
    ensures 1 <= r.month <= 12
    ensures d.day <= DaysInMonth(r.year, r.month) ==> r.day == d.day
    ensures d.day > DaysInMonth(r.year, r.month) ==> r.day == DaysInMonth(r.year, r.month)
    ensures d.day >= 1 ==> ValidDate(r)
  {
    var k := KeyAt(MonthIndex(KeyOf(d)) - n);
    var last := DaysInMonth(k.year, k.month);
    Date(k.year, k.month, if d.day <= last then d.day else last)
  }

  /** Going back in time never moves a valid date forward. */
  lemma SubtractMonthsIsEarlier(d: Date, n: nat)
    requires ValidDate(d)
    ensures DateLe(SubtractMonths(d, n), d)
    ensures n > 0 ==> DateLt(SubtractMonths(d, n), d)
  {
    var r := SubtractMonths(d, n);
    if n == 0 {
      KeyAtMonthIndex(KeyOf(d));
    } else {
      KeyLtIsMonthIndexOrder(KeyOf(r), KeyOf(d));
    }
  }

  /** Going back further reaches an earlier (or the same) date. */
  lemma SubtractMonthsAntitone(d: Date, n1: nat, n2: nat)
    requires ValidDate(d)
    requires n1 <= n2
    ensures DateLe(SubtractMonths(d, n2), SubtractMonths(d, n1))
  {
    var a := SubtractMonths(d, n2);
    var b := SubtractMonths(d, n1);
    KeyLtIsMonthIndexOrder(KeyOf(a), KeyOf(b));
    if n1 == n2 {
      assert a == b;
    }
  }

  /** The first day of the year of `d` (`pd.Timestamp(d.year, 1, 1)`). */
  function YearStart(d: Date): (r: Date)
    ensures ValidDate(r)
    ensures r.year == d.year
    ensures ValidDate(d) ==> DateLe(r, d)
    ensures forall x: Date :: ValidDate(x) && x.year == d.year ==> DateLe(r, x)
  {
    Date(d.year, 1, 1)
  }
}
