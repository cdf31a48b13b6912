/** Proleptic-Gregorian calendar dates, the model of Python's datetime.date.

    A date is a (year, month, day) triple; its ordinal counts days from
    0001-01-01, which is ordinal 0 and a Monday, so Weekday(d) == Ordinal(d) % 7
    agrees with date.weekday() (Monday = 0 ... Sunday = 6). Adding a timedelta
    of n days is AddDays(d, n), subtracting two dates is Days(a, b), and dates
    compare by ordinal, as Python's do. Years are astronomical and unbounded. */
module Calendar {

  datatype Ymd = Ymd(year: int, month: int, day: int)

  predicate IsLeapYear(y: int) {
    y % 4 == 0 && (y % 100 != 0 || y % 400 == 0)
  }

  function DaysInMonth(y: int, m: int): (n: int)
    ensures 28 <= n <= 31
  {
    if m == 2 then (if IsLeapYear(y) then 29 else 28)
    else if m == 4 || m == 6 || m == 9 || m == 11 then 30
    else 31
  }

  predicate ValidYmd(d: Ymd) {
    1 <= d.month <= 12 && 1 <= d.day <= DaysInMonth(d.year, d.month)
  }

  type Date = d: Ymd | ValidYmd(d) witness Ymd(1, 1, 1)

  function DaysInYear(y: int): int {
    if IsLeapYear(y) then 366 else 365
  }

  /** Days in the years before year y, counted from 0001-01-01. */
  function DaysBeforeYear(y: int): int {
    var p := y - 1;
    365 * p + p / 4 - p / 100 + p / 400
  }

  /** Days in the months of year y before month m (1 <= m <= 12). */
  function DaysBeforeMonth(y: int, m: int): int {
    var common :=
      if m <= 1 then 0 else if m == 2 then 31 else if m == 3 then 59
      else if m == 4 then 90 else if m == 5 then 120 else if m == 6 then 151
      else if m == 7 then 181 else if m == 8 then 212 else if m == 9 then 243
      else if m == 10 then 273 else if m == 11 then 304 else 334;
    if m > 2 && IsLeapYear(y) then common + 1 else common
  }

  function Ordinal(d: Date): int {
    DaysBeforeYear(d.year) + DaysBeforeMonth(d.year, d.month) + d.day - 1
  }

  /** date.weekday(): Monday is 0, Sunday is 6. */
  function Weekday(d: Date): (w: int)
    ensures 0 <= w < 7
  {
    Ordinal(d) % 7
  }

  /** (b - a).days */
  function Days(a: Date, b: Date): int {
    Ordinal(b) - Ordinal(a)
  }

  predicate Before(a: Date, b: Date) {
    Ordinal(a) < Ordinal(b)
  }

  function NextDay(d: Date): Date {
    if d.day < DaysInMonth(d.year, d.month) then Ymd(d.year, d.month, d.day + 1)
    else if d.month < 12 then Ymd(d.year, d.month + 1, 1)
    else Ymd(d.year + 1, 1, 1)
  }

  function PrevDay(d: Date): Date {
    if d.day > 1 then Ymd(d.year, d.month, d.day - 1)
    else if d.month > 1 then Ymd(d.year, d.month - 1, DaysInMonth(d.year, d.month - 1))
    else Ymd(d.year - 1, 12, 31)
  }

  /** d + timedelta(days=n), one day at a time. */
  function AddDays(d: Date, n: int): Date
    decreases if n < 0 then -n else n
  {
    if n == 0 then d
    else if n > 0 then AddDays(NextDay(d), n - 1)
    else AddDays(PrevDay(d), n + 1)
  }

  /** The first of the month after d's month: d.replace(month=d.month+1, day=1),
      or d.replace(year=d.year+1, month=1, day=1) in December. */
  function FirstOfNextMonth(d: Date): Date {
    if d.month == 12 then Ymd(d.year + 1, 1, 1) else Ymd(d.year, d.month + 1, 1)
  }

  predicate SameMonth(a: Date, b: Date) {
    a.year == b.year && a.month == b.month
  }

  // ---------------------------------------------------------------------------
  // Ordinal arithmetic

  lemma DivStep(y: int)
    ensures y / 4 - (y - 1) / 4 == if y % 4 == 0 then 1 else 0
    ensures y / 100 - (y - 1) / 100 == if y % 100 == 0 then 1 else 0
    ensures y / 400 - (y - 1) / 400 == if y % 400 == 0 then 1 else 0
  {
  }

  lemma DaysBeforeNextYear(y: int)
    ensures DaysBeforeYear(y + 1) == DaysBeforeYear(y) + DaysInYear(y)
  {
    DivStep(y);
  }

  lemma NextDayOrdinal(d: Date)
    ensures Ordinal(NextDay(d)) == Ordinal(d) + 1
  {
    if d.day == DaysInMonth(d.year, d.month) && d.month == 12 {
      DaysBeforeNextYear(d.year);
    }
  }

  lemma NextPrevDay(d: Date)
    ensures NextDay(PrevDay(d)) == d
  {
  }

  lemma PrevDayOrdinal(d: Date)
    ensures Ordinal(PrevDay(d)) == Ordinal(d) - 1
  {
    NextPrevDay(d);
    NextDayOrdinal(PrevDay(d));
  }

  lemma {:induction false} AddDaysOrdinal(d: Date, n: int)
    ensures Ordinal(AddDays(d, n)) == Ordinal(d) + n
    decreases if n < 0 then -n else n
  {
    if n > 0 {
      NextDayOrdinal(d);
      AddDaysOrdinal(NextDay(d), n - 1);
    } else if n < 0 {
      PrevDayOrdinal(d);
      AddDaysOrdinal(PrevDay(d), n + 1);
    }
  }

  lemma ModShift(a: int, n: int)
    ensures (a + n) % 7 == (a % 7 + n) % 7
  {
    var q := a / 7;
    assert a == 7 * q + a % 7;
  }

  lemma WeekdayAddDays(d: Date, n: int)
    ensures Weekday(AddDays(d, n)) == (Weekday(d) + n) % 7
  {
    AddDaysOrdinal(d, n);
    ModShift(Ordinal(d), n);
  }

  lemma {:induction false} AddDaysWithinMonth(d: Date, k: nat)
    requires d.day + k <= DaysInMonth(d.year, d.month)
    ensures AddDays(d, k) == Ymd(d.year, d.month, d.day + k)
    decreases k
  {
    if k > 0 {
      AddDaysWithinMonth(NextDay(d), k - 1);
    }
  }

  lemma {:induction false} SubDaysWithinMonth(d: Date, k: nat)
    requires k < d.day
    ensures AddDays(d, -(k as int)) == Ymd(d.year, d.month, d.day - k)
    decreases k
  {
    if k > 0 {
      SubDaysWithinMonth(PrevDay(d), k - 1);
    }
  }

  lemma {:induction false} AddDaysSplit(d: Date, j: nat, k: nat)
    ensures AddDays(d, j + k) == AddDays(AddDays(d, j), k)
    decreases j
  {
    if j > 0 {
      AddDaysSplit(NextDay(d), j - 1, k);
    }
  }

  lemma {:induction false} SubDaysSplit(d: Date, j: nat, k: nat)
    ensures AddDays(d, -(j + k) as int) == AddDays(AddDays(d, -(j as int)), -(k as int))
    decreases j
  {
    if j > 0 {
      SubDaysSplit(PrevDay(d), j - 1, k);
    }
  }

  // ---------------------------------------------------------------------------
  // The ordinal respects the calendar order

  lemma DaysBeforeMonthBound(y: int, m: int)
    requires 1 <= m <= 12
    ensures DaysBeforeMonth(y, m) + DaysInMonth(y, m) <= DaysInYear(y)
    ensures m < 12 ==> DaysBeforeMonth(y, m + 1) == DaysBeforeMonth(y, m) + DaysInMonth(y, m)
  {
  }

  lemma {:induction false} DaysBeforeYearMonotone(y1: int, y2: int)
    requires y1 <= y2
    ensures DaysBeforeYear(y1) + (if y1 < y2 then DaysInYear(y1) else 0) <= DaysBeforeYear(y2)
    decreases y2 - y1
  {
    if y1 < y2 {
      DaysBeforeNextYear(y1);
      if y1 + 1 < y2 {
        DaysBeforeYearMonotone(y1 + 1, y2);
      }
    }
  }

  lemma {:induction false} DaysBeforeMonthMonotone(y: int, m1: int, m2: int)
    requires 1 <= m1 < m2 <= 12
    ensures DaysBeforeMonth(y, m1) + DaysInMonth(y, m1) <= DaysBeforeMonth(y, m2)
  {
  }

  /** A date in an earlier year, or an earlier month of the same year, or an
      earlier day of the same month, has a smaller ordinal. */
  lemma OrdinalMonotone(a: Date, b: Date)
    requires a.year < b.year || (a.year == b.year && a.month < b.month)
             || (a.year == b.year && a.month == b.month && a.day < b.day)
    ensures Ordinal(a) < Ordinal(b)
  {
    if a.year < b.year {
      DaysBeforeYearMonotone(a.year, b.year);
      DaysBeforeMonthBound(a.year, a.month);
    } else if a.month < b.month {
      DaysBeforeMonthMonotone(a.year, a.month, b.month);
    }
  }

  /** Dates are determined by their ordinal. */
  lemma OrdinalInjective(a: Date, b: Date)
    requires Ordinal(a) == Ordinal(b)
    ensures a == b
  {
    if a.year < b.year || (a.year == b.year && a.month < b.month)
       || (a.year == b.year && a.month == b.month && a.day < b.day) {
      OrdinalMonotone(a, b);
    } else if b.year < a.year || (a.year == b.year && b.month < a.month)
       || (a.year == b.year && a.month == b.month && b.day < a.day) {
      OrdinalMonotone(b, a);
    }
  }

  /** Every date from the first of d's month up to the day before the first of
      the next month lies in d's month. */
  lemma InMonthByOrdinal(d: Date, x: Date)
    requires Ordinal(Ymd(d.year, d.month, 1)) <= Ordinal(x) < Ordinal(FirstOfNextMonth(d))
    ensures SameMonth(x, d)
  {
    var first: Date := Ymd(d.year, d.month, 1);
    if x.year < d.year || (x.year == d.year && x.month < d.month) {
      OrdinalMonotone(x, first);
    } else if !SameMonth(x, d) {
      if FirstOfNextMonth(d) != x {
        OrdinalMonotone(FirstOfNextMonth(d), x);
      }
    }
  }
}
