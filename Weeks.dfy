/** Week arithmetic on dates: the most recent given weekday
    (last_weekday_date) and the split of a range into leading days, whole
    weeks and trailing days (dates_to_weeks). Weekdays are Python's:
    Monday = 0 ... Sunday = 6.

    The proofs come in three layers: residues modulo 7 on plain integers,
    then weekdays of dates related through their ordinals, and last the
    functions that move dates with AddDays, which only need AddDaysOrdinal
    and the layer below. */
module Weeks {
  import opened Calendar

  /** The result triple of dates_to_weeks. */
  datatype WeekSplit = WeekSplit(leadingDays: int, weeks: int, trailingDays: int)

  /** int(x / 7): true division, then truncation toward zero. */
  function TruncDiv7(x: int): (q: int)
    ensures x >= 0 ==> 0 <= 7 * q <= x < 7 * q + 7
    ensures x < 0 ==> 7 * q - 7 < x <= 7 * q <= 0
  {
    if x >= 0 then x / 7 else -((-x) / 7)
  }

  /** (weekday - d.weekday()) % 7: the days from d forward to the first date
      on or after d falling on weekday. */
  function DaysForwardTo(d: Date, weekday: int): int {
    (weekday - Weekday(d)) % 7
  }

  /** (7 - (weekday - d.weekday())) % 7: the days from d back to the last
      date on or before d falling on weekday. */
  function DaysBackTo(d: Date, weekday: int): int {
    (7 - (weekday - Weekday(d))) % 7
  }

  /** last_weekday_date: d less DaysBackTo(d, weekday) days. */
  function LastWeekdayDate(d: Date, weekday: int): Date {
    AddDays(d, -DaysBackTo(d, weekday))
  }

  /** dates_to_weeks: the days before the first date falling on weekStartDay,
      the whole weeks from there to the last such date on or before end
      (int() of the quotient, truncating toward zero), and the days after it. */
  function DatesToWeeks(start: Date, end: Date, weekStartDay: int): WeekSplit {
    var leadingDays := DaysForwardTo(start, weekStartDay);
    var trailingDays := DaysBackTo(end, weekStartDay);
    var fromWeek := AddDays(start, leadingDays);
    var tillWeek := AddDays(end, -trailingDays);
    WeekSplit(leadingDays, TruncDiv7(Days(fromWeek, tillWeek)), trailingDays)
  }

  // ---------------------------------------------------------------------------
  // Residues modulo 7: o is an integer and a == o % 7 its residue.

  /** Moving by whole weeks keeps the residue. */
  lemma AddWeeks(x: int, k: int)
    ensures (x + 7 * k) % 7 == x % 7
  {
    var q := x / 7;
    assert x + 7 * k == 7 * (q + k) + x % 7;
  }

  /** Stepping forward from o by (w - a) % 7, a step of 0 to 6, reaches w's
      residue. */
  lemma ForwardLands(o: int, a: int, w: int)
    requires a == o % 7
    ensures 0 <= (w - a) % 7 < 7
    ensures (o + (w - a) % 7) % 7 == w % 7
  {
    var p, q := o / 7, (w - a) / 7;
    assert o == 7 * p + a && w - a == 7 * q + (w - a) % 7;
    assert o + (w - a) % 7 == w + 7 * (p - q);
    AddWeeks(w, p - q);
  }

  /** No shorter forward step reaches w's residue. */
  lemma ForwardMisses(o: int, a: int, w: int, x: int)
    requires a == o % 7 && o <= x < o + (w - a) % 7
    ensures x % 7 != w % 7
  {
    ForwardLands(o, a, w);
    ModShift(o, x - o);
  }

  /** Stepping back from o by (7 - (w - a)) % 7, a step of 0 to 6 that is 0
      when a is already w's residue, reaches w's residue. */
  lemma BackLands(o: int, a: int, w: int)
    requires a == o % 7
    ensures 0 <= (7 - (w - a)) % 7 < 7
    ensures a == w % 7 ==> (7 - (w - a)) % 7 == 0
    ensures (o - (7 - (w - a)) % 7) % 7 == w % 7
  {
    var p, q := o / 7, (7 - (w - a)) / 7;
    assert o == 7 * p + a && 7 - (w - a) == 7 * q + (7 - (w - a)) % 7;
    assert o - (7 - (w - a)) % 7 == w + 7 * (p + q - 1);
    AddWeeks(w, p + q - 1);
    if a == w % 7 {
      var k := w / 7;
      assert 7 - (w - a) == 7 * (1 - k);
    }
  }

  /** No shorter backward step reaches w's residue. */
  lemma BackMisses(o: int, a: int, w: int, x: int)
    requires a == o % 7 && o - (7 - (w - a)) % 7 < x <= o
    ensures x % 7 != w % 7
  {
    BackLands(o, a, w);
    ModShift(o, x - o);
  }

  /** Integers with the same residue are a whole number x of weeks apart. */
  lemma WholeWeeksApart(p: int, q: int, x: int)
    requires p % 7 == q % 7 && x == q - p
    ensures 7 * TruncDiv7(x) == x
  {
    var i, j := p / 7, q / 7;
    assert p == 7 * i + p % 7 && q == 7 * j + q % 7;
    assert x == 7 * (j - i);
  }

  // ---------------------------------------------------------------------------
  // Weekdays of dates, through their ordinals

  lemma DaysForwardToRange(d: Date, weekday: int)
    ensures 0 <= DaysForwardTo(d, weekday) < 7
  {
    ForwardLands(Ordinal(d), Weekday(d), weekday);
  }

  lemma DaysBackToRange(d: Date, weekday: int)
    ensures 0 <= DaysBackTo(d, weekday) < 7
    ensures Weekday(d) == weekday % 7 ==> DaysBackTo(d, weekday) == 0
  {
    BackLands(Ordinal(d), Weekday(d), weekday);
  }

  /** The date DaysForwardTo(d, weekday) days after d falls on weekday ... */
  lemma ForwardLandsOnWeekday(d: Date, weekday: int, f: Date)
    requires Ordinal(f) == Ordinal(d) + DaysForwardTo(d, weekday)
    ensures Weekday(f) == weekday % 7
  {
    ForwardLands(Ordinal(d), Weekday(d), weekday);
  }

  /** ... and no date from d up to it does. */
  lemma ForwardMissesWeekday(d: Date, weekday: int, x: Date)
    requires Ordinal(d) <= Ordinal(x) < Ordinal(d) + DaysForwardTo(d, weekday)
    ensures Weekday(x) != weekday % 7
  {
    ForwardMisses(Ordinal(d), Weekday(d), weekday, Ordinal(x));
  }

  /** The date DaysBackTo(d, weekday) days before d falls on weekday ... */
  lemma BackLandsOnWeekday(d: Date, weekday: int, r: Date)
    requires Ordinal(r) == Ordinal(d) - DaysBackTo(d, weekday)
    ensures Weekday(r) == weekday % 7
  {
    BackLands(Ordinal(d), Weekday(d), weekday);
  }

  /** ... and no date after it, up to d, does. */
  lemma BackMissesWeekday(d: Date, weekday: int, x: Date)
    requires Ordinal(d) - DaysBackTo(d, weekday) < Ordinal(x) <= Ordinal(d)
    ensures Weekday(x) != weekday % 7
  {
    BackMisses(Ordinal(d), Weekday(d), weekday, Ordinal(x));
  }

  /** Dates on the same weekday are a whole number of weeks apart. */
  lemma SameWeekdayWholeWeeks(p: Date, q: Date)
    requires Weekday(p) == Weekday(q)
    ensures 7 * TruncDiv7(Days(p, q)) == Days(p, q)
  {
    WholeWeeksApart(Ordinal(p), Ordinal(q), Days(p, q));
  }

  // ---------------------------------------------------------------------------
  // last_weekday_date

  /** The result falls on weekday and lies 0 to 6 days before d; a d already
      on weekday is returned as it is. */
  lemma LastWeekdayDateSpec(d: Date, weekday: int)
    ensures var r := LastWeekdayDate(d, weekday);
            && Weekday(r) == weekday % 7
            && 0 <= Days(r, d) < 7
            && (Weekday(d) == weekday % 7 ==> r == d)
  {
    var r := LastWeekdayDate(d, weekday);
    AddDaysOrdinal(d, -DaysBackTo(d, weekday));
    DaysBackToRange(d, weekday);
    BackLandsOnWeekday(d, weekday, r);
    if Ordinal(r) == Ordinal(d) {
      OrdinalInjective(r, d);
    }
  }

  /** No date after the result, up to d, falls on weekday: the result is the
      latest such date. */
  lemma LastWeekdayDateLatest(d: Date, weekday: int, x: Date)
    requires Before(LastWeekdayDate(d, weekday), x) && !Before(d, x)
    ensures Weekday(x) != weekday % 7
  {
    AddDaysOrdinal(d, -DaysBackTo(d, weekday));
    BackMissesWeekday(d, weekday, x);
  }

  /** Asking again from the result returns the result. */
  lemma LastWeekdayDateIdempotent(d: Date, weekday: int)
    ensures LastWeekdayDate(LastWeekdayDate(d, weekday), weekday) == LastWeekdayDate(d, weekday)
  {
    var r := LastWeekdayDate(d, weekday);
    LastWeekdayDateSpec(d, weekday);
    LastWeekdayDateSpec(r, weekday);
  }

  // ---------------------------------------------------------------------------
  // dates_to_weeks

  /** Leading and trailing days are 0..6, start + leading falls on
      weekStartDay, and end - trailing is last_weekday_date of end. */
  lemma DatesToWeeksAligned(start: Date, end: Date, weekStartDay: int)
    ensures var split := DatesToWeeks(start, end, weekStartDay);
            && 0 <= split.leadingDays < 7 && 0 <= split.trailingDays < 7
            && Weekday(AddDays(start, split.leadingDays)) == weekStartDay % 7
            && AddDays(end, -split.trailingDays) == LastWeekdayDate(end, weekStartDay)
            && Weekday(AddDays(end, -split.trailingDays)) == weekStartDay % 7
  {
    var fromWeek := AddDays(start, DaysForwardTo(start, weekStartDay));
    AddDaysOrdinal(start, DaysForwardTo(start, weekStartDay));
    DaysForwardToRange(start, weekStartDay);
    ForwardLandsOnWeekday(start, weekStartDay, fromWeek);
    DaysBackToRange(end, weekStartDay);
    LastWeekdayDateSpec(end, weekStartDay);
  }

  /** No date from start up to start + leading falls on weekStartDay: the
      weeks begin on the first such date. */
  lemma DatesToWeeksFirstWeekStart(start: Date, end: Date, weekStartDay: int, x: Date)
    requires !Before(x, start) && Before(x, AddDays(start, DatesToWeeks(start, end, weekStartDay).leadingDays))
    ensures Weekday(x) != weekStartDay % 7
  {
    AddDaysOrdinal(start, DaysForwardTo(start, weekStartDay));
    ForwardMissesWeekday(start, weekStartDay, x);
  }

  /** From the first date on weekStartDay to the last one on or before end
      is a whole number of weeks, the range less its leading and trailing
      days. */
  lemma WholeWeeksBetween(start: Date, end: Date, weekStartDay: int)
    ensures var fromWeek := AddDays(start, DaysForwardTo(start, weekStartDay));
            var tillWeek := AddDays(end, -DaysBackTo(end, weekStartDay));
            && Days(fromWeek, tillWeek) == Days(start, end) - DaysForwardTo(start, weekStartDay) - DaysBackTo(end, weekStartDay)
            && 7 * TruncDiv7(Days(fromWeek, tillWeek)) == Days(fromWeek, tillWeek)
  {
    var l, t := DaysForwardTo(start, weekStartDay), DaysBackTo(end, weekStartDay);
    var fromWeek, tillWeek := AddDays(start, l), AddDays(end, -t);
    AddDaysOrdinal(start, l);
    AddDaysOrdinal(end, -t);
    ForwardLandsOnWeekday(start, weekStartDay, fromWeek);
    BackLandsOnWeekday(end, weekStartDay, tillWeek);
    SameWeekdayWholeWeeks(fromWeek, tillWeek);
  }

  /** The three parts always add up to the length of the range, so the week
      count is negative exactly when the range is shorter than its leading
      and trailing days together. */
  lemma DatesToWeeksSum(start: Date, end: Date, weekStartDay: int)
    ensures var split := DatesToWeeks(start, end, weekStartDay);
            && split.leadingDays + 7 * split.weeks + split.trailingDays == Days(start, end)
            && (split.weeks >= 0 <==> Days(start, end) >= split.leadingDays + split.trailingDays)
  {
    var l, t := DaysForwardTo(start, weekStartDay), DaysBackTo(end, weekStartDay);
    var span := Days(AddDays(start, l), AddDays(end, -t));
    WholeWeeksBetween(start, end, weekStartDay);
    var split := DatesToWeeks(start, end, weekStartDay);
    assert split.leadingDays == l && split.trailingDays == t && split.weeks == TruncDiv7(span);
    assert 7 * split.weeks == span;
  }
}
