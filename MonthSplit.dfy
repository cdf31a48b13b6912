/** Splitting a stay into calendar-month chunks, for the per-month season
    quotas (date_range_to_month_ranges and last_day_of_month). */
module MonthSplit {
  import opened Calendar

  /** A chunk (first, last) of a stay inside one calendar month. */
  type Chunk = (Date, Date)

  /** last_day_of_month: go to the 28th, step four days into the next month,
      then step back as many days as the day of the month reached. */
  function LastDayOfMonth(day: Date): Date {
    var nextMonth := AddDays(Ymd(day.year, day.month, 28), 4);
    AddDays(nextMonth, -nextMonth.day)
  }

  /** The last day of the month keeps the year and month, is the month's final
      day, and the day after it is the first of the next month. */
  lemma LastDayOfMonthSpec(day: Date)
    ensures LastDayOfMonth(day) == Ymd(day.year, day.month, DaysInMonth(day.year, day.month))
    ensures SameMonth(LastDayOfMonth(day), day)
    ensures NextDay(LastDayOfMonth(day)) == FirstOfNextMonth(day)
    ensures NextDay(LastDayOfMonth(day)).day == 1
  {
    var dim := DaysInMonth(day.year, day.month);
    var the28th: Date := Ymd(day.year, day.month, 28);
    var last: Date := Ymd(day.year, day.month, dim);
    var first := FirstOfNextMonth(day);
    AddDaysSplit(the28th, dim - 28, 32 - dim);
    AddDaysWithinMonth(the28th, dim - 28);
    assert AddDays(last, 32 - dim) == AddDays(first, 31 - dim);
    AddDaysWithinMonth(first, 31 - dim);
    var nextMonth := AddDays(the28th, 4);
    assert nextMonth == Ymd(first.year, first.month, 32 - dim);
    SubDaysSplit(nextMonth, 31 - dim, 1);
    SubDaysWithinMonth(nextMonth, 31 - dim);
    assert AddDays(first, -1) == PrevDay(first);
  }

  /** The first of the next month is one day after the last of this one. */
  lemma FirstOfNextMonthOrdinal(day: Date)
    ensures Ordinal(FirstOfNextMonth(day))
            == Ordinal(day) + DaysInMonth(day.year, day.month) - day.day + 1
  {
    LastDayOfMonthSpec(day);
    NextDayOrdinal(LastDayOfMonth(day));
  }

  /** The chunks date_range_to_month_ranges returns: chunks from the current
      day to the last day of its month while the first of the next month is
      not after end, then the final chunk (current day, end). */
  function MonthRanges(start: Date, end: Date): seq<Chunk>
    decreases Ordinal(end) - Ordinal(start)
  {
    FirstOfNextMonthOrdinal(start);
    var nextMonth := FirstOfNextMonth(start);
    if Before(end, nextMonth) then [(start, end)]
    else [(start, LastDayOfMonth(start))] + MonthRanges(nextMonth, end)
  }

  /** date_range_to_month_ranges */
  method DateRangeToMonthRanges(start: Date, end: Date) returns (result: seq<Chunk>)
    ensures result == MonthRanges(start, end)
  {
    result := [];
    var current := start;
    while true
      invariant result + MonthRanges(current, end) == MonthRanges(start, end)
      decreases Ordinal(end) - Ordinal(current)
    {
      var nextMonth: Date;
      if current.month == 12 {
        nextMonth := Ymd(current.year + 1, 1, 1);
      } else {
        nextMonth := Ymd(current.year, current.month + 1, 1);
      }
      if Before(end, nextMonth) {
        break;
      }
      FirstOfNextMonthOrdinal(current);
      result := result + [(current, LastDayOfMonth(current))];
      current := nextMonth;
    }
    result := result + [(current, end)];
  }

  // ---------------------------------------------------------------------------
  // Properties of the split

  /** The split is never empty, starts at start and ends at end. */
  lemma {:induction false} MonthRangesEnds(start: Date, end: Date)
    ensures |MonthRanges(start, end)| >= 1
    ensures MonthRanges(start, end)[0].0 == start
    ensures MonthRanges(start, end)[|MonthRanges(start, end)| - 1].1 == end
    decreases Ordinal(end) - Ordinal(start)
  {
    FirstOfNextMonthOrdinal(start);
    var nextMonth := FirstOfNextMonth(start);
    if !Before(end, nextMonth) {
      MonthRangesEnds(nextMonth, end);
    }
  }

  /** Chunks are contiguous: every chunk but the last ends on the last day of
      its month, and the next chunk starts on the following day, the first of
      the next month. */
  lemma {:induction false} MonthRangesContiguous(start: Date, end: Date, i: nat)
    requires i + 1 < |MonthRanges(start, end)|
    ensures MonthRanges(start, end)[i].1 == LastDayOfMonth(MonthRanges(start, end)[i].0)
    ensures MonthRanges(start, end)[i + 1].0 == NextDay(MonthRanges(start, end)[i].1)
    ensures MonthRanges(start, end)[i + 1].0.day == 1
    decreases Ordinal(end) - Ordinal(start)
  {
    FirstOfNextMonthOrdinal(start);
    var nextMonth := FirstOfNextMonth(start);
    LastDayOfMonthSpec(start);
    if i > 0 {
      MonthRangesContiguous(nextMonth, end, i - 1);
    } else {
      MonthRangesEnds(nextMonth, end);
    }
  }

  /** For start <= end every chunk lies inside one calendar month and is not
      reversed. */
  lemma {:induction false} MonthRangesInOneMonth(start: Date, end: Date, i: nat)
    requires !Before(end, start)
    requires i < |MonthRanges(start, end)|
    ensures SameMonth(MonthRanges(start, end)[i].0, MonthRanges(start, end)[i].1)
    ensures !Before(MonthRanges(start, end)[i].1, MonthRanges(start, end)[i].0)
    decreases Ordinal(end) - Ordinal(start)
  {
    FirstOfNextMonthOrdinal(start);
    var nextMonth := FirstOfNextMonth(start);
    LastDayOfMonthSpec(start);
    if Before(end, nextMonth) {
      InMonthByOrdinal(start, end);
    } else if i > 0 {
      MonthRangesInOneMonth(nextMonth, end, i - 1);
    }
  }

  /** When end is the first of a month (and not before start), the final chunk
      is the empty chunk (end, end). */
  lemma EndOnFirstGivesEmptyChunk(start: Date, end: Date)
    requires !Before(end, start) && end.day == 1
    ensures MonthRanges(start, end)[|MonthRanges(start, end)| - 1] == (end, end)
  {
    var chunks := MonthRanges(start, end);
    MonthRangesEnds(start, end);
    var n := |chunks| - 1;
    MonthRangesInOneMonth(start, end, n);
    var first := chunks[n].0;
    assert first.day <= end.day by {
      if first.day > end.day {
        OrdinalMonotone(end, first);
      }
    }
  }

  /** Total length, in days, of the chunks as differences last - first. */
  function ChunkDays(chunks: seq<Chunk>): int {
    if chunks == [] then 0 else Days(chunks[0].0, chunks[0].1) + ChunkDays(chunks[1..])
  }

  /** Chunks are inclusive of their last day but are later measured as
      (last - first).days, so every month boundary loses one day: the chunk
      lengths add up to the stay's length minus (number of chunks - 1). */
  lemma {:induction false} MonthRangesLoseOneDayPerBoundary(start: Date, end: Date)
    ensures ChunkDays(MonthRanges(start, end)) == Days(start, end) - (|MonthRanges(start, end)| - 1)
    decreases Ordinal(end) - Ordinal(start)
  {
    FirstOfNextMonthOrdinal(start);
    var nextMonth := FirstOfNextMonth(start);
    LastDayOfMonthSpec(start);
    if !Before(end, nextMonth) {
      var rest := MonthRanges(nextMonth, end);
      MonthRangesLoseOneDayPerBoundary(nextMonth, end);
      assert MonthRanges(start, end)[1..] == rest;
    }
  }

  /** A whole-month chunk (one that starts on the 1st and is not the last)
      spans one day fewer than the month has. */
  lemma WholeMonthChunkDays(start: Date, end: Date, i: nat)
    requires i + 1 < |MonthRanges(start, end)|
    requires MonthRanges(start, end)[i].0.day == 1
    ensures Days(MonthRanges(start, end)[i].0, MonthRanges(start, end)[i].1)
            == DaysInMonth(MonthRanges(start, end)[i].0.year, MonthRanges(start, end)[i].0.month) - 1
  {
    MonthRangesContiguous(start, end, i);
    LastDayOfMonthSpec(MonthRanges(start, end)[i].0);
  }
}
