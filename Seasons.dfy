/** Which seasons apply to a date range (seasons_in_date_range) and the one
    season that governs a month chunk (peak wins). */
module Seasons {
  import opened Wrappers
  import opened Calendar
  import opened Records

  /** Month m lies in first..last, wrapping past December when first > last. */
  predicate InMonthSpan(first: int, last: int, m: int) {
    if first <= last then first <= m <= last else m >= first || m <= last
  }

  predicate ValidMonths(s: Season) {
    1 <= s.startMonth <= 12 && 1 <= s.endMonth <= 12
  }

  /** Some calendar month is both in the season and in first..last. */
  predicate SpansOverlap(s: Season, first: int, last: int) {
    exists m :: 1 <= m <= 12 && InMonthSpan(s.startMonth, s.endMonth, m) && InMonthSpan(first, last, m)
  }

  /** The query's exclusions, with first = start.month and last = end.month:
      when first <= last, a non-wrapping season entirely after last or before
      first, and a wrapping season ending before first and starting after last;
      when first > last, only a non-wrapping season starting after last and
      ending before first. */
  predicate ExcludedByQuery(s: Season, first: int, last: int) {
    if first <= last then
      (s.startMonth <= s.endMonth && (s.startMonth > last || s.endMonth < first))
      || (s.startMonth > s.endMonth && (s.endMonth < first && s.startMonth > last))
    else
      s.startMonth <= s.endMonth && (s.startMonth > last && s.endMonth < first)
  }

  /** seasons_in_date_range: the configured seasons the query does not exclude,
      in configuration order. */
  function SeasonsInDateRange(seasons: seq<Season>, start: Date, end: Date): (r: seq<Season>)
    ensures forall s :: s in r ==> s in seasons && !ExcludedByQuery(s, start.month, end.month)
    ensures forall s :: s in seasons && !ExcludedByQuery(s, start.month, end.month) ==> s in r
    ensures |r| <= |seasons|
  {
    if seasons == [] then []
    else
      var rest := SeasonsInDateRange(seasons[1..], start, end);
      if ExcludedByQuery(seasons[0], start.month, end.month) then rest else [seasons[0]] + rest
  }

  /** Each season the query keeps is returned as many times as it is
      configured, and no other season is returned, so count() is the number
      of configured seasons meeting the range. */
  lemma {:induction false} SeasonsInDateRangeCounts(seasons: seq<Season>, start: Date, end: Date)
    ensures forall s :: multiset(SeasonsInDateRange(seasons, start, end))[s]
                        == if ExcludedByQuery(s, start.month, end.month) then 0 else multiset(seasons)[s]
  {
    if seasons != [] {
      SeasonsInDateRangeCounts(seasons[1..], start, end);
      assert seasons == [seasons[0]] + seasons[1..];
    }
  }

  /** When the query excludes every configured season, it returns none. */
  lemma {:induction false} NoSeasonInDateRange(seasons: seq<Season>, start: Date, end: Date)
    requires forall j :: 0 <= j < |seasons| ==> ExcludedByQuery(seasons[j], start.month, end.month)
    ensures SeasonsInDateRange(seasons, start, end) == []
  {
    if seasons != [] {
      NoSeasonInDateRange(seasons[1..], start, end);
    }
  }

  /** When the configured season at index i is the only one the query keeps,
      the query returns just that season. */
  lemma {:induction false} SoleSeasonInDateRange(seasons: seq<Season>, start: Date, end: Date, i: nat)
    requires i < |seasons| && !ExcludedByQuery(seasons[i], start.month, end.month)
    requires forall j :: 0 <= j < |seasons| && j != i ==> ExcludedByQuery(seasons[j], start.month, end.month)
    ensures SeasonsInDateRange(seasons, start, end) == [seasons[i]]
  {
    if i == 0 {
      NoSeasonInDateRange(seasons[1..], start, end);
    } else {
      SoleSeasonInDateRange(seasons[1..], start, end, i - 1);
    }
  }

  /** When the query keeps the seasons at two different indices, it returns
      at least two seasons, even if the two are configured alike. */
  lemma {:induction false} TwoSeasonsInDateRange(seasons: seq<Season>, start: Date, end: Date, i: nat, j: nat)
    requires i < j < |seasons|
    requires !ExcludedByQuery(seasons[i], start.month, end.month)
    requires !ExcludedByQuery(seasons[j], start.month, end.month)
    ensures |SeasonsInDateRange(seasons, start, end)| >= 2
  {
    if i == 0 {
      assert seasons[j] == seasons[1..][j - 1];
    } else {
      TwoSeasonsInDateRange(seasons[1..], start, end, i - 1, j - 1);
    }
  }

  /** The query on a season followed by more seasons. */
  lemma SeasonsInDateRangeCons(first: Season, rest: seq<Season>, start: Date, end: Date)
    ensures SeasonsInDateRange([first] + rest, start, end)
            == (if ExcludedByQuery(first, start.month, end.month) then [] else [first])
               + SeasonsInDateRange(rest, start, end)
  {
    assert ([first] + rest)[1..] == rest;
  }

  /** The query keeps configuration order: querying a concatenation
      concatenates the results. */
  lemma {:induction false} SeasonsInDateRangeAppend(front: seq<Season>, back: seq<Season>, start: Date, end: Date)
    ensures SeasonsInDateRange(front + back, start, end)
            == SeasonsInDateRange(front, start, end) + SeasonsInDateRange(back, start, end)
  {
    if front == [] {
      assert front + back == back;
    } else {
      var first, rest := front[0], front[1..];
      var head := if ExcludedByQuery(first, start.month, end.month) then [] else [first];
      calc {
        SeasonsInDateRange(front + back, start, end);
      == { assert front + back == [first] + (rest + back);
           SeasonsInDateRangeCons(first, rest + back, start, end); }
        head + SeasonsInDateRange(rest + back, start, end);
      == { SeasonsInDateRangeAppend(rest, back, start, end); }
        head + (SeasonsInDateRange(rest, start, end) + SeasonsInDateRange(back, start, end));
      == { assert front == [first] + rest;
           SeasonsInDateRangeCons(first, rest, start, end); }
        SeasonsInDateRange(front, start, end) + SeasonsInDateRange(back, start, end);
      }
    }
  }

  /** The four exclusions are exactly the seasons whose months miss first..last,
      both spans possibly wrapping past December. */
  lemma ExcludedIffDisjoint(s: Season, first: int, last: int)
    requires ValidMonths(s) && 1 <= first <= 12 && 1 <= last <= 12
    ensures ExcludedByQuery(s, first, last) <==> !SpansOverlap(s, first, last)
  {
    if !ExcludedByQuery(s, first, last) {
      var m: int;
      if first <= last {
        if s.startMonth <= s.endMonth {
          m := if s.startMonth < first then first else s.startMonth;
        } else if s.startMonth <= last {
          m := if s.startMonth < first then first else s.startMonth;
        } else {
          m := first;
        }
      } else if s.startMonth <= s.endMonth {
        m := if s.startMonth <= last then s.startMonth else s.endMonth;
      } else {
        m := 12;
      }
      assert InMonthSpan(s.startMonth, s.endMonth, m) && InMonthSpan(first, last, m);
    }
  }

  /** A season is returned iff its months meet the months of the range. */
  lemma SeasonsInDateRangeSpec(seasons: seq<Season>, start: Date, end: Date, s: Season)
    requires ValidMonths(s) && s in seasons
    ensures s in SeasonsInDateRange(seasons, start, end) <==> SpansOverlap(s, start.month, end.month)
  {
    ExcludedIffDisjoint(s, start.month, end.month);
  }

  /** For a range inside one month, a season is returned iff it covers that month. */
  lemma SeasonsInOneMonth(seasons: seq<Season>, start: Date, end: Date, s: Season)
    requires ValidMonths(s) && s in seasons && start.month == end.month
    ensures s in SeasonsInDateRange(seasons, start, end) <==> InMonthSpan(s.startMonth, s.endMonth, start.month)
  {
    ExcludedIffDisjoint(s, start.month, end.month);
  }

  /** .filter(season_is_peak=True).first() */
  function FirstPeak(matches: seq<Season>): (r: Option<Season>)
    ensures r.Some? ==> r.value in matches && r.value.isPeak
    ensures r.Some? ==> exists i :: 0 <= i < |matches| && matches[i] == r.value
                                    && forall j :: 0 <= j < i ==> !matches[j].isPeak
    ensures r.None? <==> forall s :: s in matches ==> !s.isPeak
  {
    if matches == [] then None
    else if matches[0].isPeak then Some(matches[0])
    else FirstPeak(matches[1..])
  }

  /** The season of a month chunk: the only match if there is exactly one,
      otherwise the first peak match; None (where the source then fails on
      None) when there is no match, or several and none of them peak. With at
      most one peak among several matches, that peak is the one chosen. */
  function EffectiveSeason(matches: seq<Season>): (r: Option<Season>)
    ensures |matches| == 1 ==> r == Some(matches[0])
    ensures |matches| != 1 && r.Some? ==> r.value in matches && r.value.isPeak
    ensures |matches| != 1 && r.Some? ==> exists i :: 0 <= i < |matches| && matches[i] == r.value
                                                      && forall j :: 0 <= j < i ==> !matches[j].isPeak
    ensures r.None? <==> |matches| != 1 && forall s :: s in matches ==> !s.isPeak
    ensures |matches| != 1 && (forall s, t :: s in matches && t in matches && s.isPeak && t.isPeak ==> s == t)
            ==> forall s :: s in matches && s.isPeak ==> r == Some(s)
  {
    if |matches| == 1 then Some(matches[0]) else FirstPeak(matches)
  }

  /** Matches without a peak season before the rest do not change the first
      peak. */
  lemma {:induction false} FirstPeakSkip(front: seq<Season>, back: seq<Season>)
    requires forall s :: s in front ==> !s.isPeak
    ensures FirstPeak(front + back) == FirstPeak(back)
  {
    if front == [] {
      assert front + back == back;
    } else {
      assert front[0] in front;
      assert (front + back)[1..] == front[1..] + back;
      FirstPeakSkip(front[1..], back);
    }
  }

  /** The season covers the month. */
  predicate Covers(s: Season, month: int) {
    InMonthSpan(s.startMonth, s.endMonth, month)
  }

  /** For a one-month chunk over valid seasons the query keeps exactly the
      seasons covering the month. */
  lemma MatchesOfMonth(seasons: seq<Season>, start: Date, end: Date)
    requires start.month == end.month && 1 <= start.month <= 12
    requires forall s :: s in seasons ==> ValidMonths(s)
    ensures forall s :: s in SeasonsInDateRange(seasons, start, end) <==> s in seasons && Covers(s, start.month)
  {
    forall s | s in seasons
      ensures s in SeasonsInDateRange(seasons, start, end) <==> Covers(s, start.month)
    {
      SeasonsInOneMonth(seasons, start, end, s);
    }
  }

  /** When just one configured season covers the month, it governs the
      month, peak or not. */
  lemma EffectiveSeasonSoleCover(seasons: seq<Season>, start: Date, end: Date, i: nat)
    requires start.month == end.month && 1 <= start.month <= 12
    requires forall s :: s in seasons ==> ValidMonths(s)
    requires i < |seasons| && Covers(seasons[i], start.month)
    requires forall j :: 0 <= j < |seasons| && Covers(seasons[j], start.month) ==> j == i
    ensures EffectiveSeason(SeasonsInDateRange(seasons, start, end)) == Some(seasons[i])
  {
    forall j | 0 <= j < |seasons|
      ensures j != i <==> ExcludedByQuery(seasons[j], start.month, end.month)
    {
      ExcludedIffDisjoint(seasons[j], start.month, end.month);
    }
    SoleSeasonInDateRange(seasons, start, end, i);
  }

  /** No season the query keeps from before index k is peak when no
      covering season before k is. */
  lemma NoPeakBefore(seasons: seq<Season>, start: Date, end: Date, k: nat)
    requires start.month == end.month && 1 <= start.month <= 12
    requires forall s :: s in seasons ==> ValidMonths(s)
    requires k <= |seasons|
    requires forall l :: 0 <= l < k && Covers(seasons[l], start.month) ==> !seasons[l].isPeak
    ensures forall s :: s in SeasonsInDateRange(seasons[..k], start, end) ==> !s.isPeak
  {
    forall s | s in SeasonsInDateRange(seasons[..k], start, end)
      ensures !s.isPeak
    {
      var l :| 0 <= l < k && seasons[..k][l] == s;
      assert seasons[l] in seasons;
      ExcludedIffDisjoint(s, start.month, end.month);
    }
  }

  /** The first peak match of a one-month chunk is the first covering peak
      season in configuration order. */
  lemma FirstCoveringPeak(seasons: seq<Season>, start: Date, end: Date, k: nat)
    requires start.month == end.month && 1 <= start.month <= 12
    requires forall s :: s in seasons ==> ValidMonths(s)
    requires k < |seasons| && Covers(seasons[k], start.month) && seasons[k].isPeak
    requires forall l :: 0 <= l < k && Covers(seasons[l], start.month) ==> !seasons[l].isPeak
    ensures FirstPeak(SeasonsInDateRange(seasons, start, end)) == Some(seasons[k])
  {
    var first, rest := seasons[k], seasons[k + 1..];
    var before := SeasonsInDateRange(seasons[..k], start, end);
    calc {
      FirstPeak(SeasonsInDateRange(seasons, start, end));
    == { assert seasons[k..] == [first] + rest;
         assert seasons == seasons[..k] + seasons[k..]; }
      FirstPeak(SeasonsInDateRange(seasons[..k] + ([first] + rest), start, end));
    == { SeasonsInDateRangeAppend(seasons[..k], [first] + rest, start, end); }
      FirstPeak(before + SeasonsInDateRange([first] + rest, start, end));
    == { NoPeakBefore(seasons, start, end, k);
         FirstPeakSkip(before, SeasonsInDateRange([first] + rest, start, end)); }
      FirstPeak(SeasonsInDateRange([first] + rest, start, end));
    == { assert first in seasons;
         ExcludedIffDisjoint(first, start.month, end.month);
         SeasonsInDateRangeCons(first, rest, start, end); }
      FirstPeak([first] + SeasonsInDateRange(rest, start, end));
    == { assert ([first] + SeasonsInDateRange(rest, start, end))[0] == first; }
      Some(first);
    }
  }

  /** When two configured seasons cover the month, the governing season is
      the first covering peak season in configuration order (so the unique
      one when there is just one); there is none exactly when no covering
      season is peak. */
  lemma EffectiveSeasonSeveralCover(seasons: seq<Season>, start: Date, end: Date, i: nat, j: nat)
    requires start.month == end.month && 1 <= start.month <= 12
    requires forall s :: s in seasons ==> ValidMonths(s)
    requires i < j < |seasons| && Covers(seasons[i], start.month) && Covers(seasons[j], start.month)
    ensures var r := EffectiveSeason(SeasonsInDateRange(seasons, start, end));
            r.Some? ==> r.value in seasons && r.value.isPeak && Covers(r.value, start.month)
    ensures EffectiveSeason(SeasonsInDateRange(seasons, start, end)).None?
            <==> forall s :: s in seasons && Covers(s, start.month) ==> !s.isPeak
    ensures forall s :: s in seasons && s.isPeak && Covers(s, start.month)
                        && (forall t :: t in seasons && t.isPeak && Covers(t, start.month) ==> t == s)
                        ==> EffectiveSeason(SeasonsInDateRange(seasons, start, end)) == Some(s)
    ensures forall k :: 0 <= k < |seasons| && Covers(seasons[k], start.month) && seasons[k].isPeak
                        && (forall l :: 0 <= l < k && Covers(seasons[l], start.month) ==> !seasons[l].isPeak)
                        ==> EffectiveSeason(SeasonsInDateRange(seasons, start, end)) == Some(seasons[k])
  {
    MatchesOfMonth(seasons, start, end);
    forall k | 0 <= k < |seasons| && Covers(seasons[k], start.month) && seasons[k].isPeak
               && (forall l :: 0 <= l < k && Covers(seasons[l], start.month) ==> !seasons[l].isPeak)
      ensures FirstPeak(SeasonsInDateRange(seasons, start, end)) == Some(seasons[k])
    {
      FirstCoveringPeak(seasons, start, end, k);
    }
    ExcludedIffDisjoint(seasons[i], start.month, end.month);
    ExcludedIffDisjoint(seasons[j], start.month, end.month);
    TwoSeasonsInDateRange(seasons, start, end, i, j);
  }

  /** When no configured season covers the month, no season governs it. */
  lemma EffectiveSeasonNoCover(seasons: seq<Season>, start: Date, end: Date)
    requires start.month == end.month && 1 <= start.month <= 12
    requires forall s :: s in seasons ==> ValidMonths(s)
    requires forall s :: s in seasons ==> !Covers(s, start.month)
    ensures EffectiveSeason(SeasonsInDateRange(seasons, start, end)) == None
  {
    MatchesOfMonth(seasons, start, end);
  }
}
