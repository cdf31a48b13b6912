/** The season quota check (check_season_rules): month by month, the rooms the
    member would hold each night, the proposed rooms plus the member's other
    overlapping bookings, against the governing season's simultaneous-room and
    room-week limits. The first month that breaks a limit aborts the check. */
module SeasonRules {
  import opened Wrappers
  import opened Calendar
  import opened Records
  import opened MonthSplit
  import opened Occupancy
  import opened Seasons

  /** The ValidationError raised, with the data its message names. */
  datatype Violation =
    | SimultaneousRoomsExceeded(limit: int, season: string, date: Date)
    | RoomWeeksExceeded(limit: int, season: string, month: int)

  /** Passed, a quota violation, or the failure on a chunk whose month has no
      effective season (the source dereferences None there). */
  datatype SeasonCheck = Passed | Violated(violation: Violation) | NoEffectiveSeason(chunkStart: Date)

  /** sum(s) */
  function Sum(s: seq<int>): int {
    if s == [] then 0 else Sum(s[..|s| - 1]) + s[|s| - 1]
  }

  /** max(s) */
  function SeqMax(s: seq<int>): (m: int)
    requires |s| > 0
    ensures m in s
    ensures forall x :: x in s ==> x <= m
  {
    if |s| == 1 then s[0]
    else
      var m := SeqMax(s[..|s| - 1]);
      assert forall x :: x in s ==> x in s[..|s| - 1] || x == s[|s| - 1];
      if s[|s| - 1] > m then s[|s| - 1] else m
  }

  /** s.index(x) */
  function IndexOf(s: seq<int>, x: int): (i: nat)
    requires x in s
    ensures i < |s| && s[i] == x
    ensures forall j :: 0 <= j < i ==> s[j] != x
  {
    if s[0] == x then 0 else 1 + IndexOf(s[1..], x)
  }

  /** The room total of every day of the grid. */
  function DailyTotals(grid: seq<seq<int>>): (totals: seq<int>)
    requires Rectangular(grid)
    ensures |totals| == |grid[0]|
  {
    seq(|grid[0]|, k requires 0 <= k < |grid[0]| => ColumnSum(grid, k))
  }

  /** The totals of the first day + 1 days extend those of the first day days. */
  lemma DailyTotalsStep(grid: seq<seq<int>>, day: nat)
    requires Rectangular(grid) && day < |grid[0]|
    ensures forall row :: row in grid ==> day < |row|
    ensures DailyTotals(grid)[..day + 1] == DailyTotals(grid)[..day] + [ColumnSum(grid, day)]
  {
    var totals := DailyTotals(grid);
    assert totals[day] == ColumnSum(grid, day);
  }

  /** The day loop from day k on: after appending day k's total, the
      simultaneous-room test on the largest total so far (reporting the first
      day that reached it), then the room-week test on the sum so far. */
  function ScanDays(season: Season, start: Date, totals: seq<int>, k: nat): Option<Violation>
    requires k <= |totals|
    decreases |totals| - k
  {
    if k == |totals| then None
    else
      var sumRooms := totals[..k + 1];
      if season.maxMonthlySimultaneousRooms.Some? && SeqMax(sumRooms) > season.maxMonthlySimultaneousRooms.value then
        Some(SimultaneousRoomsExceeded(season.maxMonthlySimultaneousRooms.value, season.name,
                                       AddDays(start, IndexOf(sumRooms, SeqMax(sumRooms)))))
      else if season.maxMonthlyRoomWeeks.Some? && Sum(sumRooms) > 7 * season.maxMonthlyRoomWeeks.value then
        Some(RoomWeeksExceeded(season.maxMonthlyRoomWeeks.value, season.name, start.month))
      else ScanDays(season, start, totals, k + 1)
  }

  /** The verdict on a chunk's daily totals under the season governing it: a
      chunk of no days checks nothing, not even that a season governs it. */
  function DecideChunk(seasonInMonth: Option<Season>, start: Date, totals: seq<int>): SeasonCheck {
    if |totals| == 0 then Passed
    else if seasonInMonth.None? then NoEffectiveSeason(start)
    else
      match ScanDays(seasonInMonth.value, start, totals, 0)
      case None => Passed
      case Some(v) => Violated(v)
  }

  /** One month chunk: the member's bookings overlapping it, their grid with
      the proposed rooms, and the governing season's limits. */
  function CheckChunk(seasons: seq<Season>, bookings: seq<BookingRecord>, member: ShareNumber,
                      roomCount: nat, start: Date, end: Date): SeasonCheck
  {
    var overlapping := BookingsForMemberInRange(bookings, member, start, end);
    var grid := OccupancyArray(start, end, roomCount, overlapping);
    OccupancyArrayRectangular(start, end, roomCount, overlapping);
    DecideChunk(EffectiveSeason(SeasonsInDateRange(seasons, start, end)), start, DailyTotals(grid))
  }

  /** The chunks in order; the first chunk that does not pass decides. */
  function CheckChunks(seasons: seq<Season>, bookings: seq<BookingRecord>, member: ShareNumber,
                       roomCount: nat, chunks: seq<Chunk>): SeasonCheck
  {
    if chunks == [] then Passed
    else
      var r := CheckChunk(seasons, bookings, member, roomCount, chunks[0].0, chunks[0].1);
      if r != Passed then r else CheckChunks(seasons, bookings, member, roomCount, chunks[1..])
  }

  /** What check_season_rules decides for the stay startDate..endDate. */
  function SeasonRulesOutcome(conf: Config, bookings: seq<BookingRecord>, member: ShareNumber,
                              startDate: Date, endDate: Date, rooms: set<RoomNumber>): SeasonCheck
  {
    CheckChunks(conf.seasons, bookings, member, |rooms|, MonthRanges(startDate, endDate))
  }

  /** check_season_rules; bookings are all booking records, of which the
      member's are those whose member is the given share number. */
  method CheckSeasonRules(conf: Config, bookings: seq<BookingRecord>, member: ShareNumber,
                          startDate: Date, endDate: Date, rooms: set<RoomNumber>)
    returns (outcome: SeasonCheck)
    ensures outcome == SeasonRulesOutcome(conf, bookings, member, startDate, endDate, rooms)
  {
    var chunks := DateRangeToMonthRanges(startDate, endDate);
    for i := 0 to |chunks|
      invariant CheckChunks(conf.seasons, bookings, member, |rooms|, chunks)
                == CheckChunks(conf.seasons, bookings, member, |rooms|, chunks[i..])
    {
      var (start, end) := chunks[i];
      outcome := CheckMonth(conf, bookings, member, start, end, rooms);
      if outcome != Passed {
        return;
      }
      assert chunks[i..][1..] == chunks[i + 1..];
    }
    outcome := Passed;
  }

  /** The body of check_season_rules' loop for one month chunk: the occupancy
      grid and the season in the month, then the day loop. */
  method CheckMonth(conf: Config, bookings: seq<BookingRecord>, member: ShareNumber,
                    start: Date, end: Date, rooms: set<RoomNumber>)
    returns (outcome: SeasonCheck)
    ensures outcome == CheckChunk(conf.seasons, bookings, member, |rooms|, start, end)
  {
    var overlappingBookings := BookingsForMemberInRange(bookings, member, start, end);
    var occupancy := RoomOccupancyArray(start, end, rooms, overlappingBookings);
    var seasonInMonth := EffectiveSeason(SeasonsInDateRange(conf.seasons, start, end));
    OccupancyArrayRectangular(start, end, |rooms|, overlappingBookings);
    outcome := CheckDays(occupancy, seasonInMonth, start);
  }

  /** The day loop: append the day's room total to sum_rooms, fail on a month
      without a season, then test the largest total so far against the
      simultaneous-room limit and the sum so far against the room-week limit. */
  method CheckDays(occupancy: seq<seq<int>>, seasonInMonth: Option<Season>, start: Date)
    returns (outcome: SeasonCheck)
    requires Rectangular(occupancy)
    ensures outcome == DecideChunk(seasonInMonth, start, DailyTotals(occupancy))
  {
    ghost var totals := DailyTotals(occupancy);
    var sumRooms: seq<int> := [];
    var day := 0;
    while day < |occupancy[0]|
      invariant 0 <= day <= |occupancy[0]|
      invariant sumRooms == totals[..day]
      invariant day > 0 ==> seasonInMonth.Some?
                            && ScanDays(seasonInMonth.value, start, totals, 0)
                               == ScanDays(seasonInMonth.value, start, totals, day)
    {
      DailyTotalsStep(occupancy, day);
      sumRooms := sumRooms + [ColumnSum(occupancy, day)];
      if seasonInMonth.None? {
        return NoEffectiveSeason(start);
      }
      var season := seasonInMonth.value;
      if season.maxMonthlySimultaneousRooms.Some? {
        if SeqMax(sumRooms) > season.maxMonthlySimultaneousRooms.value {
          return Violated(SimultaneousRoomsExceeded(season.maxMonthlySimultaneousRooms.value, season.name,
                                                    AddDays(start, IndexOf(sumRooms, SeqMax(sumRooms)))));
        }
      }
      if season.maxMonthlyRoomWeeks.Some? {
        if Sum(sumRooms) > 7 * season.maxMonthlyRoomWeeks.value {
          return Violated(RoomWeeksExceeded(season.maxMonthlyRoomWeeks.value, season.name, start.month));
        }
      }
      day := day + 1;
    }
    outcome := Passed;
  }

  // ---------------------------------------------------------------------------
  // What the check decides

  /** The season's limits hold for these daily totals: no day above the
      simultaneous-room limit and at most 7 room-days per allowed room-week. */
  predicate WithinLimits(season: Season, totals: seq<int>) {
    && (season.maxMonthlySimultaneousRooms.Some? ==>
          forall k :: 0 <= k < |totals| ==> totals[k] <= season.maxMonthlySimultaneousRooms.value)
    && (season.maxMonthlyRoomWeeks.Some? ==> Sum(totals) <= 7 * season.maxMonthlyRoomWeeks.value)
  }

  lemma {:induction false} SumPrefix(s: seq<int>, k: nat)
    requires k <= |s|
    requires forall i :: 0 <= i < |s| ==> s[i] >= 0
    ensures Sum(s[..k]) <= Sum(s)
    decreases |s| - k
  {
    if k < |s| {
      SumPrefix(s, k + 1);
      assert s[..k + 1][..k] == s[..k];
    } else {
      assert s[..k] == s;
    }
  }

  lemma {:induction false} ScanFrom(season: Season, start: Date, totals: seq<int>, k: nat)
    requires k <= |totals| && |totals| > 0
    requires forall i :: 0 <= i < |totals| ==> totals[i] >= 0
    requires k > 0 ==> WithinLimits(season, totals[..k])
    ensures ScanDays(season, start, totals, k).None? <==> WithinLimits(season, totals)
    decreases |totals| - k
  {
    if k == |totals| {
      assert totals[..k] == totals;
    } else {
      var sumRooms := totals[..k + 1];
      if season.maxMonthlySimultaneousRooms.Some? && SeqMax(sumRooms) > season.maxMonthlySimultaneousRooms.value {
        var j :| 0 <= j < |sumRooms| && sumRooms[j] == SeqMax(sumRooms);
        assert totals[j] > season.maxMonthlySimultaneousRooms.value;
      } else if season.maxMonthlyRoomWeeks.Some? && Sum(sumRooms) > 7 * season.maxMonthlyRoomWeeks.value {
        SumPrefix(totals, k + 1);
      } else {
        if season.maxMonthlySimultaneousRooms.Some? {
          assert forall i :: 0 <= i < k + 1 ==> sumRooms[i] in sumRooms;
        }
        assert WithinLimits(season, sumRooms);
        ScanFrom(season, start, totals, k + 1);
      }
    }
  }

  /** Boundary included: a chunk with days passes the limits exactly when no
      day's total exceeds the simultaneous-room limit and the total room-days
      do not exceed seven times the room-week limit. A total equal to a limit
      passes; one more fails. */
  lemma ScanPassesIff(season: Season, start: Date, totals: seq<int>)
    requires |totals| > 0
    requires forall i :: 0 <= i < |totals| ==> totals[i] >= 0
    ensures ScanDays(season, start, totals, 0).None? <==> WithinLimits(season, totals)
  {
    ScanFrom(season, start, totals, 0);
  }

  lemma {:induction false} ScanFirstDayFrom(season: Season, start: Date, totals: seq<int>, k: nat)
    requires k <= |totals|
    requires season.maxMonthlySimultaneousRooms.Some? ==>
               forall j :: 0 <= j < k ==> totals[j] <= season.maxMonthlySimultaneousRooms.value
    ensures ScanDays(season, start, totals, k).Some? && ScanDays(season, start, totals, k).value.SimultaneousRoomsExceeded?
            ==> var v := ScanDays(season, start, totals, k).value;
                season.maxMonthlySimultaneousRooms == Some(v.limit) && v.season == season.name
                && exists i :: k <= i < |totals| && v.date == AddDays(start, i) && totals[i] > v.limit
                               && forall j :: 0 <= j < i ==> totals[j] <= v.limit
    decreases |totals| - k
  {
    if k < |totals| {
      var sumRooms := totals[..k + 1];
      if season.maxMonthlySimultaneousRooms.Some? && SeqMax(sumRooms) > season.maxMonthlySimultaneousRooms.value {
        var limit := season.maxMonthlySimultaneousRooms.value;
        var top := SeqMax(sumRooms);
        assert forall j :: 0 <= j < k ==> sumRooms[j] <= limit;
        assert top == totals[k];
        assert IndexOf(sumRooms, top) == k;
      } else if season.maxMonthlyRoomWeeks.Some? && Sum(sumRooms) > 7 * season.maxMonthlyRoomWeeks.value {
      } else {
        if season.maxMonthlySimultaneousRooms.Some? {
          assert sumRooms[k] in sumRooms;
        }
        ScanFirstDayFrom(season, start, totals, k + 1);
      }
    }
  }

  /** A simultaneous-room violation carries the season's limit and name and
      names the first day whose total exceeds the limit. */
  lemma ScanReportsFirstDayOver(season: Season, start: Date, totals: seq<int>)
    ensures ScanDays(season, start, totals, 0).Some? && ScanDays(season, start, totals, 0).value.SimultaneousRoomsExceeded?
            ==> var v := ScanDays(season, start, totals, 0).value;
                season.maxMonthlySimultaneousRooms == Some(v.limit) && v.season == season.name
                && exists i :: 0 <= i < |totals| && v.date == AddDays(start, i) && totals[i] > v.limit
                               && forall j :: 0 <= j < i ==> totals[j] <= v.limit
  {
    ScanFirstDayFrom(season, start, totals, 0);
  }

  /** sum(sum_rooms) once day i's total is appended. */
  function RunningSum(totals: seq<int>, i: nat): int
    requires i < |totals|
  {
    Sum(totals[..i + 1])
  }

  lemma {:induction false} ScanRoomWeeksFrom(season: Season, start: Date, totals: seq<int>, k: nat)
    requires k <= |totals|
    requires season.maxMonthlySimultaneousRooms.Some? ==>
               forall j :: 0 <= j < k ==> totals[j] <= season.maxMonthlySimultaneousRooms.value
    requires season.maxMonthlyRoomWeeks.Some? ==>
               forall j :: 0 <= j < k ==> RunningSum(totals, j) <= 7 * season.maxMonthlyRoomWeeks.value
    ensures ScanDays(season, start, totals, k).Some? && ScanDays(season, start, totals, k).value.RoomWeeksExceeded?
            ==> var v := ScanDays(season, start, totals, k).value;
                season.maxMonthlyRoomWeeks == Some(v.limit) && v.season == season.name && v.month == start.month
                && exists i :: k <= i < |totals| && RunningSum(totals, i) > 7 * v.limit
                               && (forall j :: 0 <= j < i ==> RunningSum(totals, j) <= 7 * v.limit)
                               && (season.maxMonthlySimultaneousRooms.Some? ==>
                                     forall j :: 0 <= j <= i ==> totals[j] <= season.maxMonthlySimultaneousRooms.value)
    decreases |totals| - k
  {
    if k < |totals| {
      var sumRooms := totals[..k + 1];
      if season.maxMonthlySimultaneousRooms.Some? && SeqMax(sumRooms) > season.maxMonthlySimultaneousRooms.value {
      } else {
        if season.maxMonthlySimultaneousRooms.Some? {
          assert sumRooms[k] in sumRooms;
        }
        assert RunningSum(totals, k) == Sum(sumRooms);
        if !(season.maxMonthlyRoomWeeks.Some? && Sum(sumRooms) > 7 * season.maxMonthlyRoomWeeks.value) {
          ScanRoomWeeksFrom(season, start, totals, k + 1);
        }
      }
    }
  }

  /** A room-week violation carries the season's room-week limit and name and
      the chunk's month, and is reported on the first day whose running sum of
      totals exceeds seven times the limit; no total up to that day breaks the
      simultaneous-room limit, which is tested first. */
  lemma ScanReportsRoomWeeks(season: Season, start: Date, totals: seq<int>)
    ensures ScanDays(season, start, totals, 0).Some? && ScanDays(season, start, totals, 0).value.RoomWeeksExceeded?
            ==> var v := ScanDays(season, start, totals, 0).value;
                season.maxMonthlyRoomWeeks == Some(v.limit) && v.season == season.name && v.month == start.month
                && exists i :: 0 <= i < |totals| && RunningSum(totals, i) > 7 * v.limit
                               && (forall j :: 0 <= j < i ==> RunningSum(totals, j) <= 7 * v.limit)
                               && (season.maxMonthlySimultaneousRooms.Some? ==>
                                     forall j :: 0 <= j <= i ==> totals[j] <= season.maxMonthlySimultaneousRooms.value)
  {
    ScanRoomWeeksFrom(season, start, totals, 0);
  }

  /** The verdicts on a chunk: NoEffectiveSeason exactly when the chunk has
      days and no season governs it, and then for the chunk's start; a quota
      violation only under the governing season, with the data the scan of
      its totals reports. */
  lemma DecideChunkVerdicts(seasonInMonth: Option<Season>, start: Date, totals: seq<int>)
    ensures DecideChunk(seasonInMonth, start, totals).NoEffectiveSeason?
            <==> |totals| > 0 && seasonInMonth.None?
    ensures DecideChunk(seasonInMonth, start, totals).NoEffectiveSeason?
            ==> DecideChunk(seasonInMonth, start, totals).chunkStart == start
    ensures DecideChunk(seasonInMonth, start, totals).Violated?
            ==> |totals| > 0 && seasonInMonth.Some?
                && ScanDays(seasonInMonth.value, start, totals, 0)
                   == Some(DecideChunk(seasonInMonth, start, totals).violation)
  {
  }

  /** A chunk fails for want of a season exactly when it has days and no
      season governs its month. */
  lemma CheckChunkNoSeason(seasons: seq<Season>, bookings: seq<BookingRecord>, member: ShareNumber,
                           roomCount: nat, start: Date, end: Date)
    ensures CheckChunk(seasons, bookings, member, roomCount, start, end).NoEffectiveSeason?
            <==> Days(start, end) > 0 && EffectiveSeason(SeasonsInDateRange(seasons, start, end)).None?
  {
    var overlapping := BookingsForMemberInRange(bookings, member, start, end);
    OccupancyArrayRectangular(start, end, roomCount, overlapping);
    DecideChunkVerdicts(EffectiveSeason(SeasonsInDateRange(seasons, start, end)), start,
                        DailyTotals(OccupancyArray(start, end, roomCount, overlapping)));
  }

  /** Rooms the member would hold on day k of the chunk: the proposed rooms
      plus those of the member's bookings overlapping the chunk. */
  function NightlyRooms(bookings: seq<BookingRecord>, member: ShareNumber, roomCount: nat,
                        start: Date, end: Date): (r: seq<int>)
    ensures |r| == Max(0, Days(start, end))
  {
    seq(Max(0, Days(start, end)),
        k requires 0 <= k < Max(0, Days(start, end)) =>
          roomCount + RoomsBookedOn(BookingsForMemberInRange(bookings, member, start, end), AddDays(start, k)))
  }

  /** The chunk quota rule: a chunk with days has an effective season and
      keeps its limits on the member's nightly rooms. */
  predicate ChunkWithinQuota(seasons: seq<Season>, bookings: seq<BookingRecord>, member: ShareNumber,
                             roomCount: nat, start: Date, end: Date)
  {
    var season := EffectiveSeason(SeasonsInDateRange(seasons, start, end));
    Days(start, end) <= 0
    || (season.Some? && WithinLimits(season.value, NightlyRooms(bookings, member, roomCount, start, end)))
  }

  /** A chunk passes exactly when it keeps the quota rule. */
  lemma CheckChunkSpec(seasons: seq<Season>, bookings: seq<BookingRecord>, member: ShareNumber,
                       roomCount: nat, start: Date, end: Date)
    ensures CheckChunk(seasons, bookings, member, roomCount, start, end) == Passed
            <==> ChunkWithinQuota(seasons, bookings, member, roomCount, start, end)
  {
    var overlapping := BookingsForMemberInRange(bookings, member, start, end);
    var grid := OccupancyArray(start, end, roomCount, overlapping);
    OccupancyArrayRectangular(start, end, roomCount, overlapping);
    var totals := DailyTotals(grid);
    var nightly := NightlyRooms(bookings, member, roomCount, start, end);
    forall k | 0 <= k < |totals|
      ensures totals[k] == nightly[k]
    {
      ColumnSumOfOccupancy(start, end, roomCount, overlapping, k);
    }
    assert totals == nightly;
    if |totals| > 0 {
      var season := EffectiveSeason(SeasonsInDateRange(seasons, start, end));
      if season.Some? {
        ScanPassesIff(season.value, start, totals);
      }
    }
  }

  /** Chunks passing after a passing first chunk pass one place further on. */
  lemma PassedPrefixShift(seasons: seq<Season>, bookings: seq<BookingRecord>, member: ShareNumber,
                          roomCount: nat, chunks: seq<Chunk>, i: nat)
    requires i < |chunks| - 1
    requires CheckChunk(seasons, bookings, member, roomCount, chunks[0].0, chunks[0].1) == Passed
    requires forall j :: 0 <= j < i ==>
               CheckChunk(seasons, bookings, member, roomCount, chunks[1..][j].0, chunks[1..][j].1) == Passed
    ensures chunks[1..][i] == chunks[i + 1]
    ensures forall j :: 0 <= j < i + 1 ==>
              CheckChunk(seasons, bookings, member, roomCount, chunks[j].0, chunks[j].1) == Passed
  {
    forall j | 0 < j < i + 1
      ensures chunks[j] == chunks[1..][j - 1]
    {
    }
  }

  /** A failing check reports the outcome of the first chunk that does not
      pass: every chunk before it passes, and none after it is looked at. */
  lemma {:induction false} CheckChunksFirstFailure(seasons: seq<Season>, bookings: seq<BookingRecord>,
                                                   member: ShareNumber, roomCount: nat, chunks: seq<Chunk>)
    ensures CheckChunks(seasons, bookings, member, roomCount, chunks) != Passed
            ==> exists i :: 0 <= i < |chunks|
                  && CheckChunks(seasons, bookings, member, roomCount, chunks)
                     == CheckChunk(seasons, bookings, member, roomCount, chunks[i].0, chunks[i].1)
                  && forall j :: 0 <= j < i ==>
                       CheckChunk(seasons, bookings, member, roomCount, chunks[j].0, chunks[j].1) == Passed
  {
    if chunks != [] {
      var first := CheckChunk(seasons, bookings, member, roomCount, chunks[0].0, chunks[0].1);
      var rest := CheckChunks(seasons, bookings, member, roomCount, chunks[1..]);
      if first == Passed && rest != Passed {
        CheckChunksFirstFailure(seasons, bookings, member, roomCount, chunks[1..]);
        var i :| 0 <= i < |chunks[1..]|
                 && rest == CheckChunk(seasons, bookings, member, roomCount, chunks[1..][i].0, chunks[1..][i].1)
                 && forall j :: 0 <= j < i ==>
                      CheckChunk(seasons, bookings, member, roomCount, chunks[1..][j].0, chunks[1..][j].1) == Passed;
        PassedPrefixShift(seasons, bookings, member, roomCount, chunks, i);
      }
    }
  }

  /** The chunks pass exactly when each of them keeps the quota rule. */
  lemma {:induction false} CheckChunksWithinQuota(seasons: seq<Season>, bookings: seq<BookingRecord>,
                                                  member: ShareNumber, roomCount: nat, chunks: seq<Chunk>)
    ensures CheckChunks(seasons, bookings, member, roomCount, chunks) == Passed
            <==> AllChunksWithinQuota(seasons, bookings, member, roomCount, chunks)
  {
    if chunks != [] {
      CheckChunkSpec(seasons, bookings, member, roomCount, chunks[0].0, chunks[0].1);
      CheckChunksWithinQuota(seasons, bookings, member, roomCount, chunks[1..]);
      forall i | 0 < i < |chunks|
        ensures chunks[i] == chunks[1..][i - 1]
      {
      }
    }
  }

  /** Every month chunk of the stay keeps the quota rule of the season
      governing that month. */
  predicate StayWithinQuota(conf: Config, bookings: seq<BookingRecord>, member: ShareNumber,
                            startDate: Date, endDate: Date, rooms: set<RoomNumber>)
  {
    AllChunksWithinQuota(conf.seasons, bookings, member, |rooms|, MonthRanges(startDate, endDate))
  }

  predicate AllChunksWithinQuota(seasons: seq<Season>, bookings: seq<BookingRecord>, member: ShareNumber,
                                 roomCount: nat, chunks: seq<Chunk>)
  {
    forall i :: 0 <= i < |chunks| ==> ChunkWithinQuota(seasons, bookings, member, roomCount, chunks[i].0, chunks[i].1)
  }

  /** The quota check accepts a stay exactly when every month chunk of it
      keeps the quota rule of the season governing that month. */
  lemma SeasonRulesPassIff(conf: Config, bookings: seq<BookingRecord>, member: ShareNumber,
                           startDate: Date, endDate: Date, rooms: set<RoomNumber>)
    ensures SeasonRulesOutcome(conf, bookings, member, startDate, endDate, rooms) == Passed
            <==> StayWithinQuota(conf, bookings, member, startDate, endDate, rooms)
  {
    CheckChunksWithinQuota(conf.seasons, bookings, member, |rooms|, MonthRanges(startDate, endDate));
  }
}
