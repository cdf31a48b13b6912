/** The member's overlapping bookings and the per-day room-occupancy grid of a
    month chunk (bookings_for_member_in_range and room_occupancy_array). */
module Occupancy {
  import opened Calendar
  import opened Records

  /** The booking holds its rooms on the night of day. */
  predicate Occupies(booking: BookingRecord, day: Date) {
    !Before(day, booking.startDate) && Before(day, booking.endDate)
  }

  /** The booking's stay meets the half-open range [start, end). */
  predicate OverlapsRange(booking: BookingRecord, start: Date, end: Date) {
    Before(booking.startDate, end) && Before(start, booking.endDate)
  }

  /** bookings_for_member_in_range: the member's bookings, whatever their
      status, minus those ending on or before start and those starting on or
      after end. The order of the member's bookings is kept. */
  function BookingsForMemberInRange(bookings: seq<BookingRecord>, member: ShareNumber, start: Date, end: Date)
    : (r: seq<BookingRecord>)
    ensures forall b :: b in r <==> b in bookings && b.member == member && OverlapsRange(b, start, end)
    ensures |r| <= |bookings|
  {
    if bookings == [] then []
    else
      var b := bookings[0];
      var rest := BookingsForMemberInRange(bookings[1..], member, start, end);
      if b.member == member && !(Ordinal(b.endDate) <= Ordinal(start)) && !(Ordinal(b.startDate) >= Ordinal(end))
      then [b] + rest
      else rest
  }

  /** Each of the member's bookings overlapping the range is kept as many
      times as it occurs, and no other booking is kept. */
  lemma {:induction false} BookingsForMemberInRangeCounts(bookings: seq<BookingRecord>, member: ShareNumber,
                                                          start: Date, end: Date)
    ensures forall b :: multiset(BookingsForMemberInRange(bookings, member, start, end))[b]
                        == if b.member == member && OverlapsRange(b, start, end) then multiset(bookings)[b] else 0
  {
    if bookings != [] {
      BookingsForMemberInRangeCounts(bookings[1..], member, start, end);
      assert bookings == [bookings[0]] + bookings[1..];
    }
  }

  /** The filter keeps order: filtering a concatenation concatenates the
      filtered parts. */
  lemma {:induction false} BookingsForMemberInRangeAppend(front: seq<BookingRecord>, back: seq<BookingRecord>,
                                                          member: ShareNumber, start: Date, end: Date)
    ensures BookingsForMemberInRange(front + back, member, start, end)
            == BookingsForMemberInRange(front, member, start, end) + BookingsForMemberInRange(back, member, start, end)
  {
    if front != [] {
      BookingsForMemberInRangeAppend(front[1..], back, member, start, end);
      assert (front + back)[0] == front[0] && (front + back)[1..] == front[1..] + back;
    } else {
      assert front + back == back;
    }
  }

  /** [x] * k in Python: k copies of x, and the empty list when k <= 0. */
  function Repeat(x: int, k: int): (r: seq<int>)
    ensures |r| == if k > 0 then k else 0
    ensures forall i :: 0 <= i < |r| ==> r[i] == x
    decreases k
  {
    if k <= 0 then [] else [x] + Repeat(x, k - 1)
  }

  function Max(a: int, b: int): int {
    if a < b then b else a
  }

  /** The grid row of one other booking: its room count on the days of
      [start, end) it covers, padded with zeros before and after. */
  function OccupancyRow(start: Date, end: Date, booking: BookingRecord): seq<int> {
    var length := Days(start, end);
    var startDelta := Max(0, Days(start, booking.startDate));
    var endDelta := Max(0, Days(booking.endDate, end));
    Repeat(0, startDelta) + Repeat(|booking.rooms|, length - (startDelta + endDelta)) + Repeat(0, endDelta)
  }

  /** room_occupancy_array: first the row of the proposed rooms, then one row
      per other booking, in order. */
  function OccupancyArray(start: Date, end: Date, roomCount: nat, others: seq<BookingRecord>): seq<seq<int>>
    decreases |others|
  {
    if others == [] then [Repeat(roomCount, Days(start, end))]
    else OccupancyArray(start, end, roomCount, others[..|others| - 1])
         + [OccupancyRow(start, end, others[|others| - 1])]
  }

  /** room_occupancy_array */
  method RoomOccupancyArray(start: Date, end: Date, rooms: set<RoomNumber>, others: seq<BookingRecord>)
    returns (grid: seq<seq<int>>)
    ensures grid == OccupancyArray(start, end, |rooms|, others)
  {
    var length := Days(start, end);
    grid := [Repeat(|rooms|, length)];
    for i := 0 to |others|
      invariant grid == OccupancyArray(start, end, |rooms|, others[..i])
    {
      var booking := others[i];
      var numRooms := |booking.rooms|;
      var startDelta := Max(0, Days(start, booking.startDate));
      var endDelta := Max(0, Days(booking.endDate, end));
      grid := grid + [Repeat(0, startDelta) + Repeat(numRooms, length - (startDelta + endDelta)) + Repeat(0, endDelta)];
      assert others[..i + 1][..i] == others[..i];
    }
    assert others[..|others|] == others;
  }

  // ---------------------------------------------------------------------------
  // What the grid holds

  /** A row padded with startDelta zeros before and endDelta zeros after. */
  lemma PaddedRowAt(n: int, length: int, startDelta: nat, endDelta: nat, k: int)
    requires 0 <= k < length
    ensures |Repeat(0, startDelta) + Repeat(n, length - (startDelta + endDelta)) + Repeat(0, endDelta)| >= length
    ensures (Repeat(0, startDelta) + Repeat(n, length - (startDelta + endDelta)) + Repeat(0, endDelta))[k]
            == if startDelta <= k < length - endDelta then n else 0
    ensures startDelta + endDelta <= length
            ==> |Repeat(0, startDelta) + Repeat(n, length - (startDelta + endDelta)) + Repeat(0, endDelta)| == length
  {
    var row := Repeat(0, startDelta) + Repeat(n, length - (startDelta + endDelta)) + Repeat(0, endDelta);
    if startDelta + endDelta <= length {
      assert |row| == length;
    }
  }

  /** Day k of [s, e) is inside the padded part exactly when bs <= s + k < be. */
  lemma PaddingMatchesStay(s: int, e: int, bs: int, be: int, k: int)
    requires 0 <= k < e - s
    ensures Max(0, bs - s) <= k < (e - s) - Max(0, e - be) <==> bs <= s + k < be
    ensures bs < e && s < be && bs <= be ==> Max(0, bs - s) + Max(0, e - be) <= e - s
  {
  }

  /** The row of a booking is never shorter than the range, and has exactly
      its length when the range is not reversed and the booking overlaps it
      and does not end before it starts. */
  lemma OccupancyRowLength(start: Date, end: Date, booking: BookingRecord)
    ensures |OccupancyRow(start, end, booking)| >= Days(start, end)
    ensures !Before(end, start) && OverlapsRange(booking, start, end)
            && !Before(booking.endDate, booking.startDate)
            ==> |OccupancyRow(start, end, booking)| == Days(start, end)
  {
    var s, e := Ordinal(start), Ordinal(end);
    var bs, be := Ordinal(booking.startDate), Ordinal(booking.endDate);
    if e - s > 0 {
      PaddedRowAt(|booking.rooms|, e - s, Max(0, bs - s), Max(0, e - be), 0);
      PaddingMatchesStay(s, e, bs, be, 0);
    }
  }

  /** Day k of a booking's row holds its room count exactly when the booking
      occupies that day, and 0 otherwise. */
  lemma OccupancyRowAt(start: Date, end: Date, booking: BookingRecord, k: int)
    requires 0 <= k < Days(start, end)
    ensures k < |OccupancyRow(start, end, booking)|
    ensures OccupancyRow(start, end, booking)[k]
            == if Occupies(booking, AddDays(start, k)) then |booking.rooms| else 0
  {
    var s, e := Ordinal(start), Ordinal(end);
    var bs, be := Ordinal(booking.startDate), Ordinal(booking.endDate);
    PaddedRowAt(|booking.rooms|, e - s, Max(0, bs - s), Max(0, e - be), k);
    PaddingMatchesStay(s, e, bs, be, k);
    AddDaysOrdinal(start, k);
  }

  /** The grid has one row for the proposed rooms and one per other booking, in order. */
  lemma {:induction false} OccupancyArrayRows(start: Date, end: Date, roomCount: nat, others: seq<BookingRecord>)
    ensures |OccupancyArray(start, end, roomCount, others)| == 1 + |others|
    ensures OccupancyArray(start, end, roomCount, others)[0] == Repeat(roomCount, Days(start, end))
    ensures forall i :: 0 <= i < |others| ==>
              OccupancyArray(start, end, roomCount, others)[i + 1] == OccupancyRow(start, end, others[i])
    decreases |others|
  {
    if others != [] {
      var init := others[..|others| - 1];
      var grid := OccupancyArray(start, end, roomCount, others);
      OccupancyArrayRows(start, end, roomCount, init);
      var prefix := OccupancyArray(start, end, roomCount, init);
      assert grid == prefix + [OccupancyRow(start, end, others[|others| - 1])];
      forall i | 0 <= i < |others|
        ensures grid[i + 1] == OccupancyRow(start, end, others[i])
      {
        if i < |init| {
          assert grid[i + 1] == prefix[i + 1] && init[i] == others[i];
        } else {
          assert grid[i + 1] == OccupancyRow(start, end, others[|others| - 1]);
        }
      }
    }
  }

  /** Every row of the grid reaches at least as far as its first row. */
  predicate Rectangular(grid: seq<seq<int>>) {
    |grid| >= 1 && forall row :: row in grid ==> |row| >= |grid[0]|
  }

  lemma OccupancyArrayRectangular(start: Date, end: Date, roomCount: nat, others: seq<BookingRecord>)
    ensures Rectangular(OccupancyArray(start, end, roomCount, others))
    ensures |OccupancyArray(start, end, roomCount, others)[0]| == Max(0, Days(start, end))
  {
    var grid := OccupancyArray(start, end, roomCount, others);
    OccupancyArrayRows(start, end, roomCount, others);
    forall row | row in grid
      ensures |row| >= |grid[0]|
    {
      var i :| 0 <= i < |grid| && grid[i] == row;
      if i > 0 {
        OccupancyRowLength(start, end, others[i - 1]);
      }
    }
  }

  /** sum([row[day] for row in grid]) */
  function ColumnSum(grid: seq<seq<int>>, day: nat): int
    requires forall row :: row in grid ==> day < |row|
  {
    if grid == [] then 0
    else ColumnSum(grid[..|grid| - 1], day) + grid[|grid| - 1][day]
  }

  /** Rooms the bookings hold on the night of day. */
  function RoomsBookedOn(bookings: seq<BookingRecord>, day: Date): nat {
    if bookings == [] then 0
    else RoomsBookedOn(bookings[..|bookings| - 1], day)
         + (if Occupies(bookings[|bookings| - 1], day) then |bookings[|bookings| - 1].rooms| else 0)
  }

  /** Day k of the range sums to the proposed room count plus the rooms the
      other bookings hold that night. */
  lemma {:induction false} ColumnSumOfOccupancy(start: Date, end: Date, roomCount: nat, others: seq<BookingRecord>, k: nat)
    requires k < Days(start, end)
    ensures forall row :: row in OccupancyArray(start, end, roomCount, others) ==> k < |row|
    ensures ColumnSum(OccupancyArray(start, end, roomCount, others), k)
            == roomCount + RoomsBookedOn(others, AddDays(start, k))
    decreases |others|
  {
    var grid := OccupancyArray(start, end, roomCount, others);
    OccupancyArrayRectangular(start, end, roomCount, others);
    if others != [] {
      var init := others[..|others| - 1];
      var last := others[|others| - 1];
      ColumnSumOfOccupancy(start, end, roomCount, init, k);
      OccupancyRowAt(start, end, last, k);
      assert grid[..|grid| - 1] == OccupancyArray(start, end, roomCount, init);
    }
  }
}
