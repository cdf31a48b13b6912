/** The two booking forms: the date-range form's booking-horizon checks,
    anchored on the most recent Sunday, and the room-choosing form, which
    offers the rooms no live booking holds during the stay and runs the
    season quota check on the selection. Today's date is a parameter. */
module Forms {
  import opened Wrappers
  import opened Calendar
  import opened Records
  import opened Weeks
  import opened Occupancy
  import opened SeasonRules

  /** Sunday, in date.weekday() numbering. */
  const Sunday := 6

  // ---------------------------------------------------------------------------
  // BookingDateRangeForm.clean

  /** The form's verdict: accepted, or the ValidationError raised, with the
      week count its message names. */
  datatype DateRangeVerdict =
    | DatesAccepted
    | StartTooFarAhead(weeks: int)
    | EndNotAfterStart
    | EndTooFarAhead(weeks: int)

  /** BookingDateRangeForm.clean: with both dates present, the start may lie
      at most maxWeeks weeks after the last Sunday on or before today, the end
      must come after the start, and the end may lie at most one week more
      after that Sunday; the first failing check is raised. A missing date
      skips every check. */
  function DateRangeClean(startDate: Option<Date>, endDate: Option<Date>, today: Date, maxWeeks: int)
    : DateRangeVerdict
  {
    var lastSunday := LastWeekdayDate(today, Sunday);
    if startDate.None? || endDate.None? then DatesAccepted
    else if Before(AddDays(lastSunday, 7 * maxWeeks), startDate.value) then StartTooFarAhead(maxWeeks)
    else if !Before(startDate.value, endDate.value) then EndNotAfterStart
    else if Before(AddDays(lastSunday, 7 * (1 + maxWeeks)), endDate.value) then EndTooFarAhead(maxWeeks + 1)
    else DatesAccepted
  }

  /** The days from the last Sunday on or before today to d. */
  function DaysFromLastSunday(today: Date, d: Date): int {
    Days(LastWeekdayDate(today, Sunday), d)
  }

  /** Each verdict in terms of days counted from the last Sunday: the start
      check fires first, the order check only on a start within the horizon,
      the end check only on a well-ordered range, and the dates are accepted
      exactly when none of the three fires. */
  lemma DateRangeCleanVerdicts(start: Date, end: Date, today: Date, maxWeeks: int)
    ensures var v := DateRangeClean(Some(start), Some(end), today, maxWeeks);
            && (v == StartTooFarAhead(maxWeeks) <==> DaysFromLastSunday(today, start) > 7 * maxWeeks)
            && (v == EndNotAfterStart <==> DaysFromLastSunday(today, start) <= 7 * maxWeeks && !Before(start, end))
            && (v == EndTooFarAhead(maxWeeks + 1) <==>
                  DaysFromLastSunday(today, start) <= 7 * maxWeeks && Before(start, end)
                  && DaysFromLastSunday(today, end) > 7 * maxWeeks + 7)
            && (v == DatesAccepted <==>
                  DaysFromLastSunday(today, start) <= 7 * maxWeeks && Before(start, end)
                  && DaysFromLastSunday(today, end) <= 7 * maxWeeks + 7)
  {
    var lastSunday := LastWeekdayDate(today, Sunday);
    AddDaysOrdinal(lastSunday, 7 * maxWeeks);
    AddDaysOrdinal(lastSunday, 7 * (1 + maxWeeks));
  }

  /** A range missing either date is accepted without any check. */
  lemma DateRangeCleanMissingDate(startDate: Option<Date>, endDate: Option<Date>, today: Date, maxWeeks: int)
    requires startDate.None? || endDate.None?
    ensures DateRangeClean(startDate, endDate, today, maxWeeks) == DatesAccepted
  {
  }

  /** Seen from today: an accepted stay is non-empty, starts at most maxWeeks
      weeks and ends at most maxWeeks + 1 weeks after today; and a stay that
      ends no later than maxWeeks weeks less six days after today is accepted
      whatever weekday today is. */
  lemma DateRangeHorizonFromToday(start: Date, end: Date, today: Date, maxWeeks: int)
    ensures DateRangeClean(Some(start), Some(end), today, maxWeeks) == DatesAccepted
            ==> Before(start, end) && Days(today, start) <= 7 * maxWeeks && Days(today, end) <= 7 * maxWeeks + 7
    ensures Before(start, end) && Days(today, end) <= 7 * maxWeeks - 6
            ==> DateRangeClean(Some(start), Some(end), today, maxWeeks) == DatesAccepted
  {
    LastWeekdayDateSpec(today, Sunday);
    DateRangeCleanVerdicts(start, end, today, maxWeeks);
  }

  /** Two residues modulo 7 less than a week apart are equal. */
  lemma SameResidueWithinWeek(a: int, b: int)
    requires a % 7 == b % 7 && a <= b < a + 7
    ensures a == b
  {
    var qa, qb := a / 7, b / 7;
    assert a == 7 * qa + a % 7 && b == 7 * qb + b % 7;
  }

  /** The horizon moves a week at a time: on every day from a Sunday up to
      the following Saturday the form anchors on that same Sunday. */
  lemma SameAnchorAllWeek(today: Date, later: Date)
    requires 0 <= DaysFromLastSunday(today, later) < 7
    ensures LastWeekdayDate(later, Sunday) == LastWeekdayDate(today, Sunday)
  {
    var r, r2 := LastWeekdayDate(today, Sunday), LastWeekdayDate(later, Sunday);
    LastWeekdayDateSpec(today, Sunday);
    LastWeekdayDateSpec(later, Sunday);
    if Before(r2, r) {
      LastWeekdayDateLatest(later, Sunday, r);
      assert false;
    }
    SameResidueWithinWeek(Ordinal(r), Ordinal(r2));
    OrdinalInjective(r, r2);
  }

  // ---------------------------------------------------------------------------
  // BookingRoomChoosingForm

  /** A booking that still blocks its rooms for the stay [start, end): not
      cancelled, ending after today, and overlapping the stay. */
  predicate Blocks(booking: BookingRecord, today: Date, start: Date, end: Date) {
    booking.status != Cancelled && Before(today, booking.endDate) && OverlapsRange(booking, start, end)
  }

  /** The query: records with end_date > today and start_date < end, less the
      cancelled ones, those with start_date >= end and those with
      end_date <= start. */
  predicate SelectedByQuery(booking: BookingRecord, today: Date, start: Date, end: Date) {
    Ordinal(booking.endDate) > Ordinal(today) && Ordinal(booking.startDate) < Ordinal(end)
    && booking.status != Cancelled
    && !(Ordinal(booking.startDate) >= Ordinal(end))
    && !(Ordinal(booking.endDate) <= Ordinal(start))
  }

  /** booked_room_ids: every room of every selected booking (a booking with
      no rooms contributes none). */
  function BookedRooms(bookings: seq<BookingRecord>, today: Date, start: Date, end: Date): (r: set<RoomNumber>)
    ensures forall n :: n in r <==> exists b :: b in bookings && SelectedByQuery(b, today, start, end) && n in b.rooms
  {
    if bookings == [] then {}
    else
      var rest := BookedRooms(bookings[1..], today, start, end);
      if SelectedByQuery(bookings[0], today, start, end) then bookings[0].rooms + rest else rest
  }

  /** available_rooms: the configured rooms whose number is not booked, in
      configuration order. */
  function AvailableRooms(rooms: seq<Room>, booked: set<RoomNumber>): (r: seq<Room>)
    ensures forall room :: room in r <==> room in rooms && room.roomNumber !in booked
    ensures |r| <= |rooms|
  {
    if rooms == [] then []
    else
      var rest := AvailableRooms(rooms[1..], booked);
      if rooms[0].roomNumber in booked then rest else [rooms[0]] + rest
  }

  /** The rooms offered for the stay. */
  function OfferedRooms(rooms: seq<Room>, bookings: seq<BookingRecord>, today: Date, start: Date, end: Date)
    : seq<Room>
  {
    AvailableRooms(rooms, BookedRooms(bookings, today, start, end))
  }

  /** A room is offered exactly when it is configured and no booking that
      still blocks the stay holds it. */
  lemma OfferedRoomsSpec(rooms: seq<Room>, bookings: seq<BookingRecord>, today: Date, start: Date, end: Date,
                         room: Room)
    ensures room in OfferedRooms(rooms, bookings, today, start, end)
            <==> room in rooms && forall b :: b in bookings && Blocks(b, today, start, end) ==> room.roomNumber !in b.rooms
  {
    var booked := BookedRooms(bookings, today, start, end);
    if room in rooms && room.roomNumber in booked {
      var b :| b in bookings && SelectedByQuery(b, today, start, end) && room.roomNumber in b.rooms;
      assert Blocks(b, today, start, end);
    }
  }

  /** No live booking that holds an offered room overlaps the stay. */
  lemma OfferedRoomsFree(rooms: seq<Room>, bookings: seq<BookingRecord>, today: Date, start: Date, end: Date,
                         room: Room, b: BookingRecord)
    requires room in OfferedRooms(rooms, bookings, today, start, end)
    requires b in bookings && b.status != Cancelled && Before(today, b.endDate) && room.roomNumber in b.rooms
    ensures !OverlapsRange(b, start, end)
  {
    OfferedRoomsSpec(rooms, bookings, today, start, end, room);
  }

  /** The room form's verdict: no room selected, a missing member or date
      (where the source fails on the missing value), or the season quota
      check's outcome. */
  datatype RoomFormVerdict =
    | NoRoomSelected
    | IncompleteData
    | QuotaChecked(check: SeasonCheck)

  /** BookingRoomChoosingForm.clean on the cleaned values. */
  function RoomFormClean(conf: Config, bookings: seq<BookingRecord>, roomSelection: Option<set<RoomNumber>>,
                         member: Option<ShareNumber>, startDate: Option<Date>, endDate: Option<Date>)
    : RoomFormVerdict
  {
    if roomSelection.None? then NoRoomSelected
    else if member.None? || startDate.None? || endDate.None? then IncompleteData
    else QuotaChecked(SeasonRulesOutcome(conf, bookings, member.value, startDate.value, endDate.value, roomSelection.value))
  }

  /** "You must select at least one room" is raised exactly when there is no
      selection, whatever else the form holds, so it comes before any season
      check; a complete form with a selection is accepted exactly when every
      month of the stay keeps its season's quota. */
  lemma RoomFormCleanSpec(conf: Config, bookings: seq<BookingRecord>, roomSelection: Option<set<RoomNumber>>,
                          member: Option<ShareNumber>, startDate: Option<Date>, endDate: Option<Date>)
    ensures RoomFormClean(conf, bookings, roomSelection, member, startDate, endDate) == NoRoomSelected
            <==> roomSelection.None?
    ensures RoomFormClean(conf, bookings, roomSelection, member, startDate, endDate) == QuotaChecked(Passed)
            <==> roomSelection.Some? && member.Some? && startDate.Some? && endDate.Some?
                 && StayWithinQuota(conf, bookings, member.value, startDate.value, endDate.value, roomSelection.value)
  {
    if roomSelection.Some? && member.Some? && startDate.Some? && endDate.Some? {
      SeasonRulesPassIff(conf, bookings, member.value, startDate.value, endDate.value, roomSelection.value);
    }
  }

  /** The form state __init__ sets: the choices for room_selection (None
      until dates are given) and the initial start, end and member. */
  class BookingRoomChoosingForm {
    var roomChoices: Option<seq<Room>>
    var startInitial: Option<Date>
    var endInitial: Option<Date>
    var memberInitial: Option<ShareNumber>

    /** __init__: with both dates given, offer the rooms no blocking booking
        holds and fill in the initial values; otherwise leave the fields
        unset. */
    constructor(startDate: Option<Date>, endDate: Option<Date>, member: Option<ShareNumber>,
                conf: Config, bookings: seq<BookingRecord>, today: Date)
      ensures startDate.Some? && endDate.Some? ==>
                roomChoices == Some(OfferedRooms(conf.rooms, bookings, today, startDate.value, endDate.value))
                && startInitial == startDate && endInitial == endDate && memberInitial == member
      ensures startDate.None? || endDate.None? ==>
                roomChoices.None? && startInitial.None? && endInitial.None? && memberInitial.None?
    {
      roomChoices := None;
      startInitial := None;
      endInitial := None;
      memberInitial := None;
      if startDate.Some? && endDate.Some? {
        var start, end := startDate.value, endDate.value;
        var booked := BookedRooms(bookings, today, start, end);
        roomChoices := Some(AvailableRooms(conf.rooms, booked));
        startInitial := startDate;
        endInitial := endDate;
        memberInitial := member;
      }
    }

    /** clean: refuse a missing selection, then run check_season_rules. */
    method Clean(conf: Config, bookings: seq<BookingRecord>, roomSelection: Option<set<RoomNumber>>,
                 member: Option<ShareNumber>, startDate: Option<Date>, endDate: Option<Date>)
      returns (verdict: RoomFormVerdict)
      ensures verdict == RoomFormClean(conf, bookings, roomSelection, member, startDate, endDate)
    {
      if roomSelection.None? {
        return NoRoomSelected;
      }
      if member.None? || startDate.None? || endDate.None? {
        return IncompleteData;
      }
      var check := CheckSeasonRules(conf, bookings, member.value, startDate.value, endDate.value,
                                    roomSelection.value);
      verdict := QuotaChecked(check);
    }
  }
}
