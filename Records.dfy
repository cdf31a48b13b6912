/** The stored entities the booking core reads: the club configuration, its
    seasons, booking types and rooms, and the booking records of members. */
module Records {
  import opened Wrappers
  import opened Calendar

  type RoomNumber = int
  type ShareNumber = int

  /** A moment as the number of microseconds since an arbitrary epoch,
      the resolution of a Django DateTimeField. */
  type Timestamp = int

  datatype Room = Room(roomNumber: RoomNumber, description: string, maxOccupants: int)

  /** A season covers the months startMonth..endMonth, wrapping past December
      when startMonth > endMonth. A missing limit means "no limit". */
  datatype Season = Season(
    name: string,
    maxMonthlyRoomWeeks: Option<int>,
    maxMonthlySimultaneousRooms: Option<int>,
    startMonth: int,
    endMonth: int,
    isPeak: bool)

  datatype Priority = High | Medium | Low

  datatype BookingType = BookingType(
    name: string,
    rate: int,
    isFullWeekOnly: bool,
    bannedRooms: set<RoomNumber>,
    seasonsActive: seq<Season>,
    minimumRooms: int,
    priorityRank: Priority)

  datatype Config = Config(
    maxWeeksTillBooking: int,
    seasons: seq<Season>,
    rooms: seq<Room>,
    bookingTypes: seq<BookingType>)

  datatype Status = InProgress | Submitted | Finalised | Cancelled

  datatype PaymentStatus = Issued | Paid | Failed | Refunded

  /** One guest of other_attendees: field name to text (first, last, contact). */
  type Guest = map<string, string>

  /** A booking of rooms for the nights startDate .. endDate - 1 (the stored
      field names start_date and end_date; the booking-record template reads
      them as arrival_date and departure_date). Cost is in cents. */
  datatype BookingRecord = BookingRecord(
    member: ShareNumber,
    lastUpdated: Timestamp,
    startDate: Date,
    endDate: Date,
    rooms: set<RoomNumber>,
    memberInAttendance: int,
    otherAttendees: map<string, Guest>,
    cost: int,
    paymentStatus: PaymentStatus,
    status: Status)
}
