/** The booking-record template tag (render_booking_record): the booking's
    fields passed to the template, with the other attendees cleaned of
    guests whose every field is blank. */
module Attendees {
  import opened Calendar
  import opened Records

  /** The template's render modes. */
  datatype RenderMode = InProgressMode | Summary | CostSummary | Full

  /** The context dictionary the tag returns. */
  datatype BookingRecordContext = BookingRecordContext(
    arrivalDate: Date,
    departureDate: Date,
    rooms: set<RoomNumber>,
    memberInAttendance: int,
    cost: int,
    status: Status,
    paymentStatus: PaymentStatus,
    attendees: map<string, Guest>,
    renderMode: RenderMode)

  /** Some field of the guest is not the empty string. */
  predicate HasContent(guest: Guest) {
    exists field :: field in guest && guest[field] != ""
  }

  /** The attendees worth showing: the guests with some non-blank field,
      under their original keys. */
  function CleanedAttendees(attendees: map<string, Guest>): map<string, Guest> {
    map key | key in attendees && HasContent(attendees[key]) :: attendees[key]
  }

  /** Every kept key is an original key with its guest unchanged; a guest is
      kept exactly when some field is not blank, so a guest with no fields at
      all is dropped. */
  lemma CleanedAttendeesSpec(attendees: map<string, Guest>, key: string)
    ensures key in CleanedAttendees(attendees) ==> key in attendees
                                                   && CleanedAttendees(attendees)[key] == attendees[key]
    ensures key in attendees ==> (key in CleanedAttendees(attendees) <==> HasContent(attendees[key]))
    ensures key in attendees && attendees[key] == map[] ==> key !in CleanedAttendees(attendees)
  {
  }

  /** Cleaning twice keeps what cleaning once kept. */
  lemma CleanedAttendeesIdempotent(attendees: map<string, Guest>)
    ensures CleanedAttendees(CleanedAttendees(attendees)) == CleanedAttendees(attendees)
  {
  }

  /** The inner loop: empty stays set while the fields seen so far are all
      the empty string and is cleared by the first non-blank one (the source
      line parses as (empty and True) if value == '' else False). */
  method IsEmptyGuest(guest: Guest) returns (empty: bool)
    ensures empty <==> !HasContent(guest)
  {
    empty := true;
    var unseen := guest.Keys;
    while unseen != {}
      invariant unseen <= guest.Keys
      invariant empty <==> forall field :: field in guest && field !in unseen ==> guest[field] == ""
      decreases unseen
    {
      var field :| field in unseen;
      empty := if guest[field] == "" then empty else false;
      unseen := unseen - {field};
    }
  }

  /** The outer loop: copy each guest that is not empty into the result. */
  method CleanAttendees(attendees: map<string, Guest>) returns (cleaned: map<string, Guest>)
    ensures cleaned == CleanedAttendees(attendees)
  {
    cleaned := map[];
    var unseen := attendees.Keys;
    while unseen != {}
      invariant unseen <= attendees.Keys
      invariant cleaned == map key | key in attendees && key !in unseen && HasContent(attendees[key])
                                   :: attendees[key]
      decreases unseen
    {
      var key :| key in unseen;
      var guest := attendees[key];
      var empty := IsEmptyGuest(guest);
      if !empty {
        cleaned := cleaned[key := guest];
      }
      unseen := unseen - {key};
    }
  }

  /** render_booking_record: the booking's dates, rooms, attending member,
      cost and statuses unchanged, the cleaned attendees and the render
      mode. */
  method RenderBookingRecord(booking: BookingRecord, renderMode: RenderMode)
    returns (context: BookingRecordContext)
    ensures context.arrivalDate == booking.startDate && context.departureDate == booking.endDate
    ensures context.rooms == booking.rooms && context.memberInAttendance == booking.memberInAttendance
    ensures context.cost == booking.cost && context.status == booking.status
    ensures context.paymentStatus == booking.paymentStatus && context.renderMode == renderMode
    ensures context.attendees == CleanedAttendees(booking.otherAttendees)
  {
    var attendeesCleaned := CleanAttendees(booking.otherAttendees);
    context := BookingRecordContext(booking.startDate, booking.endDate, booking.rooms,
                                    booking.memberInAttendance, booking.cost, booking.status,
                                    booking.paymentStatus, attendeesCleaned, renderMode);
  }
}
