/** The expire-bookings command: booking records left in progress for more
    than 30 minutes, or submitted and left for more than 24 hours, are
    cancelled. The clock reading now is a parameter. */
module Expiry {
  import opened Records

  /** timedelta(minutes=30) and timedelta(hours=24), in microseconds. */
  const InProgressTimeout: int := 30 * 60 * 1_000_000
  const SubmittedTimeout: int := 24 * 60 * 60 * 1_000_000

  /** The record has the status and was last updated strictly before limit:
      filter(status=status, last_updated__lt=limit). */
  predicate Selected(booking: BookingRecord, status: Status, limit: Timestamp) {
    booking.status == status && booking.lastUpdated < limit
  }

  /** The records the status query selects, in order. */
  function SelectedRecords(records: seq<BookingRecord>, status: Status, limit: Timestamp)
    : (r: seq<BookingRecord>)
    ensures forall b :: b in r <==> b in records && Selected(b, status, limit)
    ensures |r| <= |records|
  {
    if records == [] then []
    else
      var rest := SelectedRecords(records[1..], status, limit);
      if Selected(records[0], status, limit) then [records[0]] + rest else rest
  }

  /** Each selected record is listed as many times as it occurs, and no
      other record is listed, so the count the command reports is the number
      of selected records. */
  lemma {:induction false} SelectedRecordsCounts(records: seq<BookingRecord>, status: Status, limit: Timestamp)
    ensures forall b :: multiset(SelectedRecords(records, status, limit))[b]
                        == if Selected(b, status, limit) then multiset(records)[b] else 0
  {
    if records != [] {
      SelectedRecordsCounts(records[1..], status, limit);
      assert records == [records[0]] + records[1..];
    }
  }

  /** Selecting from a record followed by more records. */
  lemma SelectedRecordsCons(first: BookingRecord, rest: seq<BookingRecord>, status: Status, limit: Timestamp)
    ensures SelectedRecords([first] + rest, status, limit)
            == (if Selected(first, status, limit) then [first] else []) + SelectedRecords(rest, status, limit)
  {
    assert ([first] + rest)[1..] == rest;
  }

  /** The selection keeps order: selecting from a concatenation concatenates
      the selections. */
  lemma {:induction false} SelectedRecordsAppend(front: seq<BookingRecord>, back: seq<BookingRecord>,
                                                 status: Status, limit: Timestamp)
    ensures SelectedRecords(front + back, status, limit)
            == SelectedRecords(front, status, limit) + SelectedRecords(back, status, limit)
  {
    if front == [] {
      assert front + back == back;
    } else {
      var first, rest := front[0], front[1..];
      assert front == [first] + rest;
      assert front + back == [first] + (rest + back);
      SelectedRecordsAppend(rest, back, status, limit);
      SelectedRecordsCons(first, rest, status, limit);
      SelectedRecordsCons(first, rest + back, status, limit);
    }
  }

  /** update_status(CANCELLED) when the record has the status and is older
      than limit. */
  function CancelIfSelected(booking: BookingRecord, status: Status, limit: Timestamp): BookingRecord {
    if Selected(booking, status, limit) then booking.(status := Cancelled) else booking
  }

  /** A record is stale at now: in progress and last updated more than 30
      minutes ago, or submitted and last updated more than 24 hours ago. */
  predicate Stale(booking: BookingRecord, now: Timestamp) {
    Selected(booking, InProgress, now - InProgressTimeout) || Selected(booking, Submitted, now - SubmittedTimeout)
  }

  /** One record after the sweep. */
  function Expire(booking: BookingRecord, now: Timestamp): BookingRecord {
    if Stale(booking, now) then booking.(status := Cancelled) else booking
  }

  /** Every record after the sweep, position by position. */
  function Sweep(records: seq<BookingRecord>, now: Timestamp): (r: seq<BookingRecord>)
    ensures |r| == |records|
    ensures forall i :: 0 <= i < |records| ==> r[i] == Expire(records[i], now)
  {
    if records == [] then [] else [Expire(records[0], now)] + Sweep(records[1..], now)
  }

  /** The stored booking records the command works on. */
  class BookingTable {
    var records: seq<BookingRecord>

    constructor(initial: seq<BookingRecord>)
      ensures records == initial
    {
      records := initial;
    }

    /** Command.handle: select the expired in-progress and submitted
        records; on a dry run only report them, otherwise cancel the
        in-progress ones, then the submitted ones. The selections are
        returned; their lengths are the counts the command reports. */
    method Handle(now: Timestamp, dryRun: bool)
      returns (inProgressExpired: seq<BookingRecord>, submittedExpired: seq<BookingRecord>)
      modifies this
      ensures inProgressExpired == SelectedRecords(old(records), InProgress, now - InProgressTimeout)
      ensures submittedExpired == SelectedRecords(old(records), Submitted, now - SubmittedTimeout)
      ensures records == if dryRun then old(records) else Sweep(old(records), now)
    {
      var inProgressLimit := now - InProgressTimeout;
      var submittedLimit := now - SubmittedTimeout;
      inProgressExpired := SelectedRecords(records, InProgress, inProgressLimit);
      submittedExpired := SelectedRecords(records, Submitted, submittedLimit);
      if dryRun {
        return;
      }
      ghost var original := records;
      for i := 0 to |records|
        invariant |records| == |original|
        invariant forall j :: 0 <= j < i ==> records[j] == CancelIfSelected(original[j], InProgress, inProgressLimit)
        invariant forall j :: i <= j < |records| ==> records[j] == original[j]
      {
        if Selected(records[i], InProgress, inProgressLimit) {
          records := records[i := records[i].(status := Cancelled)];
        }
      }
      for i := 0 to |records|
        invariant |records| == |original|
        invariant forall j :: 0 <= j < i ==> records[j] == Expire(original[j], now)
        invariant forall j :: i <= j < |records| ==> records[j] == CancelIfSelected(original[j], InProgress, inProgressLimit)
      {
        if Selected(records[i], Submitted, submittedLimit) {
          records := records[i := records[i].(status := Cancelled)];
        }
      }
      SweepPointwise(original, records, now);
    }
  }

  /** A sequence that agrees with the sweep at every position is the sweep. */
  lemma SweepPointwise(records: seq<BookingRecord>, swept: seq<BookingRecord>, now: Timestamp)
    requires |swept| == |records|
    requires forall j :: 0 <= j < |records| ==> swept[j] == Expire(records[j], now)
    ensures swept == Sweep(records, now)
  {
  }

  /** What the sweep does to one record: it is cancelled exactly when it was
      cancelled already or is stale, and nothing but the status changes;
      finalised and cancelled records keep their status. */
  lemma ExpireSpec(booking: BookingRecord, now: Timestamp)
    ensures Expire(booking, now).status == Cancelled
            <==> booking.status == Cancelled
                 || (booking.status == InProgress && booking.lastUpdated < now - InProgressTimeout)
                 || (booking.status == Submitted && booking.lastUpdated < now - SubmittedTimeout)
    ensures Expire(booking, now).(status := booking.status) == booking
    ensures booking.status == Finalised || booking.status == Cancelled ==> Expire(booking, now) == booking
  {
  }

  /** The limits are strict: a record updated exactly 30 minutes (in
      progress) or 24 hours (submitted) before now is left alone. */
  lemma ExpireAtLimit(booking: BookingRecord, now: Timestamp)
    requires (booking.status == InProgress && booking.lastUpdated == now - InProgressTimeout)
             || (booking.status == Submitted && booking.lastUpdated == now - SubmittedTimeout)
    ensures Expire(booking, now) == booking
  {
  }

  /** Sweeping again at the same moment changes nothing more. */
  lemma {:induction false} SweepIdempotent(records: seq<BookingRecord>, now: Timestamp)
    ensures Sweep(Sweep(records, now), now) == Sweep(records, now)
  {
    var once := Sweep(records, now);
    var twice := Sweep(once, now);
    assert forall j :: 0 <= j < |records| ==> twice[j] == Expire(once[j], now) && once[j] == Expire(records[j], now);
  }

  /** A record the sweep cancels at one moment is cancelled by a sweep at any
      later moment. */
  lemma ExpireMonotone(booking: BookingRecord, now: Timestamp, later: Timestamp)
    requires now <= later && Expire(booking, now).status == Cancelled
    ensures Expire(booking, later).status == Cancelled
  {
  }
}
