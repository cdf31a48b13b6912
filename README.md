# Corroboree booking core in Dafny

A model of the booking rules of the Corroboree lodge-booking site, with
proofs about them. The club configures seasons with per-month quotas,
rooms, and the number of weeks ahead a stay may be booked. Members book
rooms for stays. The model covers the following:

- **Month chunks.** A stay is split into calendar-month chunks
  (`date_range_to_month_ranges`, `last_day_of_month`).
- **Occupancy grid.** For each chunk, a grid of the rooms the member holds
  each day (`room_occupancy_array`). It counts the proposed rooms and the
  member's other overlapping bookings (`bookings_for_member_in_range`).
- **Season lookup.** The seasons whose months meet a chunk
  (`seasons_in_date_range`). Month spans may wrap past December.
- **Quota check.** Each chunk is checked against the quotas of its
  effective season (`check_season_rules`): at most N rooms held on any day,
  and at most N room-weeks per month. The first month that breaks a quota
  decides.
- **Week arithmetic.** `last_weekday_date` and `dates_to_weeks`.
- **Date-range form.** The booking-horizon checks, anchored on the most
  recent Sunday.
- **Room-choosing form.** It offers the rooms that no live booking holds
  during the stay, and refuses an empty selection before running the quota
  check.
- **Booking-record template tag.** It drops guests whose every field is
  blank.
- **expire-bookings command.** It cancels bookings left in progress for
  more than 30 minutes, and submitted bookings left for more than 24 hours.

Dates are proleptic-Gregorian `(year, month, day)` values (`Calendar`).
`Ordinal` numbers days from 0001-01-01, and `Weekday` is the ordinal
modulo 7, Python's `date.weekday()` numbering. `AddDays` is adding a
`timedelta`. Dates compare by ordinal. Timestamps are microseconds.

`forms.py` holds its own copies of `check_season_rules`,
`date_range_to_month_ranges`, `last_day_of_month` and
`room_occupancy_array` (corroboree/booking/forms.py:133-211). They are the
same code as the `logic.py` versions, so each is modelled once.

A month chunk may have no effective season. That happens when no season
meets it, or when several do and none of them is peak. There the source
reads an attribute of `None` inside the day loop and fails. The model does
not make this a precondition. It gives the explicit outcome
`NoEffectiveSeason`, which is reached only for a chunk with at least one day.

## Model

| member | source | states |
|---|---|---|
| MonthSplit.LastDayOfMonthSpec | corroboree/booking/logic.py:69-71 | The result has the year and month of its argument and is that month's final day; the day after it is the 1st of the next month. |
| MonthSplit.DateRangeToMonthRanges | corroboree/booking/logic.py:51-66 | The loop returns exactly the chunk sequence `MonthRanges`: chunks from the current day to the last day of its month, while the next 1st is not after `end`, then `(current day, end)`. |
| MonthSplit.MonthRangesEnds | corroboree/booking/logic.py:51-66 | There is at least one chunk, even for `start > end`. The first chunk starts at `start` and the last ends at `end`. |
| MonthSplit.MonthRangesContiguous | corroboree/booking/logic.py:57-64 | Every non-final chunk ends on `last_day_of_month` of its start. The next chunk starts the day after, on the 1st of a month. |
| MonthSplit.MonthRangesInOneMonth | corroboree/booking/logic.py:57-65 | For `start <= end`, every chunk lies in one calendar month and its last day is not before its first. |
| MonthSplit.EndOnFirstGivesEmptyChunk | corroboree/booking/logic.py:61-65 | When `end` is the 1st of a month and not before `start`, the final chunk is the empty chunk `(end, end)`. |
| MonthSplit.MonthRangesLoseOneDayPerBoundary | corroboree/booking/logic.py:63-65 | Chunks include their last day but are measured as `(last - first).days`, so their lengths sum to the stay's length minus one per month boundary. |
| MonthSplit.WholeMonthChunkDays | corroboree/booking/logic.py:63-65 | A whole-month chunk measures one day less than its month has, so its grid has days-in-month − 1 columns. |
| Occupancy.BookingsForMemberInRange | corroboree/booking/logic.py:74-77 | A booking is kept iff it is the member's and overlaps `[start, end)`. Status is not filtered. |
| Occupancy.BookingsForMemberInRangeCounts | corroboree/booking/logic.py:74-77 | Each of the member's overlapping bookings is kept exactly as many times as it occurs, and no other booking is kept, so each is counted once in the grid. |
| Occupancy.BookingsForMemberInRangeAppend | corroboree/booking/logic.py:74-77 | The filter keeps order: filtering a concatenation gives the concatenation of the filtered parts. |
| Occupancy.RoomOccupancyArray | corroboree/booking/logic.py:80-93 | The loop builds the grid `OccupancyArray`: the proposed-rooms row, then one padded row per other booking, in order. |
| Occupancy.OccupancyArrayRows | corroboree/booking/logic.py:84-93 | The grid has 1 + \|others\| rows. Row 0 is the proposed room count on every day. Row i+1 is the row of booking i. |
| Occupancy.OccupancyRowLength | corroboree/booking/logic.py:88-92 | No row is shorter than the range. A row has exactly the range's length when the booking overlaps the range and is not reversed. |
| Occupancy.OccupancyRowAt | corroboree/booking/logic.py:88-92 | Day k of a booking's row holds its room count iff the booking occupies that night, and 0 otherwise. |
| Occupancy.OccupancyArrayRectangular | corroboree/booking/logic.py:84-93 | Every row reaches as far as row 0, whose length is `max(0, (end - start).days)`. |
| Occupancy.ColumnSumOfOccupancy | corroboree/booking/logic.py:27-29 | A day's column sum is the proposed room count plus the rooms the other bookings hold that night. |
| Seasons.SeasonsInDateRange | corroboree/booking/logic.py:111-126 | Returns the configured seasons the query does not exclude, and nothing else; `SeasonsInDateRangeCounts` states how many times each is returned. |
| Seasons.ExcludedIffDisjoint | corroboree/booking/logic.py:114-125 | The query's exclusions hold exactly for the seasons whose month span, wrapping or not, misses `start.month..end.month`, which may wrap too. |
| Seasons.SeasonsInDateRangeSpec | corroboree/booking/logic.py:111-126 | A season is returned iff its month set overlaps the months of the range. |
| Seasons.SeasonsInOneMonth | corroboree/booking/logic.py:111-126 | For a chunk inside one month, a season is returned iff it covers that month. |
| Seasons.SeasonsInDateRangeCounts | corroboree/booking/logic.py:111-126 | Each season the query keeps is returned exactly as many times as it is configured, and no other season is returned, so `count()` at line 23 counts the configured seasons meeting the range. |
| Seasons.NoSeasonInDateRange | corroboree/booking/logic.py:111-126 | When the query excludes every configured season, it returns no season. |
| Seasons.SoleSeasonInDateRange | corroboree/booking/logic.py:111-126 | When only the season at one configured index escapes the exclusions, the query returns exactly that one season. |
| Seasons.TwoSeasonsInDateRange | corroboree/booking/logic.py:111-126 | When the seasons at two different indices escape the exclusions, the query returns at least two seasons, even if they are configured alike. |
| Seasons.SeasonsInDateRangeAppend | corroboree/booking/logic.py:111-126 | The query keeps stored order: querying a concatenation gives the concatenation of the results. |
| Seasons.FirstPeak | corroboree/booking/logic.py:26 | `.filter(season_is_peak=True).first()` returns the first peak match: no match before it is peak. It returns None iff no match is peak. |
| Seasons.EffectiveSeason | corroboree/booking/logic.py:21-26 | The single match when there is exactly one; otherwise the first peak match, with no peak match before it (the peak when it is unique). None iff there is no single match and no peak. |
| Seasons.MatchesOfMonth | corroboree/booking/logic.py:111-126 | For a one-month chunk over valid seasons, the query returns exactly the configured seasons that cover the month. |
| Seasons.EffectiveSeasonSoleCover | corroboree/booking/logic.py:21-24 | When just one configured season covers the chunk's month, that season governs the month, peak or not. |
| Seasons.FirstPeakSkip | corroboree/booking/logic.py:26 | Matches with no peak season placed before the rest leave the first peak match unchanged. |
| Seasons.FirstCoveringPeak | corroboree/booking/logic.py:21-26 | For a one-month chunk, the first peak match is the first configured season, in stored order, that covers the month and is peak. |
| Seasons.EffectiveSeasonSeveralCover | corroboree/booking/logic.py:21-26 | When two configured seasons cover the month, the governing season is the first covering peak season in stored order, so the unique one when only one exists. There is none iff no covering season is peak. |
| Seasons.EffectiveSeasonNoCover | corroboree/booking/logic.py:21-26 | When no configured season covers the month, no season governs it. |
| SeasonRules.CheckSeasonRules | corroboree/booking/logic.py:16-48 | The chunk loop returns `SeasonRulesOutcome`: the outcome of the first chunk that does not pass, or Passed. |
| SeasonRules.CheckMonth | corroboree/booking/logic.py:19-48 | One loop body (overlapping bookings, grid, effective season, day loop) gives `CheckChunk` of the chunk. |
| SeasonRules.CheckDays | corroboree/booking/logic.py:27-48 | The day loop gives `DecideChunk`. It fails on a month with no season, and otherwise tests each prefix of the daily totals against the limits. |
| SeasonRules.ScanPassesIff | corroboree/booking/logic.py:28-48 | A chunk with days passes iff no day's total exceeds the simultaneous-room limit and total room-days ≤ 7 × the room-week limit (an unset limit is ignored). A total equal to a limit passes. |
| SeasonRules.ScanReportsFirstDayOver | corroboree/booking/logic.py:30-39 | A simultaneous-room error carries the season's limit and name, and names the first day whose total exceeds the limit. |
| SeasonRules.ScanReportsRoomWeeks | corroboree/booking/logic.py:40-47 | A room-week error carries the season's `max_monthly_room_weeks`, its name and the chunk's month. It is reported on the first day whose running sum exceeds 7 × the limit. No total up to that day breaks the simultaneous-room limit, which is tested first. |
| SeasonRules.DecideChunkVerdicts | corroboree/booking/logic.py:27-48 | `NoEffectiveSeason` is returned iff the chunk has days and no season governs it, and it names the chunk's start. A quota violation arises only under a governing season and is the scan's report. |
| SeasonRules.CheckChunkNoSeason | corroboree/booking/logic.py:19-30 | A chunk fails for want of a season iff it measures at least one day and no season governs its month. Quota violations stay distinct from this error. |
| SeasonRules.CheckChunkSpec | corroboree/booking/logic.py:17-48 | A chunk passes iff it is empty, or it has an effective season whose limits the member's nightly rooms keep. |
| SeasonRules.CheckChunksFirstFailure | corroboree/booking/logic.py:16-48 | A failing check reports the outcome of some chunk i, and every chunk before i passes. |
| SeasonRules.CheckChunksWithinQuota | corroboree/booking/logic.py:16-48 | A sequence of chunks passes iff every chunk keeps its season's quota. |
| SeasonRules.SeasonRulesPassIff | corroboree/booking/logic.py:16-48 | `check_season_rules` accepts a stay iff every month chunk of it keeps the quota rule of the season governing that month. |
| Weeks.TruncDiv7 | corroboree/booking/logic.py:107 | `int(x / 7)` truncates toward zero, for both signs of x. |
| Weeks.LastWeekdayDateSpec | corroboree/booking/forms.py:168-172 | The result falls on the weekday and lies 0 to 6 days before the date. A date already on that weekday is returned unchanged. |
| Weeks.LastWeekdayDateLatest | corroboree/booking/forms.py:168-172 | No date after the result, up to the given date, falls on the weekday. |
| Weeks.LastWeekdayDateIdempotent | corroboree/booking/forms.py:168-172 | Applying `last_weekday_date` to its own result returns that result. |
| Weeks.DatesToWeeksAligned | corroboree/booking/logic.py:96-108 | Leading and trailing days are in 0..6. `start + leading` falls on the week start day, and `end - trailing` is `last_weekday_date(end)`. |
| Weeks.DatesToWeeksFirstWeekStart | corroboree/booking/logic.py:100-103 | No day from `start` up to `start + leading` falls on the week start day. |
| Weeks.WholeWeeksBetween | corroboree/booking/logic.py:102-107 | From `from_week` to `till_week` is the range less leading and trailing days, a whole number of weeks, so the division is exact. |
| Weeks.DatesToWeeksSum | corroboree/booking/logic.py:96-108 | `leading + 7*weeks + trailing == (end - start).days` always holds, so weeks ≥ 0 iff the range is at least leading + trailing days long. |
| Forms.DateRangeCleanVerdicts | corroboree/booking/forms.py:39-63 | Counting days from the last Sunday, the first failing check in source order is reported: start beyond maxWeeks weeks, then end not after start, then end beyond maxWeeks + 1 weeks. The dates are accepted iff none fires. |
| Forms.DateRangeCleanMissingDate | corroboree/booking/forms.py:51 | With either date missing, no check runs and the form accepts. |
| Forms.DateRangeHorizonFromToday | corroboree/booking/forms.py:42-63 | An accepted stay is non-empty, starts ≤ 7·maxWeeks days after today and ends ≤ 7·maxWeeks + 7 days after. Any non-empty stay ending ≤ 7·maxWeeks − 6 days after today is accepted. |
| Forms.SameAnchorAllWeek | corroboree/booking/forms.py:43 | The horizon moves a week at a time: every day from a Sunday to the next Saturday anchors on that Sunday. |
| Forms.BookedRooms | corroboree/booking/forms.py:103-111 | A room number is booked iff some non-cancelled record ending after today and overlapping `[start, end)` holds it. |
| Forms.AvailableRooms | corroboree/booking/forms.py:112 | A room is available iff it is configured and its number is not booked. |
| Forms.OfferedRoomsSpec | corroboree/booking/forms.py:103-113 | A room is offered iff it is configured and no non-cancelled booking that ends after today and overlaps the stay holds it. |
| Forms.OfferedRoomsFree | corroboree/booking/forms.py:103-113 | A live, non-cancelled booking holding an offered room does not overlap the stay. |
| Forms.RoomFormCleanSpec | corroboree/booking/forms.py:118-130 | "You must select at least one room" is raised iff there is no selection, before any season check. A complete form with a selection passes iff the stay keeps every month's quota. |
| Forms.BookingRoomChoosingForm.constructor | corroboree/booking/forms.py:100-116 | With both dates given, the choices are the offered rooms and the initial start, end and member are set. Otherwise every field stays unset. |
| Forms.BookingRoomChoosingForm.Clean | corroboree/booking/forms.py:118-130 | Refuses a missing selection, then returns the quota check's outcome (`RoomFormClean`). |
| Attendees.CleanedAttendeesSpec | corroboree/booking/templatetags/booking_record_tags.py:30-37 | Every kept key is an original key whose guest is unchanged. A guest is kept iff some field is not blank, so a guest with no fields is dropped. |
| Attendees.CleanedAttendeesIdempotent | corroboree/booking/templatetags/booking_record_tags.py:30-37 | Cleaning the cleaned attendees changes nothing. |
| Attendees.IsEmptyGuest | corroboree/booking/templatetags/booking_record_tags.py:32-35 | The flag loop ends with `empty` set iff every field of the guest is the empty string. |
| Attendees.CleanAttendees | corroboree/booking/templatetags/booking_record_tags.py:30-37 | The key loop builds exactly `CleanedAttendees`. |
| Attendees.RenderBookingRecord | corroboree/booking/templatetags/booking_record_tags.py:21-48 | The context passes the booking's dates, rooms, attending member, cost and statuses through unchanged. It adds the cleaned attendees and the render mode. |
| Expiry.SelectedRecords | corroboree/booking/management/commands/expire-bookings.py:22-29 | A record is selected iff it has the status and was last updated strictly before the limit. |
| Expiry.SelectedRecordsCounts | corroboree/booking/management/commands/expire-bookings.py:22-29 | Each selected record is listed exactly as many times as it occurs and no other record is listed, so the reported count is the number of selected records. |
| Expiry.SelectedRecordsAppend | corroboree/booking/management/commands/expire-bookings.py:22-29 | The selection keeps order: selecting from a concatenation gives the concatenation of the selections. |
| Expiry.Sweep | corroboree/booking/management/commands/expire-bookings.py:39-42 | The sweep keeps the number of records and changes each one independently of the others. |
| Expiry.BookingTable.Handle | corroboree/booking/management/commands/expire-bookings.py:16-48 | Returns the two selections, made before any change. A dry run leaves every record as it was. Otherwise the records become `Sweep` of the old records. |
| Expiry.ExpireSpec | corroboree/booking/management/commands/expire-bookings.py:20-29 | A record ends cancelled iff it was cancelled already, or in progress and > 30 min old, or submitted and > 24 h old. Only the status changes. Finalised and cancelled records are untouched. |
| Expiry.ExpireAtLimit | corroboree/booking/management/commands/expire-bookings.py:24-28 | The comparisons are strict: a record updated exactly at its limit is untouched. |
| Expiry.SweepIdempotent | corroboree/booking/management/commands/expire-bookings.py:22-42 | A second sweep at the same moment changes nothing. |
| Expiry.ExpireMonotone | corroboree/booking/management/commands/expire-bookings.py:20-29 | A record the sweep cancels at one moment is cancelled by a sweep at any later moment. |

## Left out

- The wall clock: `datetime.date.today()` and `timezone.now()` are the parameters `today` and `now`.
- The `MinValueValidator(datetime.date.today())` on the start date (corroboree/booking/forms.py:19). It is evaluated once, when the module is imported, so it depends on process start-up time rather than on the request.
- Django field-level cleaning, meaning parsing, the `required` checks and the check that selected rooms are among the choices. The form `clean` methods take the already-cleaned values, with a missing value as `None`.
- The ORM and the database. Querysets are filters over sequences, in stored order. `Config.objects.get()` is a `Config` parameter. Saving is a change of the record in the table.
- `update_status` is not part of this model. The sweep sets the status only. It does not model `auto_now` refreshing `last_updated` on save.
- Output: the ValidationError message text, and the command's printed lists and counts. The verdicts carry the data the messages name, and `Handle` returns the two selections whose lengths are the printed counts.
- Forms.RoomFormClean: a missing member, start or end date gives `IncompleteData`. In the source that is an AttributeError or TypeError inside `check_season_rules`, not a ValidationError.
- Floating point: the room-week test `sum / 7 > max` is the exact integer test `sum > 7 * max`.
- The date range of Python's `date` (years 1 to 9999, with OverflowError beyond). Years are unbounded here.
- Booking-cart segmentation, booking-type selection and pricing (`calculate_booking_cart`, `get_booking_types_by_priority`). Only empty stubs exist. `BookingType` and `Priority` are modelled as data only.
- The order of offered rooms. It is configuration order here; the source's query has no ordering.
- Forms: `forms.py` imports `seasons_in_date_range` and `bookings_for_member_in_range` from `corroboree.config.models` and `corroboree.booking.models` (corroboree/booking/forms.py:9, :11). Neither module defines them, so `forms.py` as written fails when it is imported. The model chooses to have the forms use the `logic.py` definitions of both.
- Attendees.CleanedAttendees: `other_attendees` is a JSON field, but a guest here is a map from text to text. A non-string field value, such as a JSON null or a number, is not the empty string, so the source keeps such a guest. The model cannot represent that value. A guest that is not a JSON object makes the source's `.keys()` raise; the model cannot represent that either. `attendees_cleaned` also keeps the JSON key order the template renders, which a Dafny map does not capture.
