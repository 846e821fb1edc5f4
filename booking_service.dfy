/**
 * `buildBookingRow`: a booking row from the request, with a fresh id, the
 * assigned date computed from the same-day flag and status `pending`.
 */
module BookingService {
  import opened Base
  import opened Calendar
  import AssignedDate

  datatype BookingInput = BookingInput(
    userId: string,
    zip: string,
    bins: Option<int>,
    plan: string,
    ampm: string,
    sameDay: bool,
    assignedDate: string)

  datatype BookingRow = BookingRow(
    bookingId: string,
    userId: string,
    zip: string,
    bins: Option<int>,
    plan: string,
    ampm: string,
    sameDay: bool,
    assignedDate: string,
    status: string,
    stripeCustomerId: Option<string>,
    stripeSubscriptionId: Option<string>)

  const CannotSchedule := Plain("Cannot schedule booking for the selected date.")

  /** `bookingId` is the fresh id the source draws with `uuid()`. */
  function BuildBookingRow(input: BookingInput, bookingId: string, now: WallClock): (r: Result<BookingRow, Error>)
    requires ValidClock(now)
    ensures r.Failure? <==> AssignedDate.ComputeAssignedDate(input.sameDay, input.assignedDate, now) == ""
    ensures r.Failure? ==> r.error == CannotSchedule
    ensures r.Success? ==>
              && r.value.bookingId == bookingId
              && r.value.assignedDate == AssignedDate.ComputeAssignedDate(input.sameDay, input.assignedDate, now)
              && r.value.status == "pending"
              && r.value.userId == input.userId && r.value.zip == input.zip && r.value.bins == input.bins
              && r.value.plan == input.plan && r.value.ampm == input.ampm && r.value.sameDay == input.sameDay
              && r.value.stripeCustomerId.None? && r.value.stripeSubscriptionId.None?
  {
    var computed := AssignedDate.ComputeAssignedDate(input.sameDay, input.assignedDate, now);
    if computed == "" then Failure(CannotSchedule)
    else Success(BookingRow(bookingId, input.userId, input.zip, input.bins, input.plan, input.ampm,
                            input.sameDay, computed, "pending", None, None))
  }

  /**
   * The guard fires exactly for a booking that is not same-day and names
   * the empty date: a same-day date is never empty, and normalising keeps
   * any other text non-empty.
   */
  lemma {:induction false} RejectedOnlyForEmptyDate(input: BookingInput, bookingId: string, now: WallClock)
    requires ValidClock(now)
    ensures BuildBookingRow(input, bookingId, now).Failure? <==> !input.sameDay && input.assignedDate == ""
  {
    AssignedDate.EmptyOnlyFromEmpty(input.assignedDate);
  }

  /** A same-day booking is always accepted, and for the day the cutoff rule gives. */
  lemma {:induction false} SameDayAlwaysAccepted(input: BookingInput, bookingId: string, now: WallClock)
    requires ValidClock(now) && input.sameDay
    ensures BuildBookingRow(input, bookingId, now).Success?
    ensures BuildBookingRow(input, bookingId, now).value.assignedDate == FormatISO(AssignedDate.SameDayDate(now))
  {
    RejectedOnlyForEmptyDate(input, bookingId, now);
  }
}
