/**
 * The other `computeAssignedDate`, in `lib/time.ts`: one noon cutoff for
 * every booking, same-day or not.
 */
module CutoffTime {
  import opened Base
  import opened Calendar

  /** 12:00:00.000 as milliseconds since midnight. */
  const Cutoff := 12 * 3600000

  /** Tomorrow strictly after noon, today at or before it. */
  function AssignedDay(sameDay: bool, now: WallClock): (d: Date)
    requires ValidClock(now)
    ensures ValidDate(d)
    ensures now.msOfDay > Cutoff ==> d == NextDay(now.date)
    ensures now.msOfDay <= Cutoff ==> d == now.date
  {
    if now.msOfDay > Cutoff then NextDay(now.date) else now.date
  }

  /** `toISODate()` of the assigned day: ISO text that reads back as that day. */
  function ComputeAssignedDate(sameDay: bool, now: WallClock): (r: string)
    requires ValidClock(now)
    ensures 0 <= AssignedDay(sameDay, now).year <= 9999 ==> |r| == 10 && ParseISO(r) == Some(AssignedDay(sameDay, now))
  {
    var day := AssignedDay(sameDay, now);
    if 0 <= day.year <= 9999 then ISORoundTrip(day); FormatISO(day) else FormatISO(day)
  }

  /** The `sameDay` argument is never read. */
  lemma SameDayIsIgnored(now: WallClock)
    requires ValidClock(now)
    ensures ComputeAssignedDate(true, now) == ComputeAssignedDate(false, now)
  {
  }

  /** The day assigned is today or the next day, never an earlier one. */
  lemma NeverBeforeToday(sameDay: bool, now: WallClock)
    requires ValidClock(now)
    ensures !Before(AssignedDay(sameDay, now), now.date)
    ensures AssignedDay(sameDay, now) == now.date || AssignedDay(sameDay, now) == NextDay(now.date)
  {
  }
}
