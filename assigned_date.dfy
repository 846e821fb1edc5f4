/**
 * `computeAssignedDate(sameDay, data)`: same-day bookings get today's date,
 * or tomorrow's after the 11:00 New York cutoff; other bookings get the
 * requested date normalised to `yyyy-MM-dd` by `toISODateNY`.
 */
module AssignedDate {
  import opened Base
  import opened Calendar

  /** 11:00:00.000 as milliseconds since midnight. */
  const Cutoff := 11 * 3600000

  /**
   * `toISODateNY`: ISO first, then `dd/MM/yyyy`, then `MM/dd/yyyy`; text no
   * format reads is returned as it came.
   */
  function ToISODateNY(s: string): (r: string)
    ensures ParseISO(s).Some? ==> r == FormatISO(ParseISO(s).value)
    ensures ParseISO(s).None? && ParseDMY(s).Some? ==> r == FormatISO(ParseDMY(s).value)
    ensures ParseISO(s).None? && ParseDMY(s).None? && ParseMDY(s).Some? ==> r == FormatISO(ParseMDY(s).value)
    ensures ParseISO(s).None? && ParseDMY(s).None? && ParseMDY(s).None? ==> r == s
  {
    match ParseISO(s)
    case Some(d) => FormatISO(d)
    case None =>
      match ParseDMY(s)
      case Some(d) => FormatISO(d)
      case None =>
        match ParseMDY(s)
        case Some(d) => FormatISO(d)
        case None => s
  }

  /** The date a same-day booking gets at `now`. */
  function SameDayDate(now: WallClock): (d: Date)
    requires ValidClock(now)
    ensures ValidDate(d)
    ensures now.msOfDay > Cutoff ==> d == NextDay(now.date)
    ensures now.msOfDay <= Cutoff ==> d == now.date
  {
    if now.msOfDay > Cutoff then NextDay(now.date) else now.date
  }

  function ComputeAssignedDate(sameDay: bool, data: string, now: WallClock): (r: string)
    requires ValidClock(now)
    ensures sameDay ==> r == FormatISO(SameDayDate(now))
    ensures !sameDay ==> r == ToISODateNY(data)
  {
    if sameDay then FormatISO(SameDayDate(now)) else ToISODateNY(data)
  }

  /** After the cutoff a same-day booking is for tomorrow; at or before it, for today. */
  lemma SameDayCutoff(data: string, now: WallClock)
    requires ValidClock(now)
    ensures now.msOfDay > Cutoff ==> ComputeAssignedDate(true, data, now) == FormatISO(NextDay(now.date))
    ensures now.msOfDay <= Cutoff ==> ComputeAssignedDate(true, data, now) == FormatISO(now.date)
  {
  }

  /** A booking that is not same-day does not depend on the clock. */
  lemma NotSameDayIgnoresClock(data: string, t1: WallClock, t2: WallClock)
    requires ValidClock(t1) && ValidClock(t2)
    ensures ComputeAssignedDate(false, data, t1) == ComputeAssignedDate(false, data, t2) == ToISODateNY(data)
  {
  }

  /** Slashed text never reads as ISO: its fifth character is a digit, not `-`. */
  lemma SlashedIsNotISO(a: nat, b: nat, c: nat)
    requires a < 100 && b < 100 && c < 10000
    ensures ParseISO(Pad(a, 2) + "/" + Pad(b, 2) + "/" + Pad(c, 4)).None?
  {
    var s := Pad(a, 2) + "/" + Pad(b, 2) + "/" + Pad(c, 4);
    assert s[4] == Pad(b, 2)[1];
  }

  /** Day-first text of any four-digit-year date normalises to that date. */
  lemma {:induction false} DayFirstTextIsRead(d: Date)
    requires ValidDate(d) && 0 <= d.year <= 9999
    ensures ToISODateNY(DMYText(d)) == FormatISO(d)
  {
    SlashedIsNotISO(d.day, d.month, d.year);
    DMYRoundTrip(d);
  }

  /**
   * ISO wins over `dd/MM/yyyy`, which wins over `MM/dd/yyyy`: month-first
   * text whose fields also make a day-first date is read day first, so
   * 03/04/2025 meant as March 4th becomes the 3rd of April.
   */
  lemma {:induction false} AmbiguousSlashedDateIsDayFirst(d: Date)
    requires ValidDate(d) && 0 <= d.year <= 9999
    requires ValidDate(Date(d.year, d.day, d.month))
    ensures ToISODateNY(MDYText(d)) == FormatISO(Date(d.year, d.day, d.month))
  {
    var swapped := Date(d.year, d.day, d.month);
    assert MDYText(d) == DMYText(swapped);
    DayFirstTextIsRead(swapped);
  }

  /** Month-first text whose day is above 12 cannot be read day first, so it is read month first. */
  lemma {:induction false} MonthFirstWhenDayFirstFails(d: Date)
    requires ValidDate(d) && 0 <= d.year <= 9999 && d.day > 12
    ensures ToISODateNY(MDYText(d)) == FormatISO(d)
  {
    SlashedIsNotISO(d.month, d.day, d.year);
    SlashedFields(d.month, d.day, d.year);
    assert ParseDMY(MDYText(d)).None?;
    MDYRoundTrip(d);
  }

  /** Normalising twice is normalising once. */
  lemma {:induction false} ToISODateNYIdempotent(s: string)
    ensures ToISODateNY(ToISODateNY(s)) == ToISODateNY(s)
  {
    var parsed := if ParseISO(s).Some? then ParseISO(s)
                  else if ParseDMY(s).Some? then ParseDMY(s)
                  else ParseMDY(s);
    if parsed.Some? {
      var d := parsed.value;
      assert 0 <= d.year <= 9999 by {
        if ParseISO(s).None? {
          assert |s| == 10 && AllDigits(s[6..]);
          assert d.year == DigitsValue(s[6..]) < Pow10(4);
        }
      }
      ISORoundTrip(d);
    }
  }

  /** The empty text is the only input that normalises to the empty text. */
  lemma {:induction false} EmptyOnlyFromEmpty(s: string)
    ensures ToISODateNY(s) == "" <==> s == ""
  {
  }
}
