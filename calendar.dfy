/**
 * Calendar dates in New York and the three textual forms the booking code
 * reads and writes: ISO `yyyy-MM-dd` (optionally followed by a `T` time
 * part), `dd/MM/yyyy` and `MM/dd/yyyy`.
 */
module Calendar {
  import opened Base

  datatype Date = Date(year: int, month: int, day: int)

  /** A New York wall-clock instant: a date and the milliseconds since its midnight. */
  datatype WallClock = WallClock(date: Date, msOfDay: nat)

  const MsPerDay := 86400000

  predicate LeapYear(y: int)
  {
    y % 4 == 0 && (y % 100 != 0 || y % 400 == 0)
  }

  function DaysInMonth(y: int, m: int): int
  {
    if m == 2 then (if LeapYear(y) then 29 else 28)
    else if m == 4 || m == 6 || m == 9 || m == 11 then 30
    else 31
  }

  predicate ValidDate(d: Date)
  {
    1 <= d.month <= 12 && 1 <= d.day <= DaysInMonth(d.year, d.month)
  }

  predicate ValidClock(t: WallClock)
  {
    ValidDate(t.date) && t.msOfDay < MsPerDay
  }

  /** Strict calendar order. */
  predicate Before(a: Date, b: Date)
  {
    || a.year < b.year
    || (a.year == b.year && a.month < b.month)
    || (a.year == b.year && a.month == b.month && a.day < b.day)
  }

  /** `plus({ days: 1 })`: the next calendar day. */
  function NextDay(d: Date): (r: Date)
    requires ValidDate(d)
    ensures ValidDate(r) && Before(d, r)
    ensures forall x :: ValidDate(x) ==> !(Before(d, x) && Before(x, r))
  {
    if d.day < DaysInMonth(d.year, d.month) then d.(day := d.day + 1)
    else if d.month < 12 then Date(d.year, d.month + 1, 1)
    else Date(d.year + 1, 1, 1)
  }

  predicate IsDigit(c: char)
  {
    '0' <= c <= '9'
  }

  predicate AllDigits(s: string)
  {
    forall k :: 0 <= k < |s| ==> IsDigit(s[k])
  }

  function DigitChar(n: nat): (c: char)
    requires n < 10
    ensures IsDigit(c) && c as int - '0' as int == n
  {
    ('0' as int + n) as char
  }

  function Pow10(w: nat): (p: nat)
    ensures p >= 1
  {
    if w == 0 then 1 else 10 * Pow10(w - 1)
  }

  /** The value of a run of decimal digits. */
  function DigitsValue(s: string): (v: nat)
    requires AllDigits(s)
    ensures v < Pow10(|s|)
  {
    if s == [] then 0
    else DigitsValue(s[..|s| - 1]) * 10 + (s[|s| - 1] as int - '0' as int)
  }

  /** The last `w` decimal digits of `n`, zero-padded on the left. */
  function Pad(n: nat, w: nat): (s: string)
    ensures |s| == w && AllDigits(s)
  {
    if w == 0 then "" else Pad(n / 10, w - 1) + [DigitChar(n % 10)]
  }

  /** Reading back a padded number that fits gives the number. */
  lemma {:induction false} PadRoundTrip(n: nat, w: nat)
    requires n < Pow10(w)
    ensures DigitsValue(Pad(n, w)) == n
  {
    if w > 0 {
      var s := Pad(n, w);
      assert s[..|s| - 1] == Pad(n / 10, w - 1);
      PadRoundTrip(n / 10, w - 1);
    }
  }

  /** Reading digits and padding them back to the same width gives the digits. */
  lemma {:induction false} DigitsRoundTrip(s: string)
    requires AllDigits(s)
    ensures Pad(DigitsValue(s), |s|) == s
  {
    if s != [] {
      var init := s[..|s| - 1];
      var last := s[|s| - 1];
      assert AllDigits(init);
      DigitsRoundTrip(init);
      var d := last as int - '0' as int;
      assert 0 <= d < 10;
      var v := DigitsValue(init) * 10 + d;
      assert v / 10 == DigitsValue(init) && v % 10 == d;
      assert DigitChar(d) == last;
      assert Pad(v, |s|) == Pad(v / 10, |s| - 1) + [DigitChar(v % 10)];
      assert s == init + [last];
    }
  }

  function NumDigits(n: nat): (w: nat)
    ensures w >= 1 && n < Pow10(w)
  {
    if n < 10 then 1 else 1 + NumDigits(n / 10)
  }

  function Max(a: nat, b: nat): nat
  {
    if a >= b then a else b
  }

  /** Luxon's year field: four digits for 0..9999, else a sign and at least six digits. */
  function YearText(y: int): (s: string)
    ensures 0 <= y <= 9999 ==> |s| == 4 && AllDigits(s) && DigitsValue(s) == y
  {
    if 0 <= y <= 9999 then (PadRoundTrip(y, 4); Pad(y, 4))
    else if y > 9999 then "+" + Pad(y, Max(6, NumDigits(y)))
    else "-" + Pad(-y, Max(6, NumDigits(-y)))
  }

  /** `toISODate()`: `yyyy-MM-dd`. */
  function FormatISO(d: Date): (s: string)
    requires ValidDate(d)
    ensures |s| >= 10
    ensures 0 <= d.year <= 9999 ==> |s| == 10 && s[4] == '-' && s[7] == '-' && AllDigits(s[..4]) && AllDigits(s[5..7]) && AllDigits(s[8..])
  {
    YearText(d.year) + "-" + Pad(d.month, 2) + "-" + Pad(d.day, 2)
  }

  /** A date from digit runs of year, month and day, when it exists on the calendar. */
  function DateOf(year: string, month: string, day: string): (r: Option<Date>)
    requires AllDigits(year) && AllDigits(month) && AllDigits(day)
    ensures r.Some? ==> ValidDate(r.value)
  {
    var d := Date(DigitsValue(year), DigitsValue(month), DigitsValue(day));
    if ValidDate(d) then Some(d) else None
  }

  /** `fromISO` restricted to `yyyy-MM-dd`, alone or followed by `T` and a time part. */
  function ParseISO(s: string): (r: Option<Date>)
    ensures r.Some? ==> ValidDate(r.value) && 0 <= r.value.year <= 9999
  {
    if |s| >= 10 && s[4] == '-' && s[7] == '-' && (|s| == 10 || s[10] == 'T')
       && AllDigits(s[..4]) && AllDigits(s[5..7]) && AllDigits(s[8..10])
    then DateOf(s[..4], s[5..7], s[8..10])
    else None
  }

  /** `fromFormat(s, "dd/MM/yyyy")`. */
  function ParseDMY(s: string): (r: Option<Date>)
    ensures r.Some? ==> ValidDate(r.value)
  {
    if |s| == 10 && s[2] == '/' && s[5] == '/'
       && AllDigits(s[..2]) && AllDigits(s[3..5]) && AllDigits(s[6..])
    then DateOf(s[6..], s[3..5], s[..2])
    else None
  }

  /** `fromFormat(s, "MM/dd/yyyy")`. */
  function ParseMDY(s: string): (r: Option<Date>)
    ensures r.Some? ==> ValidDate(r.value)
  {
    if |s| == 10 && s[2] == '/' && s[5] == '/'
       && AllDigits(s[..2]) && AllDigits(s[3..5]) && AllDigits(s[6..])
    then DateOf(s[6..], s[..2], s[3..5])
    else None
  }

  /** Formatting a four-digit-year date as ISO and parsing it back gives the date. */
  lemma {:induction false} ISORoundTrip(d: Date)
    requires ValidDate(d) && 0 <= d.year <= 9999
    ensures ParseISO(FormatISO(d)) == Some(d)
  {
    var s := FormatISO(d);
    assert s[..4] == YearText(d.year);
    assert s[5..7] == Pad(d.month, 2);
    assert s[8..10] == Pad(d.day, 2);
    PadRoundTrip(d.month, 2);
    PadRoundTrip(d.day, 2);
  }

  /** A bare ISO date that parses is already in the form `toISODate()` writes. */
  lemma {:induction false} ISOCanonical(s: string)
    requires |s| == 10 && ParseISO(s).Some?
    ensures FormatISO(ParseISO(s).value) == s
  {
    var d := ParseISO(s).value;
    DigitsRoundTrip(s[..4]);
    DigitsRoundTrip(s[5..7]);
    DigitsRoundTrip(s[8..10]);
    assert s == s[..4] + "-" + s[5..7] + "-" + s[8..10];
  }

  /** `toFormat("dd/MM/yyyy")` of a four-digit-year date. */
  function DMYText(d: Date): (s: string)
    requires ValidDate(d) && 0 <= d.year <= 9999
    ensures |s| == 10 && s[2] == '/' && s[5] == '/'
  {
    Pad(d.day, 2) + "/" + Pad(d.month, 2) + "/" + Pad(d.year, 4)
  }

  /** `toFormat("MM/dd/yyyy")` of a four-digit-year date. */
  function MDYText(d: Date): (s: string)
    requires ValidDate(d) && 0 <= d.year <= 9999
    ensures |s| == 10 && s[2] == '/' && s[5] == '/'
  {
    Pad(d.month, 2) + "/" + Pad(d.day, 2) + "/" + Pad(d.year, 4)
  }

  /** The three fields of `a/b/cccc` read back to the numbers they were padded from. */
  lemma {:induction false} SlashedFields(a: nat, b: nat, c: nat)
    requires a < 100 && b < 100 && c < 10000
    ensures var s := Pad(a, 2) + "/" + Pad(b, 2) + "/" + Pad(c, 4);
            && s[..2] == Pad(a, 2) && s[3..5] == Pad(b, 2) && s[6..] == Pad(c, 4)
            && DigitsValue(s[..2]) == a && DigitsValue(s[3..5]) == b && DigitsValue(s[6..]) == c
  {
    assert Pow10(2) == 100 && Pow10(4) == 10000;
    PadRoundTrip(a, 2);
    PadRoundTrip(b, 2);
    PadRoundTrip(c, 4);
  }

  /** A four-digit-year date written day first is read back as that date. */
  lemma {:induction false} DMYRoundTrip(d: Date)
    requires ValidDate(d) && 0 <= d.year <= 9999
    ensures ParseDMY(DMYText(d)) == Some(d)
  {
    SlashedFields(d.day, d.month, d.year);
  }

  /** A four-digit-year date written month first is read back as that date. */
  lemma {:induction false} MDYRoundTrip(d: Date)
    requires ValidDate(d) && 0 <= d.year <= 9999
    ensures ParseMDY(MDYText(d)) == Some(d)
  {
    SlashedFields(d.month, d.day, d.year);
  }

  /** The digit runs of a slashed text read as numbers and padded back to their widths give the text. */
  lemma {:induction false} SlashedCanonical(s: string)
    requires |s| == 10 && s[2] == '/' && s[5] == '/'
    requires AllDigits(s[..2]) && AllDigits(s[3..5]) && AllDigits(s[6..])
    ensures DigitsValue(s[6..]) < 10000
    ensures s == Pad(DigitsValue(s[..2]), 2) + "/" + Pad(DigitsValue(s[3..5]), 2) + "/" + Pad(DigitsValue(s[6..]), 4)
  {
    assert Pow10(4) == 10000;
    DigitsRoundTrip(s[..2]);
    DigitsRoundTrip(s[3..5]);
    DigitsRoundTrip(s[6..]);
    assert s == s[..2] + "/" + s[3..5] + "/" + s[6..];
  }

  /** Whatever `dd/MM/yyyy` reads is exactly the day-first text of the date read. */
  lemma {:induction false} DMYCanonical(s: string)
    requires ParseDMY(s).Some?
    ensures 0 <= ParseDMY(s).value.year <= 9999 && DMYText(ParseDMY(s).value) == s
  {
    SlashedCanonical(s);
  }

  /** Whatever `MM/dd/yyyy` reads is exactly the month-first text of the date read. */
  lemma {:induction false} MDYCanonical(s: string)
    requires ParseMDY(s).Some?
    ensures 0 <= ParseMDY(s).value.year <= 9999 && MDYText(ParseMDY(s).value) == s
  {
    SlashedCanonical(s);
  }

  /** The ISO text of a date never reads as a slash-separated date. */
  lemma ISOIsNotSlashed(d: Date)
    requires ValidDate(d) && 0 <= d.year <= 9999
    ensures ParseDMY(FormatISO(d)) == None && ParseMDY(FormatISO(d)) == None
  {
    assert FormatISO(d)[2] == YearText(d.year)[2];
  }
}
