/**
 * The booking repository: creating a booking, marking it scheduled after
 * checkout, and grouping the day's scheduled booking codes by the zip of
 * the booking's user.
 */
module Bookings {
  import opened Base
  import opened Calendar
  import BookingService

  datatype BookingStatus = Pending | Scheduled | Cancelled | Done

  datatype Booking = Booking(
    bookingCode: string,
    userId: string,
    bins: Option<int>,
    plan: string,
    ampm: string,
    sameDay: bool,
    assignedDate: Date,
    status: BookingStatus,
    stripeSubscriptionId: Option<string>)

  const ZipNotFound := Plain("Zip not found")

  /** Prisma's refusal of an `Invalid Date` value. */
  const InvalidDate := Plain("Invalid Date")

  const BookingNotFound := Error("Record to update not found.", Some("P2025"))

  const BookingCodeTaken := Error("Unique constraint failed", Some("P2002"))

  /** The store's refusal of a `userId` that names no user row. */
  const UserNotFound := Error("Foreign key constraint violated", Some("P2003"))

  /**
   * What `String(e)` gives for the TypeError of `groups[zip].push` when `zip`
   * names an inherited member: `groups[zip] || []` keeps that member, which
   * has no `push`.
   */
  const InheritedZipError := Plain("TypeError")

  /** The zip the grouping reads for a row: its user's zip, when the user exists and the zip is truthy. */
  function ZipOf(users: map<string, Option<string>>, b: Booking): Option<string>
  {
    if b.userId in users && users[b.userId].Some? && users[b.userId].value != "" then users[b.userId] else None
  }

  /** The rows the grouping reads: SCHEDULED bookings assigned to `day`, in table order. */
  function ScheduledOn(bookings: seq<Booking>, day: Date): (r: seq<Booking>)
    ensures forall b :: b in r <==> b in bookings && b.status == Scheduled && b.assignedDate == day
  {
    if bookings == [] then []
    else
      assert forall b :: b in bookings <==> b == bookings[0] || b in bookings[1..];
      var rest := ScheduledOn(bookings[1..], day);
      if bookings[0].status == Scheduled && bookings[0].assignedDate == day then [bookings[0]] + rest else rest
  }

  /** The error the grouping loop stops with at row `b`, if it stops there. */
  function RowError(users: map<string, Option<string>>, b: Booking): Option<Error>
  {
    if ZipOf(users, b).None? then Some(ZipNotFound)
    else if ZipOf(users, b).value in ObjectPrototypeKeys then Some(InheritedZipError)
    else None
  }

  /** Row `i` is the first row the grouping loop stops at. */
  ghost predicate StopsFirstAt(rows: seq<Booking>, users: map<string, Option<string>>, i: int)
  {
    && 0 <= i < |rows| && RowError(users, rows[i]).Some?
    && forall k :: 0 <= k < i ==> RowError(users, rows[k]).None?
  }

  /** A first stop in the tail of `rows` is one index later in `rows` when the head passes. */
  lemma {:induction false} StopsFirstAtShift(rows: seq<Booking>, users: map<string, Option<string>>, e: Option<Error>)
    requires |rows| > 0 && RowError(users, rows[0]).None?
    requires exists i :: StopsFirstAt(rows[1..], users, i) && e == RowError(users, rows[1..][i])
    ensures exists i :: StopsFirstAt(rows, users, i) && e == RowError(users, rows[i])
  {
    var i :| StopsFirstAt(rows[1..], users, i) && e == RowError(users, rows[1..][i]);
    forall k | 0 < k < i + 1 ensures RowError(users, rows[k]).None? {
      assert rows[k] == rows[1..][k - 1];
    }
    assert rows[1..][i] == rows[i + 1];
    assert StopsFirstAt(rows, users, i + 1);
  }

  /** The error of the first row the grouping loop stops at, or none when it passes every row. */
  function FirstRowError(rows: seq<Booking>, users: map<string, Option<string>>): (e: Option<Error>)
    ensures e.Some? <==> exists b :: b in rows && RowError(users, b).Some?
    ensures e.Some? ==> exists i :: StopsFirstAt(rows, users, i) && e == RowError(users, rows[i])
  {
    if rows == [] then None
    else
      assert forall b :: b in rows <==> b == rows[0] || b in rows[1..];
      var rest := FirstRowError(rows[1..], users);
      if RowError(users, rows[0]).Some? then
        assert StopsFirstAt(rows, users, 0);
        RowError(users, rows[0])
      else if rest.Some? then
        StopsFirstAtShift(rows, users, rest);
        rest
      else rest
  }

  /** The codes of the rows whose zip is `zip`, in row order. */
  function CodesIn(rows: seq<Booking>, users: map<string, Option<string>>, zip: string): (codes: seq<string>)
    ensures forall c :: c in codes <==> exists b :: b in rows && b.bookingCode == c && ZipOf(users, b) == Some(zip)
  {
    if rows == [] then []
    else
      assert forall b :: b in rows <==> b == rows[0] || b in rows[1..];
      var rest := CodesIn(rows[1..], users, zip);
      if ZipOf(users, rows[0]) == Some(zip) then [rows[0].bookingCode] + rest else rest
  }

  function ZipsOf(rows: seq<Booking>, users: map<string, Option<string>>): set<string>
  {
    set b | b in rows && ZipOf(users, b).Some? :: ZipOf(users, b).value
  }

  lemma {:induction false} CodesInAppend(rows: seq<Booking>, b: Booking, users: map<string, Option<string>>, zip: string)
    ensures CodesIn(rows + [b], users, zip) ==
            CodesIn(rows, users, zip) + (if ZipOf(users, b) == Some(zip) then [b.bookingCode] else [])
  {
    if rows == [] {
      assert [b][1..] == [];
    } else {
      assert (rows + [b])[1..] == rows[1..] + [b];
      CodesInAppend(rows[1..], b, users, zip);
    }
  }

  /** `groups` holds, for each zip seen in `rows`, exactly that zip's codes in row order. */
  ghost predicate GroupsOf(groups: map<string, seq<string>>, rows: seq<Booking>, users: map<string, Option<string>>)
  {
    && groups.Keys == ZipsOf(rows, users)
    && forall z :: z in groups ==> groups[z] == CodesIn(rows, users, z)
  }

  lemma {:induction false} NoCodesOutsideZips(rows: seq<Booking>, users: map<string, Option<string>>, z: string)
    requires z !in ZipsOf(rows, users)
    ensures CodesIn(rows, users, z) == []
  {
    if rows != [] {
      assert ZipsOf(rows[1..], users) <= ZipsOf(rows, users) by {
        forall y | y in ZipsOf(rows[1..], users) ensures y in ZipsOf(rows, users) {
          var b :| b in rows[1..] && ZipOf(users, b).Some? && ZipOf(users, b).value == y;
          assert b in rows;
        }
      }
      assert ZipOf(users, rows[0]) != Some(z) by {
        assert rows[0] in rows;
      }
      NoCodesOutsideZips(rows[1..], users, z);
    }
  }

  /** Pushing one more row's code onto its zip's list keeps `GroupsOf`. */
  lemma {:induction false} GroupStep(groups: map<string, seq<string>>, rows: seq<Booking>, b: Booking, users: map<string, Option<string>>)
    requires GroupsOf(groups, rows, users) && ZipOf(users, b).Some?
    ensures var z := ZipOf(users, b).value;
            GroupsOf(groups[z := (if z in groups then groups[z] else []) + [b.bookingCode]], rows + [b], users)
  {
    var z := ZipOf(users, b).value;
    var g := groups[z := (if z in groups then groups[z] else []) + [b.bookingCode]];
    assert ZipsOf(rows + [b], users) == ZipsOf(rows, users) + {z};
    forall y | y in g ensures g[y] == CodesIn(rows + [b], users, y) {
      CodesInAppend(rows, b, users, y);
      if y == z && z !in groups {
        NoCodesOutsideZips(rows, users, z);
      }
    }
  }

  /** A zip with a group has at least one code in it. */
  lemma {:induction false} GroupsAreNonEmpty(groups: map<string, seq<string>>, rows: seq<Booking>, users: map<string, Option<string>>, z: string)
    requires GroupsOf(groups, rows, users) && z in groups
    ensures |groups[z]| > 0
  {
    var b :| b in rows && ZipOf(users, b).Some? && ZipOf(users, b).value == z;
    assert b.bookingCode in CodesIn(rows, users, z);
  }

  /** A code is in a zip's group exactly when some row of that zip carries it. */
  lemma CodeLandsInItsZip(groups: map<string, seq<string>>, rows: seq<Booking>, users: map<string, Option<string>>, z: string, c: string)
    requires GroupsOf(groups, rows, users) && z in groups
    ensures c in groups[z] <==> exists b :: b in rows && b.bookingCode == c && ZipOf(users, b) == Some(z)
  {
  }

  /** `GroupStep` for the row at index `i` of `rows`. */
  lemma {:induction false} GroupStepAt(groups: map<string, seq<string>>, rows: seq<Booking>, i: nat, users: map<string, Option<string>>)
    requires i < |rows| && GroupsOf(groups, rows[..i], users) && ZipOf(users, rows[i]).Some?
    ensures var z := ZipOf(users, rows[i]).value;
            GroupsOf(groups[z := (if z in groups then groups[z] else []) + [rows[i].bookingCode]], rows[..i + 1], users)
  {
    assert rows[..i + 1] == rows[..i] + [rows[i]];
    GroupStep(groups, rows[..i], rows[i], users);
  }

  /**
   * The grouping loop over the rows read: it stops at the first row whose
   * user has no truthy zip, or whose zip names an inherited member of the
   * `groups` object literal.
   */
  method GroupRows(rows: seq<Booking>, users: map<string, Option<string>>) returns (r: Result<map<string, seq<string>>, Error>)
    ensures r.Failure? <==> FirstRowError(rows, users).Some?
    ensures r.Failure? ==> r.error == FirstRowError(rows, users).value
    ensures r.Success? ==> GroupsOf(r.value, rows, users)
  {
    var groups: map<string, seq<string>> := map[];
    for i := 0 to |rows|
      invariant FirstRowError(rows, users) == FirstRowError(rows[i..], users)
      invariant GroupsOf(groups, rows[..i], users)
    {
      assert rows[i..][0] == rows[i] && rows[i..][1..] == rows[i + 1..];
      var zip := ZipOf(users, rows[i]);
      if zip.None? {
        return Failure(ZipNotFound);
      }
      if zip.value in ObjectPrototypeKeys {
        return Failure(InheritedZipError);
      }
      GroupStepAt(groups, rows, i, users);
      var list := if zip.value in groups then groups[zip.value] else [];
      groups := groups[zip.value := list + [rows[i].bookingCode]];
    }
    assert rows[..|rows|] == rows && rows[|rows|..] == [];
    return Success(groups);
  }

  class BookingTable {
    var bookings: seq<Booking>
    /** Each user's zip, as stored on the user row. */
    var users: map<string, Option<string>>

    ghost predicate Valid()
      reads this
    {
      forall i, j :: 0 <= i < j < |bookings| ==> bookings[i].bookingCode != bookings[j].bookingCode
    }

    constructor (users: map<string, Option<string>>)
      ensures Valid() && bookings == [] && this.users == users
    {
      bookings := [];
      this.users := users;
    }

    predicate HasCode(code: string)
      reads this
    {
      exists b :: b in bookings && b.bookingCode == code
    }

    /**
     * `createBookingDB`: always PENDING; the date text is read as ISO, and
     * text that is not a date is refused by the store. The store checks the
     * unique booking code while inserting and the user foreign key after it,
     * so a taken code is reported before a missing user.
     */
    method CreateBookingDB(bookingId: string, input: BookingService.BookingInput, assignedDateISO: string)
      returns (r: Result<Booking, Error>)
      requires Valid()
      modifies this`bookings
      ensures Valid()
      ensures ParseISO(assignedDateISO).None? ==> r == Failure(InvalidDate) && bookings == old(bookings)
      ensures ParseISO(assignedDateISO).Some? && old(HasCode(bookingId)) ==>
                r == Failure(BookingCodeTaken) && bookings == old(bookings)
      ensures ParseISO(assignedDateISO).Some? && !old(HasCode(bookingId)) && input.userId !in users ==>
                r == Failure(UserNotFound) && bookings == old(bookings)
      ensures ParseISO(assignedDateISO).Some? && !old(HasCode(bookingId)) && input.userId in users ==>
                && r.Success? && bookings == old(bookings) + [r.value]
                && r.value == Booking(bookingId, input.userId, input.bins, input.plan, input.ampm, input.sameDay,
                                      ParseISO(assignedDateISO).value, Pending, None)
    {
      var date := ParseISO(assignedDateISO);
      if date.None? {
        return Failure(InvalidDate);
      }
      if HasCode(bookingId) {
        return Failure(BookingCodeTaken);
      }
      if input.userId !in users {
        return Failure(UserNotFound);
      }
      var b := Booking(bookingId, input.userId, input.bins, input.plan, input.ampm, input.sameDay, date.value, Pending, None);
      bookings := bookings + [b];
      return Success(b);
    }

    /**
     * `markScheduled`: the booking with this code becomes SCHEDULED; its
     * subscription id is replaced only by a non-empty one.
     */
    method MarkScheduled(bookingCode: string, subscriptionId: Option<string>) returns (r: Result<Booking, Error>)
      requires Valid()
      modifies this`bookings
      ensures Valid()
      ensures !old(HasCode(bookingCode)) ==> r == Failure(BookingNotFound) && bookings == old(bookings)
      ensures old(HasCode(bookingCode)) ==>
                && r.Success? && |bookings| == |old(bookings)|
                && forall k :: 0 <= k < |bookings| ==>
                     bookings[k] == if old(bookings)[k].bookingCode == bookingCode then r.value else old(bookings)[k]
      ensures r.Success? ==>
                exists b :: b in old(bookings) && b.bookingCode == bookingCode &&
                  r.value == b.(status := Scheduled,
                                stripeSubscriptionId := if subscriptionId.Some? && subscriptionId.value != ""
                                                        then subscriptionId else b.stripeSubscriptionId)
    {
      var k := 0;
      while k < |bookings| && bookings[k].bookingCode != bookingCode
        invariant k <= |bookings|
        invariant forall i :: 0 <= i < k ==> bookings[i].bookingCode != bookingCode
      {
        k := k + 1;
      }
      if k == |bookings| {
        return Failure(BookingNotFound);
      }
      var b := bookings[k].(status := Scheduled);
      if subscriptionId.Some? && subscriptionId.value != "" {
        b := b.(stripeSubscriptionId := subscriptionId);
      }
      bookings := bookings[k := b];
      return Success(b);
    }

    /**
     * `groupScheduledByZip`: the day's SCHEDULED rows, each code pushed onto
     * the list of its user's zip; one row without a zip, or with a zip that
     * names an inherited object member, fails the whole call.
     */
    method GroupScheduledByZip(dateISO: string) returns (r: Result<map<string, seq<string>>, Error>)
      ensures ParseISO(dateISO).None? ==> r == Failure(InvalidDate)
      ensures ParseISO(dateISO).Some? ==>
                var rows := ScheduledOn(bookings, ParseISO(dateISO).value);
                && (r.Failure? <==> FirstRowError(rows, users).Some?)
                && (r.Failure? ==> r.error == FirstRowError(rows, users).value)
                && (r.Success? ==> GroupsOf(r.value, rows, users))
    {
      var day := ParseISO(dateISO);
      if day.None? {
        return Failure(InvalidDate);
      }
      r := GroupRows(ScheduledOn(bookings, day.value), users);
    }
  }
}
