/** The reservation engine: book, modify and cancel.  Each operation is one
    atomic transition: it either fails with an error identity, leaving the
    caller's store as it was, or returns the new store.  The random booking
    suffix is a parameter; the range the random source promises is its
    precondition. */
module ReservationService {
  import opened Wrappers
  import opened Context
  import opened ErrorMessages
  import opened Chars
  import opened Seqs
  import opened DateUtil
  import opened RegexPatterns
  import opened User
  import opened ReservationRepository
  import opened TestUtils
  import opened InputValidator
  import opened AvailabilityService

  /** What a successful booking returns, together with the new store. */
  datatype Booking = Booking(bookingIdentifier: string, store: Store)

  // ------------------------------------------------------------ inputs

  predicate EmailGiven(env: Env, email: Option<string>)
  {
    email.Some? && env.isValidEmail(email.value)
  }

  predicate NameGiven(name: Option<string>)
  {
    name.Some? && NameSpec(name.value)
  }

  predicate IdentifierGiven(id: Option<string>)
  {
    id.Some? && IsBookingIdentifier(id.value)
  }

  predicate DatesGiven(env: Env, arrival: Option<string>, departure: Option<string>)
  {
    ParseDate(env, arrival).Some? && ParseDate(env, departure).Some?
  }

  /** No stored row falls in `[arrival, departure)`. */
  predicate NightsFree(store: Store, arrival: Date, departure: Date)
  {
    forall x | arrival <= x < departure :: x !in ReservedDates(store)
  }

  /** No stored row falls on a night of `[arrival, departure)` that `id`
      does not hold yet. */
  predicate NewNightsFree(store: Store, id: string, arrival: Date, departure: Date)
  {
    forall x | arrival <= x < departure && x !in IdentifierDates(store, id) :: x !in ReservedDates(store)
  }

  /** How many copies of `row` a modification of `id` to `[arrival,
      departure)` leaves: none on a night the identifier gives up, whoever
      holds it; the stored copies on every other night; plus one new row
      on each requested night the identifier did not hold yet. */
  function ExpectedCount(store: Store, id: string, email: string, arrival: Date, departure: Date,
                         row: Reservation): nat
  {
    (if row.reservationDate in IdentifierDates(store, id) && !(arrival <= row.reservationDate < departure)
     then 0 else multiset(store)[row])
    + (if arrival <= row.reservationDate < departure && row.reservationDate !in IdentifierDates(store, id)
          && row.bookingIdentifier == id && row.email == email then 1 else 0)
  }

  /** `after` is `store` with exactly the rows of a modification replaced. */
  ghost predicate IsModificationOf(after: Store, store: Store, id: string, email: string,
                                   arrival: Date, departure: Date)
  {
    forall row :: multiset(after)[row] == ExpectedCount(store, id, email, arrival, departure, row)
  }

  // ------------------------------------------------------------ helpers

  /** `generateBookingIdentifier`: the user identifier, `_`, then the
      suffix in canonical decimal (no leading zero), which can be read back
      from the identifier. */
  function GenerateBookingIdentifier(user: User, suffix: nat): (id: string)
    ensures var prefix := user.Identifier();
      && |id| > |prefix| + 1
      && id[..|prefix|] == prefix && id[|prefix|] == '_'
      && AllDigits(id[|prefix| + 1..]) && DecimalValue(id[|prefix| + 1..]) == suffix
      && (|id| == |prefix| + 2 || id[|prefix| + 1] != '0')
      && id[|prefix| + 1..] == NatToDecimal(suffix)
  {
    var prefix := user.Identifier();
    var id := prefix + "_" + NatToDecimal(suffix);
    assert id[|prefix| + 1..] == NatToDecimal(suffix);
    DecimalRoundTrip(suffix);
    id
  }

  /** `buildReservationList`: one row per date, all with the same
      identifier and e-mail. */
  function BuildReservationList(dates: seq<Date>, id: string, email: string): (rows: Store)
    ensures |rows| == |dates|
    ensures forall i | 0 <= i < |rows| :: rows[i] == Reservation(dates[i], id, email)
  {
    seq(|dates|, i requires 0 <= i < |dates| => Reservation(dates[i], id, email))
  }

  /** The first of strictly increasing dates does not recur. */
  lemma HeadNotInTail(dates: seq<Date>)
    requires |dates| > 0 && StrictlyIncreasing(dates)
    ensures dates[0] !in dates[1..]
  {
    forall k | 0 <= k < |dates[1..]| ensures dates[1..][k] != dates[0] {
      assert dates[1..][k] == dates[k + 1];
    }
  }

  /** For distinct dates, the list holds each promised row exactly once. */
  lemma {:induction false} BuildReservationListCount(dates: seq<Date>, id: string, email: string, row: Reservation)
    requires StrictlyIncreasing(dates)
    ensures multiset(BuildReservationList(dates, id, email))[row] ==
      if row.reservationDate in dates && row.bookingIdentifier == id && row.email == email then 1 else 0
  {
    if |dates| > 0 {
      var rows := BuildReservationList(dates, id, email);
      var tail := BuildReservationList(dates[1..], id, email);
      assert rows == [rows[0]] + tail;
      assert multiset(rows)[row] == multiset([rows[0]])[row] + multiset(tail)[row];
      assert StrictlyIncreasing(dates[1..]);
      BuildReservationListCount(dates[1..], id, email, row);
      HeadNotInTail(dates);
      assert row.reservationDate in dates <==> row.reservationDate == dates[0] || row.reservationDate in dates[1..];
    }
  }

  /** The rows of distinct dates are pairwise on distinct dates. */
  lemma BuildReservationListDistinct(dates: seq<Date>, id: string, email: string)
    requires StrictlyIncreasing(dates)
    ensures NoDoubleBooking(BuildReservationList(dates, id, email))
  {
  }

  /** The rows of distinct dates are pairwise on distinct dates, and each
      promised row is there exactly once. */
  lemma BuildReservationListCounts(dates: seq<Date>, id: string, email: string)
    requires StrictlyIncreasing(dates)
    ensures var rows := BuildReservationList(dates, id, email);
      && NoDoubleBooking(rows)
      && forall row :: multiset(rows)[row] ==
           if row.reservationDate in dates && row.bookingIdentifier == id && row.email == email then 1 else 0
  {
    BuildReservationListDistinct(dates, id, email);
    forall row {
      BuildReservationListCount(dates, id, email, row);
    }
  }

  /** `isValidReservation`: the identifier has at least one row. */
  function IsValidReservation(store: Store, id: string): (o: Outcome<ErrorMessage>)
    ensures o.Pass? <==> IdentifierDates(store, id) != {}
    ensures o.Fail? ==> o.error == ReservationDoesNotExist
  {
    ExistsIffHoldsNights(store, id);
    Need(ExistsByBookingIdentifier(store, id), ReservationDoesNotExist)
  }

  /** The ownership loop of cancel: fails on the first row whose e-mail is
      not the caller's. */
  function CheckOwnership(rows: Store, email: string): (o: Outcome<ErrorMessage>)
    ensures o.Pass? <==> forall row | row in rows :: row.email == email
    ensures o.Fail? ==> o.error == ReservationDoesNotExist
  {
    if |rows| == 0 then Pass
    else if rows[0].email != email then Fail(ReservationDoesNotExist)
    else
      assert forall row | row in rows :: row == rows[0] || row in rows[1..];
      CheckOwnership(rows[1..], email)
  }

  // ------------------------------------------------------------ book

  /** `bookReservation` */
  function Book(env: Env, store: Store, email: Option<string>, firstName: Option<string>,
                lastName: Option<string>, arrival: Option<string>, departure: Option<string>,
                suffix: nat): (r: Result<Booking, ErrorMessage>)
    requires suffix < env.bookingIdSuffixBound
    // format checks, in order
    ensures ParseDate(env, arrival).None? ==> r == Failure(MalformedArrivalDate)
    ensures ParseDate(env, arrival).Some? && ParseDate(env, departure).None? ==> r == Failure(MalformedDepartureDate)
    ensures DatesGiven(env, arrival, departure) && !NameGiven(firstName) ==> r == Failure(MalformedFirstName)
    ensures DatesGiven(env, arrival, departure) && NameGiven(firstName) && !NameGiven(lastName)
      ==> r == Failure(MalformedLastName)
    ensures DatesGiven(env, arrival, departure) && NameGiven(firstName) && NameGiven(lastName) && !EmailGiven(env, email)
      ==> r == Failure(MalformedEmail)
    // then the stay window, then availability
    ensures DatesGiven(env, arrival, departure) && NameGiven(firstName) && NameGiven(lastName) && EmailGiven(env, email) ==>
      var a, d := ParseDate(env, arrival).value, ParseDate(env, departure).value;
      var window := ValidateArrivalDate(env.today, a, d);
      && (window.Fail? ==> r == Failure(window.error))
      && (window.Pass? ==> (r.Success? <==> NightsFree(store, a, d)))
      && (window.Pass? && r.Failure? ==> r.error == UnavailableReservationDates)
    // a success appends one row per night under the generated identifier
    ensures r.Success? ==>
      var a, d := ParseDate(env, arrival).value, ParseDate(env, departure).value;
      var id := r.value.bookingIdentifier;
      var after := r.value.store;
      && id == lastName.value + "_" + email.value + "_" + NatToDecimal(suffix)
      && |after| == |store| + (d - a) && after[..|store|] == store
      && (forall i | |store| <= i < |after| :: after[i] == Reservation(a + (i - |store|), id, email.value))
    ensures r.Success? && NoDoubleBooking(store) ==> NoDoubleBooking(r.value.store)
  {
    var dates := ValidateStayDateString(env, arrival, departure);
    if dates.Fail? then Failure(dates.error) else
    var names := ValidateNameStrings(firstName, lastName);
    if names.Fail? then Failure(names.error) else
    var mail := ValidateEmailString(env, email);
    if mail.Fail? then Failure(mail.error) else
    var d := ParseDate(env, departure).value;
    var a := ParseDate(env, arrival).value;
    var window := ValidateArrivalDate(env.today, a, d);
    if window.Fail? then Failure(window.error) else
    ReserveStay(env, store, User(firstName.value, lastName.value, email.value), arrival, departure, a, d, suffix)
  }

  /** The second half of a booking, once every input has been validated:
      the availability re-check, then the identifier and the rows. */
  function ReserveStay(env: Env, store: Store, user: User, arrival: Option<string>, departure: Option<string>,
                       a: Date, d: Date, suffix: nat): (r: Result<Booking, ErrorMessage>)
    requires suffix < env.bookingIdSuffixBound
    requires ParseDate(env, arrival) == Some(a) && ParseDate(env, departure) == Some(d)
    requires ValidateArrivalDate(env.today, a, d).Pass?
    ensures r.Success? <==> NightsFree(store, a, d)
    ensures r.Failure? ==> r.error == UnavailableReservationDates
    ensures r.Success? ==>
      var id := r.value.bookingIdentifier;
      var after := r.value.store;
      && id == user.lastName + "_" + user.email + "_" + NatToDecimal(suffix)
      && |after| == |store| + (d - a) && after[..|store|] == store
      && (forall i | |store| <= i < |after| :: after[i] == Reservation(a + (i - |store|), id, user.email))
    ensures r.Success? && NoDoubleBooking(store) ==> NoDoubleBooking(r.value.store)
  {
    // the window has just been validated, so the re-check inside cannot fail
    var available := IsDateRangeAvailable(env, store, arrival, departure);
    if !available.value then Failure(UnavailableReservationDates)
    else
      var id := GenerateBookingIdentifier(user, suffix);
      Success(Booking(id, SaveNights(store, id, user.email, a, d)))
  }

  /** The saving half of a booking: one row per night of `[arrival,
      departure)`, appended in date order. */
  function SaveNights(store: Store, id: string, email: string, arrival: Date, departure: Date): (after: Store)
    requires arrival <= departure
    ensures |after| == |store| + (departure - arrival) && after[..|store|] == store
    ensures forall i | |store| <= i < |after| :: after[i] == Reservation(arrival + (i - |store|), id, email)
    ensures NoDoubleBooking(store) && NightsFree(store, arrival, departure) ==> NoDoubleBooking(after)
  {
    var nights := DatesUntil(arrival, departure);
    var rows := BuildReservationList(nights, id, email);
    var after := SaveAll(store, rows);
    assert after[..|store|] == store;
    SaveNightsKeepsNoDoubleBooking(store, id, email, arrival, departure);
    after
  }

  /** Saving the rows of free nights keeps the store free of double
      bookings. */
  lemma SaveNightsKeepsNoDoubleBooking(store: Store, id: string, email: string, arrival: Date, departure: Date)
    requires arrival <= departure
    ensures NoDoubleBooking(store) && NightsFree(store, arrival, departure) ==>
            NoDoubleBooking(SaveAll(store, BuildReservationList(DatesUntil(arrival, departure), id, email)))
  {
    if NoDoubleBooking(store) && NightsFree(store, arrival, departure) {
      var nights := DatesUntil(arrival, departure);
      var rows := BuildReservationList(nights, id, email);
      DatesUntilIncreasing(arrival, departure);
      BuildReservationListCounts(nights, id, email);
      assert forall row | row in rows :: arrival <= row.reservationDate < departure;
      SaveAllKeepsNoDoubleBooking(store, rows);
    }
  }

  // ------------------------------------------------------------ modify

  /** `modifyReservation`: books the requested nights the identifier does
      not hold yet (failing if any of them is stored at all), then deletes,
      by date, the nights it holds that were not requested.  The caller's
      e-mail is checked for shape only, not against the rows' owner, and the
      added rows carry the caller's e-mail. */
  function Modify(env: Env, store: Store, email: Option<string>, arrival: Option<string>,
                  departure: Option<string>, bookingIdentifier: Option<string>): (r: Result<Store, ErrorMessage>)
    // input checks, in order
    ensures !EmailGiven(env, email) ==> r == Failure(MalformedEmail)
    ensures EmailGiven(env, email) && !IdentifierGiven(bookingIdentifier) ==> r == Failure(MalformedBookingIdentifier)
    ensures EmailGiven(env, email) && IdentifierGiven(bookingIdentifier) && ParseDate(env, arrival).None?
      ==> r == Failure(MalformedArrivalDate)
    ensures EmailGiven(env, email) && IdentifierGiven(bookingIdentifier) && ParseDate(env, arrival).Some?
        && ParseDate(env, departure).None?
      ==> r == Failure(MalformedDepartureDate)
    ensures EmailGiven(env, email) && IdentifierGiven(bookingIdentifier) && DatesGiven(env, arrival, departure) ==>
      var a, d := ParseDate(env, arrival).value, ParseDate(env, departure).value;
      var id := bookingIdentifier.value;
      var window := ValidateArrivalDate(env.today, a, d);
      var existing := IdentifierDates(store, id);
      && (window.Fail? ==> r == Failure(window.error))
      && (window.Pass? && existing == {} ==> r == Failure(ReservationDoesNotExist))
      // the diff: fail if a night to add is stored by anyone
      && (window.Pass? && existing != {} ==>
            && (r.Success? <==> NewNightsFree(store, id, a, d))
            && (r.Failure? ==> r.error == UnavailableReservationDates))
      // otherwise add requested - existing, delete existing - requested by date
      && (r.Success? ==> IsModificationOf(r.value, store, id, email.value, a, d))
    ensures r.Success? && NoDoubleBooking(store) ==> NoDoubleBooking(r.value)
  {
    var mail := ValidateEmailString(env, email);
    if mail.Fail? then Failure(mail.error) else
    var ident := ValidateBookingIdentifier(bookingIdentifier);
    if ident.Fail? then Failure(ident.error) else
    var dates := ValidateStayDateString(env, arrival, departure);
    if dates.Fail? then Failure(dates.error) else
    var a := ParseDate(env, arrival).value;
    var d := ParseDate(env, departure).value;
    var window := ValidateArrivalDate(env.today, a, d);
    if window.Fail? then Failure(window.error) else
    var id := bookingIdentifier.value;
    var held := IsValidReservation(store, id);
    if held.Fail? then Failure(held.error) else
    ReplaceNights(store, id, email.value, a, d)
  }

  /** The nights the identifier holds, in row order. */
  function ExistingDates(store: Store, id: string): (dates: seq<Date>)
    ensures forall x :: x in dates <==> x in IdentifierDates(store, id)
  {
    DatesOf(FindByBookingIdentifier(store, id))
  }

  /** The requested nights the identifier does not hold yet, ascending. */
  function NewDates(store: Store, id: string, arrival: Date, departure: Date): (dates: seq<Date>)
    requires arrival <= departure
    ensures StrictlyIncreasing(dates)
    ensures forall x :: x in dates <==> arrival <= x < departure && x !in IdentifierDates(store, id)
  {
    var requestedDates := DatesUntil(arrival, departure);
    DatesUntilMembershipAll(arrival, departure);
    DatesUntilIncreasing(arrival, departure);
    var existingDates := ExistingDates(store, id);
    FilterKeepsIncreasing(requestedDates, (x: Date) => x !in existingDates);
    Filter(requestedDates, (x: Date) => x !in existingDates)
  }

  /** The held nights that were not requested. */
  function OutdatedDates(store: Store, id: string, arrival: Date, departure: Date): (dates: set<Date>)
    requires arrival <= departure
    ensures forall x :: x in dates <==> x in IdentifierDates(store, id) && !(arrival <= x < departure)
  {
    DatesUntilMembershipAll(arrival, departure);
    GetSubtractedDate(ExistingDates(store, id), DatesUntil(arrival, departure))
  }

  /** The diff step of a modification, once the inputs and the identifier
      have been checked: fail if any night to add is stored at all. */
  function ReplaceNights(store: Store, id: string, email: string, arrival: Date, departure: Date)
    : (r: Result<Store, ErrorMessage>)
    requires arrival <= departure
    ensures r.Success? <==> NewNightsFree(store, id, arrival, departure)
    ensures r.Failure? ==> r.error == UnavailableReservationDates
    ensures r.Success? ==> IsModificationOf(r.value, store, id, email, arrival, departure)
    ensures r.Success? && NoDoubleBooking(store) ==> NoDoubleBooking(r.value)
  {
    var newDates := NewDates(store, id, arrival, departure);
    assert !ExistsByReservationDateIn(store, newDates) <==> NewNightsFree(store, id, arrival, departure);
    if ExistsByReservationDateIn(store, newDates) then
      Failure(UnavailableReservationDates)
    else
      Success(ApplyDiff(store, id, email, arrival, departure))
  }

  /** Saves the new nights under `id` with the caller's e-mail, then deletes
      every row, whoever holds it, on a night the identifier gives up. */
  function ApplyDiff(store: Store, id: string, email: string, arrival: Date, departure: Date): (after: Store)
    requires arrival <= departure
    ensures IsModificationOf(after, store, id, email, arrival, departure)
    ensures NoDoubleBooking(store) && NewNightsFree(store, id, arrival, departure) ==> NoDoubleBooking(after)
  {
    DiffCounts(store, id, email, arrival, departure);
    DiffKeepsNoDoubleBooking(store, id, email, arrival, departure);
    DiffRows(store, id, email, arrival, departure)
  }

  /** The store after saving the new nights and deleting the outdated ones. */
  function DiffRows(store: Store, id: string, email: string, arrival: Date, departure: Date): Store
    requires arrival <= departure
  {
    var saved := SaveAll(store, BuildReservationList(NewDates(store, id, arrival, departure), id, email));
    DeleteByReservationDateIn(saved, OutdatedDates(store, id, arrival, departure))
  }

  lemma DiffCount(store: Store, id: string, email: string, arrival: Date, departure: Date, row: Reservation)
    requires arrival <= departure
    ensures multiset(DiffRows(store, id, email, arrival, departure))[row]
            == ExpectedCount(store, id, email, arrival, departure, row)
  {
    var newDates := NewDates(store, id, arrival, departure);
    var newRows := BuildReservationList(newDates, id, email);
    BuildReservationListCount(newDates, id, email, row);
    var saved := SaveAll(store, newRows);
    assert multiset(saved)[row] == multiset(store)[row] + multiset(newRows)[row];
  }

  lemma DiffCounts(store: Store, id: string, email: string, arrival: Date, departure: Date)
    requires arrival <= departure
    ensures IsModificationOf(DiffRows(store, id, email, arrival, departure), store, id, email, arrival, departure)
  {
    forall row {
      DiffCount(store, id, email, arrival, departure, row);
    }
  }

  lemma DiffKeepsNoDoubleBooking(store: Store, id: string, email: string, arrival: Date, departure: Date)
    requires arrival <= departure
    ensures NoDoubleBooking(store) && NewNightsFree(store, id, arrival, departure) ==>
            NoDoubleBooking(DiffRows(store, id, email, arrival, departure))
  {
    if NoDoubleBooking(store) && NewNightsFree(store, id, arrival, departure) {
      var newDates := NewDates(store, id, arrival, departure);
      var newRows := BuildReservationList(newDates, id, email);
      BuildReservationListDistinct(newDates, id, email);
      forall row | row in newRows ensures row.reservationDate !in ReservedDates(store) {
        var i :| 0 <= i < |newRows| && newRows[i] == row;
        assert row.reservationDate in newDates;
      }
      SaveAllKeepsNoDoubleBooking(store, newRows);
      var outdated := OutdatedDates(store, id, arrival, departure);
      FilterKeepsNoDoubleBooking(SaveAll(store, newRows), (row: Reservation) => row.reservationDate !in outdated);
    }
  }

  // ------------------------------------------------------------ cancel

  /** `cancelReservation`: deletes every row of the identifier, provided
      each of them carries the caller's e-mail.  A foreign row is reported
      as a missing reservation. */
  function Cancel(env: Env, store: Store, email: Option<string>, bookingIdentifier: Option<string>)
    : (r: Result<Store, ErrorMessage>)
    ensures !EmailGiven(env, email) ==> r == Failure(MalformedEmail)
    ensures EmailGiven(env, email) && !IdentifierGiven(bookingIdentifier) ==> r == Failure(MalformedBookingIdentifier)
    ensures EmailGiven(env, email) && IdentifierGiven(bookingIdentifier) ==>
      var id := bookingIdentifier.value;
      && (r.Success? <==> (IdentifierDates(store, id) != {}
            && forall row | row in store && row.bookingIdentifier == id :: row.email == email.value))
      && (r.Failure? ==> r.error == ReservationDoesNotExist)
      && (r.Success? ==> forall row :: (multiset(r.value)[row] ==
            if row.bookingIdentifier == id then 0 else multiset(store)[row]))
    ensures r.Success? && NoDoubleBooking(store) ==> NoDoubleBooking(r.value)
  {
    var mail := ValidateEmailString(env, email);
    if mail.Fail? then Failure(mail.error) else
    var ident := ValidateBookingIdentifier(bookingIdentifier);
    if ident.Fail? then Failure(ident.error) else
    var id := bookingIdentifier.value;
    var held := IsValidReservation(store, id);
    if held.Fail? then Failure(held.error) else
    var resList := FindByBookingIdentifier(store, id);
    var owned := CheckOwnership(resList, email.value);
    if owned.Fail? then Failure(owned.error) else
    DeleteAllKeepsNoDoubleBooking(store, resList);
    Success(DeleteAll(store, resList))
  }
}
