/** The service test cases, restated over the model for every clock value
    and every store that satisfies the case's setup. */
module ServiceScenarios {
  import opened Wrappers
  import opened Context
  import opened ErrorMessages
  import opened Chars
  import opened DateUtil
  import opened RegexPatterns
  import opened ReservationRepository
  import opened Seqs
  import opened InputValidator
  import opened AvailabilityService
  import opened ServiceProperties
  import opened ReservationService

  const FirstName: string := "Kick Buttowski"
  const LastName: string := "Suburban"
  const Email: string := "Daredevil@email.com"

  lemma SampleNamesAreNames()
    ensures NameSpec(FirstName) && NameSpec(LastName)
  {
    assert NameSplit(FirstName, 4, 5);
    assert NameSplit(LastName, 0, 0);
  }

  /** A free stay from tomorrow to the day after next saves two rows under
      an identifier that starts with `Suburban_Daredevil@email.com_`. */
  lemma BookTwoNights(env: Env, store: Store, arrival: string, departure: string, suffix: nat)
    requires suffix < env.bookingIdSuffixBound && env.isValidEmail(Email)
    requires env.parseDate(arrival) == Some(env.today + 1) && env.parseDate(departure) == Some(env.today + 3)
    requires NightsFree(store, env.today + 1, env.today + 3)
    ensures var r := Book(env, store, Some(Email), Some(FirstName), Some(LastName), Some(arrival), Some(departure), suffix);
      && r.Success?
      && |r.value.store| == |store| + 2
      && r.value.bookingIdentifier[..|LastName + "_" + Email + "_"|] == LastName + "_" + Email + "_"
  {
    SampleNamesAreNames();
  }

  /** A last name of digits is refused before the e-mail is looked at. */
  lemma BookWithDigitLastName(env: Env, store: Store, email: Option<string>, arrival: string, departure: string,
                              suffix: nat)
    requires suffix < env.bookingIdSuffixBound
    requires env.parseDate(arrival).Some? && env.parseDate(departure).Some?
    ensures Book(env, store, email, Some(FirstName), Some("111111"), Some(arrival), Some(departure), suffix)
            == Failure(MalformedLastName)
  {
    SampleNamesAreNames();
    IsNameCorrect("111111");
    assert !IsLetter('1');
  }

  /** "1970-O1-O1" is refused as an arrival date by any ISO parser, before
      anything else is checked. */
  lemma BookWithLetterOArrival(env: Env, store: Store, email: Option<string>, firstName: Option<string>,
                               lastName: Option<string>, departure: Option<string>, suffix: nat)
    requires suffix < env.bookingIdSuffixBound && ParserRespectsIsoShape(env)
    ensures Book(env, store, email, firstName, lastName, Some("1970-O1-O1"), departure, suffix)
            == Failure(MalformedArrivalDate)
  {
    LetterOIsNotADate(env);
  }

  /** The e-mail is checked after the names: a missing one is refused. */
  lemma BookWithNullEmail(env: Env, store: Store, arrival: string, departure: string, suffix: nat)
    requires suffix < env.bookingIdSuffixBound
    requires env.parseDate(arrival).Some? && env.parseDate(departure).Some?
    ensures Book(env, store, None, Some(FirstName), Some(LastName), Some(arrival), Some(departure), suffix)
            == Failure(MalformedEmail)
  {
    SampleNamesAreNames();
  }

  /** An e-mail the validator rejects, such as "$$$@lol@", is refused. */
  lemma BookWithInvalidEmail(env: Env, store: Store, arrival: string, departure: string, suffix: nat)
    requires suffix < env.bookingIdSuffixBound && !env.isValidEmail("$$$@lol@")
    requires env.parseDate(arrival).Some? && env.parseDate(departure).Some?
    ensures Book(env, store, Some("$$$@lol@"), Some(FirstName), Some(LastName), Some(arrival), Some(departure), suffix)
            == Failure(MalformedEmail)
  {
    SampleNamesAreNames();
  }

  /** A missing first name is refused, whatever the e-mail. */
  lemma BookWithNullFirstName(env: Env, store: Store, email: Option<string>, arrival: string, departure: string,
                              suffix: nat)
    requires suffix < env.bookingIdSuffixBound
    requires env.parseDate(arrival).Some? && env.parseDate(departure).Some?
    ensures Book(env, store, email, None, Some(LastName), Some(arrival), Some(departure), suffix)
            == Failure(MalformedFirstName)
  {
  }

  /** A missing departure date is refused before the names are looked at. */
  lemma BookWithNullDeparture(env: Env, store: Store, email: Option<string>, firstName: Option<string>,
                              lastName: Option<string>, arrival: string, suffix: nat)
    requires suffix < env.bookingIdSuffixBound && env.parseDate(arrival).Some?
    ensures Book(env, store, email, firstName, lastName, Some(arrival), None, suffix)
            == Failure(MalformedDepartureDate)
  {
  }

  /** Each refused stay window of the booking tests reports its own error,
      with well-formed names and e-mail: an arrival in the past, an arrival
      today, an arrival past the 31-day threshold, a departure before the
      arrival, and a stay of five nights. */
  lemma BookRefusedWindows(env: Env, store: Store, arrival: string, departure: string, suffix: nat)
    requires suffix < env.bookingIdSuffixBound && env.isValidEmail(Email)
    requires env.parseDate(arrival).Some? && env.parseDate(departure).Some?
    ensures var a, d := env.parseDate(arrival).value, env.parseDate(departure).value;
      var r := Book(env, store, Some(Email), Some(FirstName), Some(LastName), Some(arrival), Some(departure), suffix);
      && (a < env.today && d == env.today + 3 ==> r == Failure(DateInThePast))
      && (a == env.today && d == env.today + 3 ==> r == Failure(DateTooSoon))
      && (a == env.today + 32 && d == env.today + 34 ==> r == Failure(DateTooFar))
      && (a == env.today + 3 && d == env.today + 1 ==> r == Failure(DepartureDateTooSoon))
      && (a == env.today + 1 && d == env.today + 6 ==> r == Failure(ReservationLimitReached))
  {
    SampleNamesAreNames();
  }

  /** A well-formed stay whose nights are not all free is refused. */
  lemma BookUnavailable(env: Env, store: Store, arrival: string, departure: string, suffix: nat)
    requires suffix < env.bookingIdSuffixBound && env.isValidEmail(Email)
    requires env.parseDate(arrival) == Some(env.today + 1) && env.parseDate(departure) == Some(env.today + 3)
    requires !NightsFree(store, env.today + 1, env.today + 3)
    ensures Book(env, store, Some(Email), Some(FirstName), Some(LastName), Some(arrival), Some(departure), suffix)
            == Failure(UnavailableReservationDates)
  {
    SampleNamesAreNames();
  }

  /** The booking of the shared-dates test: nights +1 and +2. */
  function SharedDatesStore(t: Date, id: string, email: string): Store
  {
    [Reservation(t + 1, id, email), Reservation(t + 2, id, email)]
  }

  /** What the shared-dates test expects afterwards: nights +2, +3, +4. */
  function ModifySharedDatesExpected(t: Date, id: string, email: string): Store
  {
    [Reservation(t + 2, id, email), Reservation(t + 3, id, email), Reservation(t + 4, id, email)]
  }

  lemma SharedDatesStoreFacts(t: Date, id: string, email: string)
    ensures IdentifierDates(SharedDatesStore(t, id, email), id) == {t + 1, t + 2}
    ensures ReservedDates(SharedDatesStore(t, id, email)) == {t + 1, t + 2}
  {
    var store := SharedDatesStore(t, id, email);
    assert store[0] in store && store[1] in store;
  }

  lemma SharedDatesStoreCounts(t: Date, id: string, email: string)
    ensures forall row :: (multiset(SharedDatesStore(t, id, email))[row]
      == if row.bookingIdentifier == id && row.email == email && t + 1 <= row.reservationDate <= t + 2 then 1 else 0)
  {
    var store := SharedDatesStore(t, id, email);
    assert store == [store[0]] + [store[1]];
  }

  lemma ExpectedFacts(t: Date, id: string, email: string)
    ensures forall row :: (multiset(ModifySharedDatesExpected(t, id, email))[row]
      == if row.bookingIdentifier == id && row.email == email && t + 2 <= row.reservationDate <= t + 4 then 1 else 0)
  {
    var e := ModifySharedDatesExpected(t, id, email);
    assert e == [e[0]] + [e[1]] + [e[2]];
  }

  /** Nights +2 to +4 are free apart from the booking's own +2. */
  lemma SharedDatesNewNightsFree(t: Date, id: string, email: string)
    ensures NewNightsFree(SharedDatesStore(t, id, email), id, t + 2, t + 5)
  {
    SharedDatesStoreFacts(t, id, email);
  }

  /** Any store related to the two-night store by the diff of a move to
      `[t + 2, t + 5)` holds nights +2, +3 and +4. */
  lemma SharedDatesDiff(t: Date, id: string, email: string, after: Store)
    requires IsModificationOf(after, SharedDatesStore(t, id, email), id, email, t + 2, t + 5)
    ensures multiset(after) == multiset(ModifySharedDatesExpected(t, id, email))
  {
    SharedDatesStoreFacts(t, id, email);
    SharedDatesStoreCounts(t, id, email);
    ExpectedFacts(t, id, email);
    forall row ensures multiset(after)[row] == multiset(ModifySharedDatesExpected(t, id, email))[row] {
      assert multiset(after)[row] == ExpectedCount(SharedDatesStore(t, id, email), id, email, t + 2, t + 5, row);
    }
  }

  /** Moving a stay of nights +1, +2 to nights +2, +3, +4 keeps +2, adds +3
      and +4 and drops +1 (the test's identifier and e-mail are one such
      `id` and `email`). */
  lemma ModifySharedDates(env: Env, arrival: string, departure: string, id: string, email: string)
    requires env.isValidEmail(email) && IsBookingIdentifier(id)
    requires env.parseDate(arrival) == Some(env.today + 2) && env.parseDate(departure) == Some(env.today + 5)
    ensures var r := Modify(env, SharedDatesStore(env.today, id, email), Some(email), Some(arrival), Some(departure),
                            Some(id));
      r.Success? && multiset(r.value) == multiset(ModifySharedDatesExpected(env.today, id, email))
  {
    var t := env.today;
    var store := SharedDatesStore(t, id, email);
    assert store[0].reservationDate in IdentifierDates(store, id);
    SharedDatesNewNightsFree(t, id, email);
    assert ValidateArrivalDate(t, t + 2, t + 5).Pass?;
    var after := ModifySucceeds(env, store, email, arrival, departure, id);
    SharedDatesDiff(t, id, email, after);
  }

  /** A one-night booking next to a row of another booking. */
  function OneNightAndTaken(t: Date, id: string, taken: Reservation): Store
  {
    [Reservation(t + 1, id, Email), taken]
  }

  lemma OneNightAndTakenFacts(t: Date, id: string, taken: Reservation)
    requires taken.bookingIdentifier != id && t + 2 <= taken.reservationDate < t + 5
    ensures IdentifierDates(OneNightAndTaken(t, id, taken), id) != {}
    ensures !NewNightsFree(OneNightAndTaken(t, id, taken), id, t + 2, t + 5)
  {
    var store := OneNightAndTaken(t, id, taken);
    assert store[0].reservationDate in IdentifierDates(store, id);
    assert IdentifierDates(store, id) == {t + 1};
    assert store[1] in store && taken.reservationDate in ReservedDates(store);
    assert taken.reservationDate !in IdentifierDates(store, id);
  }

  /** Moving a one-night booking onto nights another booking holds is
      refused. */
  lemma ModifyIntoTakenNights(env: Env, arrival: string, departure: string, id: string, taken: Reservation)
    requires env.isValidEmail(Email) && IsBookingIdentifier(id)
    requires env.parseDate(arrival) == Some(env.today + 2) && env.parseDate(departure) == Some(env.today + 5)
    requires taken.bookingIdentifier != id && env.today + 2 <= taken.reservationDate < env.today + 5
    ensures Modify(env, OneNightAndTaken(env.today, id, taken), Some(Email), Some(arrival), Some(departure), Some(id))
            == Failure(UnavailableReservationDates)
  {
    var t := env.today;
    OneNightAndTakenFacts(t, id, taken);
    assert ValidateArrivalDate(t, t + 2, t + 5).Pass?;
    ModifyRefusedWhenTaken(env, OneNightAndTaken(t, id, taken), Email, arrival, departure, id);
  }

  /** An identifier with no rows cannot be modified. */
  lemma ModifyUnknownBooking(env: Env, store: Store, arrival: string, departure: string, id: string)
    requires env.isValidEmail(Email) && IsBookingIdentifier(id) && IdentifierDates(store, id) == {}
    requires env.parseDate(arrival) == Some(env.today + 1) && env.parseDate(departure) == Some(env.today + 3)
    ensures Modify(env, store, Some(Email), Some(arrival), Some(departure), Some(id)) == Failure(ReservationDoesNotExist)
  {
  }

  /** The identity checks of modify: a missing or rejected e-mail and a
      missing identifier are each refused with their own error. */
  lemma ModifyMalformedIdentity(env: Env, store: Store, arrival: Option<string>, departure: Option<string>)
    requires env.isValidEmail(Email) && !env.isValidEmail("some##aol.com")
    ensures Modify(env, store, None, arrival, departure, None) == Failure(MalformedEmail)
    ensures Modify(env, store, Some("some##aol.com"), arrival, departure, None) == Failure(MalformedEmail)
    ensures Modify(env, store, Some(Email), arrival, departure, None) == Failure(MalformedBookingIdentifier)
  {
  }

  /** A missing arrival date is refused once the e-mail and identifier
      pass. */
  lemma ModifyWithNullArrival(env: Env, store: Store, departure: Option<string>, id: string)
    requires env.isValidEmail(Email) && IsBookingIdentifier(id)
    ensures Modify(env, store, Some(Email), None, departure, Some(id)) == Failure(MalformedArrivalDate)
  {
  }

  /** "1903-O9-o2" is refused as a departure date by any ISO parser. */
  lemma ModifyWithLetterODeparture(env: Env, store: Store, arrival: string, id: string)
    requires env.isValidEmail(Email) && IsBookingIdentifier(id) && ParserRespectsIsoShape(env)
    requires env.parseDate(arrival).Some?
    ensures Modify(env, store, Some(Email), Some(arrival), Some("1903-O9-o2"), Some(id)) == Failure(MalformedDepartureDate)
  {
    OtherLetterODatesAreNotDates(env);
  }

  /** The booking of the separated-dates test: night +1 alone. */
  function OneNight(t: Date, id: string, email: string): Store
  {
    [Reservation(t + 1, id, email)]
  }

  lemma OneNightFacts(t: Date, id: string, email: string)
    ensures forall row | row in OneNight(t, id, email) :: row.bookingIdentifier == id
    ensures IdentifierDates(OneNight(t, id, email), id) == {t + 1}
    ensures NewNightsFree(OneNight(t, id, email), id, t + 4, t + 7)
  {
    var store := OneNight(t, id, email);
    assert store[0].reservationDate in IdentifierDates(store, id);
    assert ReservedDates(store) == {t + 1};
  }

  /** Moving a one-night booking to three later, separate nights succeeds:
      afterwards exactly the new nights are reserved. */
  lemma ModifySeparatedDates(env: Env, arrival: string, departure: string, id: string, email: string)
    requires env.isValidEmail(email) && IsBookingIdentifier(id)
    requires env.parseDate(arrival) == Some(env.today + 4) && env.parseDate(departure) == Some(env.today + 7)
    ensures var r := Modify(env, OneNight(env.today, id, email), Some(email), Some(arrival), Some(departure), Some(id));
      r.Success? && forall x :: x in ReservedDates(r.value) <==> env.today + 4 <= x < env.today + 7
  {
    var t := env.today;
    var store := OneNight(t, id, email);
    OneNightFacts(t, id, email);
    assert ValidateArrivalDate(t, t + 4, t + 7).Pass?;
    var _ := ModifySucceeds(env, store, email, arrival, departure, id);
    ModifySoleBooking(env, store, Some(email), Some(arrival), Some(departure), Some(id));
  }

  /** The owner's rows cannot be cancelled with another e-mail. */
  lemma CancelWithWrongEmail(env: Env, id: string)
    requires env.isValidEmail("yoko@aol.com") && IsBookingIdentifier(id)
    ensures var store := [Reservation(0, id, Email), Reservation(1, id, Email), Reservation(2, id, Email)];
      Cancel(env, store, Some("yoko@aol.com"), Some(id)) == Failure(ReservationDoesNotExist)
  {
    var store := [Reservation(0, id, Email), Reservation(1, id, Email), Reservation(2, id, Email)];
    assert store[0] in store;
  }

  /** The owner cancels their three nights: nothing is left. */
  lemma CancelBooking(env: Env, id: string)
    requires env.isValidEmail(Email) && IsBookingIdentifier(id)
    ensures var store := [Reservation(0, id, Email), Reservation(1, id, Email), Reservation(2, id, Email)];
      Cancel(env, store, Some(Email), Some(id)) == Success([])
  {
    var rows := [Reservation(0, id, Email), Reservation(1, id, Email), Reservation(2, id, Email)];
    CancelAppendedRows(env, [], rows, Email, id);
    assert [] + rows == rows;
  }

  /** An identifier with no rows cannot be cancelled. */
  lemma CancelUnknownBooking(env: Env, store: Store, id: string)
    requires env.isValidEmail(Email) && IsBookingIdentifier(id) && IdentifierDates(store, id) == {}
    ensures Cancel(env, store, Some(Email), Some(id)) == Failure(ReservationDoesNotExist)
  {
  }

  /** The input checks of cancel: a missing or rejected e-mail, a missing
      identifier and the doubled-underscore identifier are refused. */
  lemma CancelMalformedInputs(env: Env, store: Store, id: Option<string>)
    requires env.isValidEmail(Email) && !env.isValidEmail("b@@@@@mail.com")
    ensures Cancel(env, store, None, id) == Failure(MalformedEmail)
    ensures Cancel(env, store, Some("b@@@@@mail.com"), id) == Failure(MalformedEmail)
    ensures Cancel(env, store, Some(Email), None) == Failure(MalformedBookingIdentifier)
    ensures Cancel(env, store, Some(Email), Some("nope__someEmail@email.com__1234567"))
            == Failure(MalformedBookingIdentifier)
  {
    DoubledUnderscoreRejected();
  }

  // ------------------------------------------------------------ availability

  /** Rows on the nights `t + 1 .. t + k`, for no particular booking. */
  function TakenNights(t: Date, k: nat): (store: Store)
    ensures forall x :: x in ReservedDates(store) <==> t + 1 <= x <= t + k
  {
    var store := seq(k, i requires 0 <= i < k => Reservation(t + 1 + i, "", ""));
    forall x | t + 1 <= x <= t + k ensures x in ReservedDates(store) {
      assert store[x - t - 1] in store;
    }
    store
  }

  /** An ascending list whose only member is `x` is `[x]`. */
  lemma AscendingSingleton(s: seq<Date>, x: Date)
    requires StrictlyIncreasing(s)
    requires forall y :: y in s <==> y == x
    ensures s == [x]
  {
    AscendingWindow(s, x, x + 1);
  }

  /** With nights +1, +2 and +3 taken, the window `[t + 1, t + 4)` has no
      free day, and the range is not available. */
  lemma NoFreeSpots(env: Env, start: string, end: string)
    requires env.parseDate(start) == Some(env.today + 1) && env.parseDate(end) == Some(env.today + 4)
    ensures ListAvailableDates(env, TakenNights(env.today, 3), Some(start), Some(end)) == Success([])
    ensures IsDateRangeAvailable(env, TakenNights(env.today, 3), Some(start), Some(end)) == Success(false)
  {
    var r := ListAvailableDates(env, TakenNights(env.today, 3), Some(start), Some(end));
    assert env.today + 1 in ReservedDates(TakenNights(env.today, 3));
  }

  /** With nights +1 and +2 taken, the only free day of `[t + 1, t + 4)`
      is `t + 3`, and the range is not available. */
  lemma OneFreeSpot(env: Env, start: string, end: string)
    requires env.parseDate(start) == Some(env.today + 1) && env.parseDate(end) == Some(env.today + 4)
    ensures ListAvailableDates(env, TakenNights(env.today, 2), Some(start), Some(end)) == Success([env.today + 3])
    ensures IsDateRangeAvailable(env, TakenNights(env.today, 2), Some(start), Some(end)) == Success(false)
  {
    var r := ListAvailableDates(env, TakenNights(env.today, 2), Some(start), Some(end));
    AscendingSingleton(r.value, env.today + 3);
    assert env.today + 1 in ReservedDates(TakenNights(env.today, 2));
  }

  /** Dropping the smallest day of an ascending list holding exactly
      `[lo, hi)` leaves an ascending list holding exactly `[lo + 1, hi)`. */
  lemma AscendingTail(s: seq<Date>, lo: Date, hi: Date)
    requires lo < hi && StrictlyIncreasing(s)
    requires forall x :: x in s <==> lo <= x < hi
    ensures |s| > 0 && s[0] == lo && StrictlyIncreasing(s[1..])
    ensures forall x :: x in s[1..] <==> lo + 1 <= x < hi
  {
    assert lo in s;
    assert s[0] in s;
    forall x ensures x in s[1..] <==> lo + 1 <= x < hi {
      if x in s[1..] {
        var j :| 0 <= j < |s[1..]| && s[1..][j] == x;
        assert s[j + 1] == x && s[0] < s[j + 1] && s[j + 1] in s;
      }
      if lo + 1 <= x < hi {
        assert x in s;
        var j :| 0 <= j < |s| && s[j] == x;
        assert j != 0;
        assert s[1..][j - 1] == x;
      }
    }
  }

  /** An ascending list holding exactly the days of `[lo, hi)` is the
      list of those days. */
  lemma {:induction false} AscendingWindow(s: seq<Date>, lo: Date, hi: Date)
    requires lo <= hi && StrictlyIncreasing(s)
    requires forall x :: x in s <==> lo <= x < hi
    ensures s == DatesUntil(lo, hi)
    decreases hi - lo
  {
    if lo == hi {
      EmptyOrHasHead(s);
    } else {
      AscendingTail(s, lo, hi);
      AscendingWindow(s[1..], lo + 1, hi);
      assert s == [s[0]] + s[1..];
    }
  }

  lemma ThreeNights(t: Date)
    ensures DatesUntil(t + 1, t + 4) == [t + 1, t + 2, t + 3]
  {
  }

  /** When no night of a valid window is reserved, the free list is the
      whole window. */
  lemma UnreservedWindowListed(env: Env, store: Store, start: string, end: string, s: Date, e: Date)
    requires env.parseDate(start) == Some(s) && env.parseDate(end) == Some(e) && env.today <= s <= e
    requires forall x | s <= x < e :: x !in ReservedDates(store)
    ensures ListAvailableDates(env, store, Some(start), Some(end)) == Success(DatesUntil(s, e))
  {
    var r := ListAvailableDates(env, store, Some(start), Some(end));
    AscendingWindow(r.value, s, e);
  }

  lemma NothingReserved()
    ensures ReservedDates([]) == {}
  {
  }

  /** The error cases of the listing: a missing date, a start in the past,
      and an end before the start. */
  lemma ListRefusedWindows(env: Env, store: Store, start: string, end: string)
    requires env.parseDate(start).Some? && env.parseDate(end).Some?
    ensures ListAvailableDates(env, store, None, Some(start)) == Failure(MalformedDateParameter)
    ensures var s, e := env.parseDate(start).value, env.parseDate(end).value;
      var r := ListAvailableDates(env, store, Some(start), Some(end));
      && (s == env.today - 1 && e == env.today + 1 ==> r == Failure(DateInThePast))
      && (s == env.today + 4 && e == env.today + 1 ==> r == Failure(DepartureDateTooSoon))
  {
  }

  /** "1970-01-O1" is refused as an end date by any ISO parser. */
  lemma ListWithLetterOEnd(env: Env, store: Store, start: string)
    requires ParserRespectsIsoShape(env) && env.parseDate(start).Some?
    ensures ListAvailableDates(env, store, Some(start), Some("1970-01-O1")) == Failure(MalformedDateParameter)
  {
    OtherLetterODatesAreNotDates(env);
  }

  /** With nothing stored, every day of the window is free. */
  lemma AllFree(env: Env, start: string, end: string)
    requires env.parseDate(start) == Some(env.today + 1) && env.parseDate(end) == Some(env.today + 4)
    ensures ListAvailableDates(env, [], Some(start), Some(end))
            == Success([env.today + 1, env.today + 2, env.today + 3])
  {
    var t := env.today;
    ThreeNights(t);
    NothingReserved();
    UnreservedWindowListed(env, [], start, end, t + 1, t + 4);
  }

  /** With nothing stored, a valid stay is available. */
  lemma AllAvailable(env: Env, start: string, end: string)
    requires env.parseDate(start) == Some(env.today + 1) && env.parseDate(end) == Some(env.today + 4)
    ensures IsDateRangeAvailable(env, [], Some(start), Some(end)) == Success(true)
  {
  }

  // ------------------------------------------------------------ repository

  function FourNights(t: Date, id: string, email: string): Store
  {
    [Reservation(t, id, email), Reservation(t + 1, id, email),
     Reservation(t + 2, id, email), Reservation(t + 3, id, email)]
  }

  lemma FourNightsFacts(t: Date, id: string, email: string)
    ensures forall row | row in FourNights(t, id, email) :: row.bookingIdentifier == id
    ensures IdentifierDates(FourNights(t, id, email), id) == {t, t + 1, t + 2, t + 3}
    ensures NewNightsFree(FourNights(t, id, email), id, t + 2, t + 4)
  {
    var store := FourNights(t, id, email);
    assert IdentifierDates(store, id) == {t, t + 1, t + 2, t + 3};
  }

  /** Moving a stay of nights `t .. t + 3` to `[t + 2, t + 4)` frees today. */
  lemma ModifyFreesToday(env: Env, arrival: string, departure: string, id: string, email: string)
    requires env.isValidEmail(email) && IsBookingIdentifier(id)
    requires env.parseDate(arrival) == Some(env.today + 2) && env.parseDate(departure) == Some(env.today + 4)
    ensures var r := Modify(env, FourNights(env.today, id, email), Some(email), Some(arrival), Some(departure), Some(id));
      r.Success? && !ExistsByReservationDateIn(r.value, [env.today])
  {
    var t := env.today;
    var store := FourNights(t, id, email);
    FourNightsFacts(t, id, email);
    assert ValidateArrivalDate(t, t + 2, t + 4).Pass?;
    var _ := ModifySucceeds(env, store, email, arrival, departure, id);
    var r := Modify(env, store, Some(email), Some(arrival), Some(departure), Some(id));
    ModifySoleBooking(env, store, Some(email), Some(arrival), Some(departure), Some(id));
    assert t !in ReservedDates(r.value);
  }
}
