/** Properties that relate several operations of the reservation engine:
    identifiers produced by booking and accepted by modify and cancel,
    booking undone by cancelling, and what a modification leaves alone. */
module ServiceProperties {
  import opened Wrappers
  import opened Context
  import opened ErrorMessages
  import opened Chars
  import opened Seqs
  import opened RegexPatterns
  import opened User
  import opened ReservationRepository
  import opened InputValidator
  import opened ReservationService

  // ------------------------------------------------------------ identifiers

  /** A generated identifier matches BOOKING_IDENTIFIER when the last name
      is a valid name, the e-mail has the shape the pattern expects and the
      suffix has at most seven digits. */
  lemma GeneratedIdentifierAccepted(user: User, suffix: nat)
    requires NameSpec(user.lastName) && IsEmailPart(user.email) && suffix < Pow10(7)
    ensures IsBookingIdentifier(GenerateBookingIdentifier(user, suffix))
  {
    IsNameCorrect(user.lastName);
    DecimalLength(suffix, 7);
    IdentifierOfParts(user.lastName, user.email, NatToDecimal(suffix));
    assert GenerateBookingIdentifier(user, suffix) == user.lastName + "_" + user.email + "_" + NatToDecimal(suffix);
  }

  /** A string that starts with a valid name and `_` can only be split
      after that name. */
  lemma NameEndsAtFirstUnderscore(s: string, last: string, p: int)
    requires NameSpec(last) && |last| < |s| && s[..|last|] == last && s[|last|] == '_'
    requires 0 <= p < |s| && IsName(s[..p]) && s[p] == '_'
    ensures p == |last|
  {
    IsNameCorrect(last);
    if p < |last| {
      assert s[..|last|][p] == '_';
      NameHasNoUnderscore(last, p);
    } else if p > |last| {
      assert s[..p][|last|] == '_';
      NameHasNoUnderscore(s[..p], |last|);
    }
  }

  /** A string that agrees with `email` up to an `_` that comes before any
      `@` cannot be the e-mail part: its `@` would have to come first. */
  lemma LocalUnderscoreNotEmailPart(e: string, email: string, k: int)
    requires 0 <= k < |email| && email[k] == '_'
    requires forall j | 0 <= j < k :: email[j] != '@'
    requires forall m | 0 <= m < |e| && m < |email| :: e[m] == email[m]
    ensures !IsEmailPart(e)
  {
    if IsEmailPart(e) {
      var q, r :| 0 <= q < r < |e| && EmailSplit(e, q, r);
      if |e| > k {
        EmailPartUnderscoreAfterAt(e, k, q);
      }
    }
  }

  /** No split of a string that starts with `last`, `_` and then `email`
      matches BOOKING_IDENTIFIER when `email` has `_` before any `@`. */
  lemma NoSplitPastLocalUnderscore(s: string, last: string, email: string, k: int, p: int, t: int)
    requires NameSpec(last)
    requires 0 <= k < |email| && email[k] == '_'
    requires forall j | 0 <= j < k :: email[j] != '@'
    requires |last| + 1 + |email| <= |s| && s[..|last|] == last && s[|last|] == '_'
    requires forall m | 0 <= m < |email| :: s[|last| + 1 + m] == email[m]
    ensures !IdentifierSplit(s, p, t)
  {
    if IdentifierSplit(s, p, t) {
      NameEndsAtFirstUnderscore(s, last, p);
      var e := s[p + 1..t];
      forall m | 0 <= m < |e| && m < |email| ensures e[m] == email[m] {
        assert e[m] == s[|last| + 1 + m];
      }
      LocalUnderscoreNotEmailPart(e, email, k);
    }
  }

  /** An e-mail whose local part holds `_` cannot appear in an identifier:
      the local part of BOOKING_IDENTIFIER excludes `_`. */
  lemma UnderscoreInLocalPartBreaksIdentifier(last: string, email: string, digits: string, k: int)
    requires NameSpec(last)
    requires 0 <= k < |email| && email[k] == '_'
    requires forall j | 0 <= j < k :: email[j] != '@'
    ensures !IsBookingIdentifier(last + "_" + email + "_" + digits)
  {
    var s := last + "_" + email + "_" + digits;
    assert s[..|last|] == last;
    assert forall m | 0 <= m < |email| :: s[|last| + 1 + m] == email[m];
    forall p, t | 0 <= p < t < |s| ensures !IdentifierSplit(s, p, t) {
      NoSplitPastLocalUnderscore(s, last, email, k, p, t);
    }
  }

  // ------------------------------------------------------------ book and cancel

  /** Deleting an identifier's rows from a store extended by rows that all
      carry that identifier, when the store held none, restores the store. */
  lemma DeleteOwnRowsRestores(store: Store, rows: Store, id: string)
    requires forall row | row in rows :: row.bookingIdentifier == id
    requires forall row | row in store :: row.bookingIdentifier != id
    ensures DeleteAll(store + rows, FindByBookingIdentifier(store + rows, id)) == store
  {
    var found := FindByBookingIdentifier(store + rows, id);
    var p := (row: Reservation) => row !in found;
    FilterAppend(store, rows, p);
    FilterAll(store, p);
    FilterNone(rows, p);
  }

  /** A successful cancel deletes exactly the rows the identifier query
      returns. */
  lemma CancelDeletesFoundRows(env: Env, store: Store, email: Option<string>, bookingIdentifier: Option<string>)
    requires Cancel(env, store, email, bookingIdentifier).Success?
    ensures Cancel(env, store, email, bookingIdentifier).value
            == DeleteAll(store, FindByBookingIdentifier(store, bookingIdentifier.value))
  {
  }

  /** Cancelling rows that were appended under an identifier the store did
      not hold, with the e-mail they carry, restores the store. */
  lemma CancelAppendedRows(env: Env, store: Store, rows: Store, email: string, id: string)
    requires env.isValidEmail(email) && IsBookingIdentifier(id)
    requires |rows| > 0
    requires forall row | row in rows :: row.bookingIdentifier == id && row.email == email
    requires forall row | row in store :: row.bookingIdentifier != id
    ensures Cancel(env, store + rows, Some(email), Some(id)) == Success(store)
  {
    var after := store + rows;
    assert rows[0] in after;
    assert rows[0].reservationDate in IdentifierDates(after, id);
    CancelDeletesFoundRows(env, after, Some(email), Some(id));
    DeleteOwnRowsRestores(store, rows, id);
  }

  /** A successful booking appends rows that all carry the new identifier
      and the booker's e-mail. */
  lemma BookAppendsOwnRows(env: Env, store: Store, email: Option<string>, firstName: Option<string>,
                           lastName: Option<string>, arrival: Option<string>,
                           departure: Option<string>, suffix: nat)
    requires suffix < env.bookingIdSuffixBound
    requires Book(env, store, email, firstName, lastName, arrival, departure, suffix).Success?
    ensures var booking := Book(env, store, email, firstName, lastName, arrival, departure, suffix).value;
      var rows := booking.store[|store|..];
      && booking.store == store + rows && |rows| > 0
      && forall row | row in rows :: row.bookingIdentifier == booking.bookingIdentifier && row.email == email.value
  {
    var booking := Book(env, store, email, firstName, lastName, arrival, departure, suffix).value;
    var after := booking.store;
    var rows := after[|store|..];
    assert after == store + rows;
    forall row | row in rows
      ensures row.bookingIdentifier == booking.bookingIdentifier && row.email == email.value
    {
      var i :| 0 <= i < |rows| && rows[i] == row;
      assert after[|store| + i] == row;
    }
  }

  /** Cancelling a fresh booking with the booker's e-mail and the returned
      identifier gives back exactly the store before the booking. */
  lemma BookThenCancelRestoresStore(env: Env, store: Store, email: Option<string>, firstName: Option<string>,
                                    lastName: Option<string>, arrival: Option<string>,
                                    departure: Option<string>, suffix: nat)
    requires suffix < env.bookingIdSuffixBound
    requires Book(env, store, email, firstName, lastName, arrival, departure, suffix).Success?
    requires IsEmailPart(email.value) && suffix < Pow10(7)
    requires IdentifierDates(store, Book(env, store, email, firstName, lastName, arrival, departure, suffix)
                                      .value.bookingIdentifier) == {}
    ensures var booking := Book(env, store, email, firstName, lastName, arrival, departure, suffix).value;
      Cancel(env, booking.store, email, Some(booking.bookingIdentifier)) == Success(store)
  {
    var booking := Book(env, store, email, firstName, lastName, arrival, departure, suffix).value;
    var id := booking.bookingIdentifier;
    var user := User(firstName.value, lastName.value, email.value);
    assert id == GenerateBookingIdentifier(user, suffix);
    GeneratedIdentifierAccepted(user, suffix);
    BookAppendsOwnRows(env, store, email, firstName, lastName, arrival, departure, suffix);
    assert forall row | row in store :: row.bookingIdentifier != id by {
      forall row | row in store ensures row.reservationDate in IdentifierDates(store, id) || row.bookingIdentifier != id {
      }
    }
    CancelAppendedRows(env, store, booking.store[|store|..], email.value, id);
  }

  /** A guest whose e-mail has `_` before the `@` can book, but the
      identifier they are given is refused by cancel (and, in the same way,
      by modify) as malformed. */
  lemma UnderscoreEmailBookingCannotBeCancelled(env: Env, store: Store, email: Option<string>,
                                                firstName: Option<string>, lastName: Option<string>,
                                                arrival: Option<string>, departure: Option<string>,
                                                suffix: nat, k: int)
    requires suffix < env.bookingIdSuffixBound
    requires Book(env, store, email, firstName, lastName, arrival, departure, suffix).Success?
    requires 0 <= k < |email.value| && email.value[k] == '_'
    requires forall j | 0 <= j < k :: email.value[j] != '@'
    ensures var booking := Book(env, store, email, firstName, lastName, arrival, departure, suffix).value;
      && Cancel(env, booking.store, email, Some(booking.bookingIdentifier)) == Failure(MalformedBookingIdentifier)
      && Modify(env, booking.store, email, arrival, departure, Some(booking.bookingIdentifier))
         == Failure(MalformedBookingIdentifier)
  {
    var booking := Book(env, store, email, firstName, lastName, arrival, departure, suffix).value;
    UnderscoreInLocalPartBreaksIdentifier(lastName.value, email.value, NatToDecimal(suffix), k);
  }

  // ------------------------------------------------------------ modify

  /** A well-formed modification of an existing booking whose new nights
      are all free succeeds, and its result is the diff of the parsed stay. */
  lemma ModifySucceeds(env: Env, store: Store, email: string, arrival: string, departure: string, id: string)
    returns (after: Store)
    requires env.isValidEmail(email) && IsBookingIdentifier(id)
    requires env.parseDate(arrival).Some? && env.parseDate(departure).Some?
    requires ValidateArrivalDate(env.today, env.parseDate(arrival).value, env.parseDate(departure).value).Pass?
    requires IdentifierDates(store, id) != {}
    requires NewNightsFree(store, id, env.parseDate(arrival).value, env.parseDate(departure).value)
    ensures Modify(env, store, Some(email), Some(arrival), Some(departure), Some(id)) == Success(after)
    ensures IsModificationOf(after, store, id, email, env.parseDate(arrival).value, env.parseDate(departure).value)
  {
    after := Modify(env, store, Some(email), Some(arrival), Some(departure), Some(id)).value;
  }

  /** A well-formed modification of an existing booking is refused as
      unavailable as soon as one new night is stored by anyone. */
  lemma ModifyRefusedWhenTaken(env: Env, store: Store, email: string, arrival: string, departure: string, id: string)
    requires env.isValidEmail(email) && IsBookingIdentifier(id)
    requires env.parseDate(arrival).Some? && env.parseDate(departure).Some?
    requires ValidateArrivalDate(env.today, env.parseDate(arrival).value, env.parseDate(departure).value).Pass?
    requires IdentifierDates(store, id) != {}
    requires !NewNightsFree(store, id, env.parseDate(arrival).value, env.parseDate(departure).value)
    ensures Modify(env, store, Some(email), Some(arrival), Some(departure), Some(id))
            == Failure(UnavailableReservationDates)
  {
  }

  /** After the diff, the identifier holds exactly the requested nights. */
  lemma DiffHoldsRequestedNights(store: Store, after: Store, id: string, email: string,
                                 arrival: Date, departure: Date, x: Date)
    requires IsModificationOf(after, store, id, email, arrival, departure)
    ensures x in IdentifierDates(after, id) <==> arrival <= x < departure
  {
    if arrival <= x < departure {
      if x in IdentifierDates(store, id) {
        var row :| row in store && row.bookingIdentifier == id && row.reservationDate == x;
        assert multiset(after)[row] >= multiset(store)[row] > 0;
        assert row in after;
      } else {
        var row := Reservation(x, id, email);
        assert multiset(after)[row] > 0;
        assert row in after;
      }
    }
    if x in IdentifierDates(after, id) {
      var row :| row in after && row.bookingIdentifier == id && row.reservationDate == x;
      DiffKeepsOnlyRequested(store, after, id, email, arrival, departure, row);
    }
  }

  /** Every row of the identifier after the diff is on a requested night. */
  lemma DiffKeepsOnlyRequested(store: Store, after: Store, id: string, email: string,
                               arrival: Date, departure: Date, row: Reservation)
    requires IsModificationOf(after, store, id, email, arrival, departure)
    requires row in after && row.bookingIdentifier == id
    ensures arrival <= row.reservationDate < departure
  {
    assert multiset(after)[row] == ExpectedCount(store, id, email, arrival, departure, row);
    assert row in store ==> row.reservationDate in IdentifierDates(store, id);
  }

  /** A modification leaves the identifier holding exactly the nights of
      the new stay. */
  lemma ModifyHoldsRequestedNights(env: Env, store: Store, email: Option<string>, arrival: Option<string>,
                                   departure: Option<string>, bookingIdentifier: Option<string>)
    requires Modify(env, store, email, arrival, departure, bookingIdentifier).Success?
    ensures var after := Modify(env, store, email, arrival, departure, bookingIdentifier).value;
      forall x :: x in IdentifierDates(after, bookingIdentifier.value) <==>
        ParseDate(env, arrival).value <= x < ParseDate(env, departure).value
  {
    var after := Modify(env, store, email, arrival, departure, bookingIdentifier).value;
    var a, d := ParseDate(env, arrival).value, ParseDate(env, departure).value;
    forall x ensures x in IdentifierDates(after, bookingIdentifier.value) <==> a <= x < d {
      DiffHoldsRequestedNights(store, after, bookingIdentifier.value, email.value, a, d, x);
    }
  }

  /** Under no double booking, a modification changes no other booking:
      the nights it gives up were held by the identifier alone. */
  lemma ModifyKeepsOtherBookings(env: Env, store: Store, email: Option<string>, arrival: Option<string>,
                                 departure: Option<string>, bookingIdentifier: Option<string>, row: Reservation)
    requires NoDoubleBooking(store)
    requires Modify(env, store, email, arrival, departure, bookingIdentifier).Success?
    requires row.bookingIdentifier != bookingIdentifier.value
    ensures multiset(Modify(env, store, email, arrival, departure, bookingIdentifier).value)[row]
            == multiset(store)[row]
  {
    var id := bookingIdentifier.value;
    if row.reservationDate in IdentifierDates(store, id) && row in store {
      var own :| own in store && own.bookingIdentifier == id && own.reservationDate == row.reservationDate;
      SameDateSameRow(store, own, row);
    }
  }

  /** The only rows a modification adds carry the modified identifier. */
  lemma ModifyAddsOnlyOwnRows(env: Env, store: Store, email: Option<string>, arrival: Option<string>,
                              departure: Option<string>, bookingIdentifier: Option<string>)
    requires Modify(env, store, email, arrival, departure, bookingIdentifier).Success?
    ensures var after := Modify(env, store, email, arrival, departure, bookingIdentifier).value;
      forall row | row in after && row.bookingIdentifier != bookingIdentifier.value :: row in store
  {
    var after := Modify(env, store, email, arrival, departure, bookingIdentifier).value;
    forall row | row in after && row.bookingIdentifier != bookingIdentifier.value ensures row in store {
      assert multiset(after)[row] > 0;
    }
  }

  /** When the store holds only the modified booking, the reserved nights
      afterwards are exactly the requested ones. */
  lemma ModifySoleBooking(env: Env, store: Store, email: Option<string>, arrival: Option<string>,
                          departure: Option<string>, bookingIdentifier: Option<string>)
    requires Modify(env, store, email, arrival, departure, bookingIdentifier).Success?
    requires forall row | row in store :: row.bookingIdentifier == bookingIdentifier.value
    ensures var after := Modify(env, store, email, arrival, departure, bookingIdentifier).value;
      forall x :: x in ReservedDates(after) <==>
        ParseDate(env, arrival).value <= x < ParseDate(env, departure).value
  {
    var after := Modify(env, store, email, arrival, departure, bookingIdentifier).value;
    ModifyHoldsRequestedNights(env, store, email, arrival, departure, bookingIdentifier);
    ModifyAddsOnlyOwnRows(env, store, email, arrival, departure, bookingIdentifier);
    assert forall x :: x in ReservedDates(after) <==> x in IdentifierDates(after, bookingIdentifier.value);
  }

  /** Modify does not check ownership: a stranger who adds a night to a
      booking stamps it with their own e-mail, after which the owner can no
      longer cancel it. */
  lemma ModifyByStrangerBlocksCancel(env: Env, store: Store, stranger: string, owner: string,
                                     arrival: Option<string>, departure: Option<string>, id: string, x: Date)
    requires Modify(env, store, Some(stranger), arrival, departure, Some(id)).Success?
    requires env.isValidEmail(owner) && owner != stranger
    requires ParseDate(env, arrival).value <= x < ParseDate(env, departure).value
    requires x !in IdentifierDates(store, id)
    ensures var after := Modify(env, store, Some(stranger), arrival, departure, Some(id)).value;
      Cancel(env, after, Some(owner), Some(id)) == Failure(ReservationDoesNotExist)
  {
    var after := Modify(env, store, Some(stranger), arrival, departure, Some(id)).value;
    var added := Reservation(x, id, stranger);
    assert multiset(after)[added] > 0;
    assert added in after;
  }
}
