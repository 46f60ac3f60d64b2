/** The validator: format checks on the raw (nullable) strings and the
    business rules on parsed dates.  A `Fail` is the exception the Kotlin
    validator throws; the first failing check wins. */
module InputValidator {
  import opened Wrappers
  import opened Context
  import opened ErrorMessages
  import opened DateUtil
  import opened RegexPatterns
  import RC = ReservationConstraints

  function ValidateEmailString(env: Env, email: Option<string>): (o: Outcome<ErrorMessage>)
    ensures o.Pass? <==> email.Some? && env.isValidEmail(email.value)
    ensures o.Fail? ==> o.error == MalformedEmail
  {
    if email.None? || !env.isValidEmail(email.value) then Fail(MalformedEmail) else Pass
  }

  function ValidateBookingIdentifier(id: Option<string>): (o: Outcome<ErrorMessage>)
    ensures o.Pass? <==> id.Some? && IsBookingIdentifier(id.value)
    ensures o.Fail? ==> o.error == MalformedBookingIdentifier
  {
    if id.None? || !IsBookingIdentifier(id.value) then Fail(MalformedBookingIdentifier) else Pass
  }

  /** The first name is judged before the last name; null is malformed. */
  function ValidateNameStrings(firstName: Option<string>, lastName: Option<string>): (o: Outcome<ErrorMessage>)
    ensures o.Pass? <==> firstName.Some? && NameSpec(firstName.value) && lastName.Some? && NameSpec(lastName.value)
    ensures !(firstName.Some? && NameSpec(firstName.value)) ==> o == Fail(MalformedFirstName)
    ensures (firstName.Some? && NameSpec(firstName.value) && !(lastName.Some? && NameSpec(lastName.value)))
      ==> o == Fail(MalformedLastName)
  {
    IsNameCorrect(if firstName.Some? then firstName.value else "");
    IsNameCorrect(if lastName.Some? then lastName.value else "");
    if firstName.None? || !IsName(firstName.value) then Fail(MalformedFirstName)
    else if lastName.None? || !IsName(lastName.value) then Fail(MalformedLastName)
    else Pass
  }

  /** The arrival string is judged before the departure string. */
  function ValidateStayDateString(env: Env, arrival: Option<string>, departure: Option<string>): (o: Outcome<ErrorMessage>)
    ensures o.Pass? <==> ParseDate(env, arrival).Some? && ParseDate(env, departure).Some?
    ensures ParseDate(env, arrival).None? ==> o == Fail(MalformedArrivalDate)
    ensures ParseDate(env, arrival).Some? && ParseDate(env, departure).None? ==> o == Fail(MalformedDepartureDate)
  {
    if arrival.None? || !IsValidDateString(env, arrival.value) then Fail(MalformedArrivalDate)
    else if departure.None? || !IsValidDateString(env, departure.value) then Fail(MalformedDepartureDate)
    else Pass
  }

  /** A single date parameter of an availability query. */
  function ValidateDateString(env: Env, date: Option<string>): (o: Outcome<ErrorMessage>)
    ensures o.Pass? <==> ParseDate(env, date).Some?
    ensures o.Fail? ==> o.error == MalformedDateParameter
  {
    if date.None? || !IsValidDateString(env, date.value) then Fail(MalformedDateParameter) else Pass
  }

  /** The stay-window rules, in the order the source checks them:
      past, too soon, equal dates, too far, reversed dates, too long. */
  function ValidateArrivalDate(today: Date, arrival: Date, departure: Date): (o: Outcome<ErrorMessage>)
    // the window that passes
    ensures o.Pass? <==> today + 1 <= arrival <= today + 31 && arrival < departure <= arrival + 3
    // which error each failing window reports
    ensures o == Fail(DateInThePast) <==> arrival < today
    ensures o == Fail(DateTooSoon) <==> arrival == today
    ensures o == Fail(DepartureDateTooSoon)
      <==> today + 1 <= arrival && (arrival == departure || (arrival <= today + 31 && arrival > departure))
    ensures o == Fail(DateTooFar) <==> arrival > today + 31 && arrival != departure
    ensures o == Fail(ReservationLimitReached) <==> today + 1 <= arrival <= today + 31 && departure > arrival + 3
    ensures o.Fail? ==> o.error in {DateInThePast, DateTooSoon, DepartureDateTooSoon, DateTooFar, ReservationLimitReached}
  {
    if IsArrivalDateInThePast(today, arrival) then Fail(DateInThePast)
    else if IsArrivalDateBeforeMinimum(today, arrival) then Fail(DateTooSoon)
    else if arrival == departure then Fail(DepartureDateTooSoon)
    else if IsArrivalDateTooFar(today, arrival) then Fail(DateTooFar)
    else if IsArrivalDateAfterDepartureDate(arrival, departure) then Fail(DepartureDateTooSoon)
    else if departure - arrival > RC.MaxDurationStay then Fail(ReservationLimitReached)
    else Pass
  }

  /** The looser window of an availability query: not in the past and not
      reversed.  No horizon, buffer or length limit. */
  function ValidateAvailabilityDates(today: Date, start: Date, end: Date): (o: Outcome<ErrorMessage>)
    ensures o.Pass? <==> today <= start <= end
    ensures o == Fail(DateInThePast) <==> start < today
    ensures o == Fail(DepartureDateTooSoon) <==> today <= start && start > end
  {
    if IsArrivalDateInThePast(today, start) then Fail(DateInThePast)
    else if IsArrivalDateAfterDepartureDate(start, end) then Fail(DepartureDateTooSoon)
    else Pass
  }

  /** Every stay window that passes also passes as an availability window. */
  lemma StayWindowIsAvailabilityWindow(today: Date, arrival: Date, departure: Date)
    requires ValidateArrivalDate(today, arrival, departure).Pass?
    ensures ValidateAvailabilityDates(today, arrival, departure).Pass?
  {
  }
}
