/** The numeric business constants of the campsite, in days. */
module ReservationConstraints {
  /** Longest stay, in nights.  The validator refers to it as
      MAX_DURATION_STAY while the enum declares MAX_ALLOWED_DURATION_STAY;
      both mean this value. */
  const MaxDurationStay: nat := 3
  /** Latest arrival, counted in days from today. */
  const MaxAdvanceReservationDate: nat := 31
  /** Earliest arrival, counted in days from today. */
  const MinReservationDateBuffer: nat := 1
}

/** The fourteen error identities the services raise.  Only the identity of
    each entry matters here; the human-readable text is not modelled. */
module ErrorMessages {
  datatype ErrorMessage =
    | MalformedDepartureDate
    | MalformedArrivalDate
    | MalformedDateParameter
    | MalformedEmail
    | MalformedFirstName
    | MalformedLastName
    | MalformedBookingIdentifier
    | ReservationDoesNotExist
    | UnavailableReservationDates
    | ReservationLimitReached
    | DateInThePast
    | DateTooFar
    | DateTooSoon
    | DepartureDateTooSoon
}

/** What the services take from the outside world: the current day, the
    ISO-8601 date parser, the third-party e-mail validator and the bound of
    the random booking suffix. */
module Context {
  import opened Wrappers

  /** Calendar days are counted from 1970-01-01. */
  type Date = int

  datatype Env = Env(
    today: Date,
    /** `LocalDate.parse`: `Some(day)` on success, `None` when it throws. */
    parseDate: string -> Option<Date>,
    /** The e-mail validator library, left uninterpreted. */
    isValidEmail: string -> bool,
    /** Exclusive upper bound of the random booking suffix. */
    bookingIdSuffixBound: int)

  /** A nullable string parameter, parsed as a date when present. */
  function ParseDate(env: Env, s: Option<string>): Option<Date>
  {
    if s.Some? then env.parseDate(s.value) else None
  }
}
