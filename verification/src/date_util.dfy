/** The date predicates of the calendar utility, each measured against an
    explicit `today` instead of the system clock, and `datesUntil`. */
module DateUtil {
  import opened Wrappers
  import opened Context
  import opened Chars
  import opened Seqs
  import RC = ReservationConstraints

  /** `isValidDateString`: the parser accepts the string. */
  predicate IsValidDateString(env: Env, s: string)
  {
    env.parseDate(s).Some?
  }

  predicate IsArrivalDateInThePast(today: Date, arrival: Date)
  {
    arrival < today
  }

  predicate IsArrivalDateBeforeMinimum(today: Date, arrival: Date)
  {
    arrival < today + RC.MinReservationDateBuffer
  }

  predicate IsArrivalDateTooFar(today: Date, arrival: Date)
  {
    arrival > today + RC.MaxAdvanceReservationDate
  }

  predicate IsArrivalDateAfterDepartureDate(arrival: Date, departure: Date)
  {
    arrival > departure
  }

  /** A date in the past is also before the minimum buffer, so the buffer
      check subsumes the past check except for the error it reports. */
  lemma PastImpliesBeforeMinimum(today: Date, arrival: Date)
    requires IsArrivalDateInThePast(today, arrival)
    ensures IsArrivalDateBeforeMinimum(today, arrival)
  {
  }

  /** Today itself is too soon but not in the past; the last bookable day
      is today + 31; equal dates are not "after" one another. */
  lemma Boundaries(today: Date)
    ensures !IsArrivalDateInThePast(today, today) && IsArrivalDateBeforeMinimum(today, today)
    ensures !IsArrivalDateBeforeMinimum(today, today + 1)
    ensures !IsArrivalDateTooFar(today, today + 31) && IsArrivalDateTooFar(today, today + 32)
    ensures !IsArrivalDateAfterDepartureDate(today, today)
  {
  }

  /** `start.datesUntil(end)`: every day from `start` up to but excluding
      `end`.  The library throws when `end` precedes `start`; every caller
      has ruled that out by validation. */
  function DatesUntil(start: Date, end: Date): (r: seq<Date>)
    requires start <= end
    ensures |r| == end - start
    ensures forall i | 0 <= i < |r| :: r[i] == start + i
    decreases end - start
  {
    if start == end then [] else [start] + DatesUntil(start + 1, end)
  }

  /** The half-open range holds exactly the days `start <= x < end`. */
  lemma DatesUntilMembership(start: Date, end: Date, x: Date)
    requires start <= end
    ensures x in DatesUntil(start, end) <==> start <= x < end
  {
    if start <= x < end {
      assert DatesUntil(start, end)[x - start] == x;
    }
  }

  lemma DatesUntilIncreasing(start: Date, end: Date)
    requires start <= end
    ensures StrictlyIncreasing(DatesUntil(start, end))
  {
  }

  /** Every string `LocalDate.parse` accepts ends in `-MM-DD`: a dash, two
      digits, a dash, two digits, after a year of at least four digits.
      This is the only property of the parser the model relies on, and only
      in the lemmas that need a concrete rejected string. */
  predicate EndsInMonthAndDay(s: string)
  {
    && |s| >= 10
    && s[|s| - 6] == '-' && IsDigit(s[|s| - 5]) && IsDigit(s[|s| - 4])
    && s[|s| - 3] == '-' && IsDigit(s[|s| - 2]) && IsDigit(s[|s| - 1])
  }

  ghost predicate ParserRespectsIsoShape(env: Env)
  {
    forall s :: env.parseDate(s).Some? ==> EndsInMonthAndDay(s)
  }

  /** The letter O is not a digit, so "1970-O1-O1" is never a valid date. */
  lemma LetterOIsNotADate(env: Env)
    requires ParserRespectsIsoShape(env)
    ensures !IsValidDateString(env, "1970-O1-O1")
  {
    assert !EndsInMonthAndDay("1970-O1-O1");
  }

  /** The other letter-O dates of the service tests are never valid
      either. */
  lemma OtherLetterODatesAreNotDates(env: Env)
    requires ParserRespectsIsoShape(env)
    ensures !IsValidDateString(env, "1903-O9-o2") && !IsValidDateString(env, "1970-01-O1")
  {
    assert !EndsInMonthAndDay("1903-O9-o2") && !EndsInMonthAndDay("1970-01-O1");
  }
}
