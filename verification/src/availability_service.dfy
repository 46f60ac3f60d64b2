/** The two read-only availability queries.  Neither returns a store: they
    cannot change the reservations. */
module AvailabilityService {
  import opened Wrappers
  import opened Context
  import opened ErrorMessages
  import opened Seqs
  import opened DateUtil
  import opened ReservationRepository
  import opened InputValidator

  /** Every day of the half-open window, as a set. */
  lemma DatesUntilMembershipAll(start: Date, end: Date)
    requires start <= end
    ensures forall x :: x in DatesUntil(start, end) <==> start <= x < end
  {
    forall x ensures x in DatesUntil(start, end) <==> start <= x < end {
      DatesUntilMembership(start, end, x);
    }
  }

  /** `getTakenDates`: the dates of the stored rows inside the window. */
  function GetTakenDates(store: Store, start: Date, end: Date): (taken: seq<Date>)
    requires start <= end
    ensures forall x :: x in taken <==> start <= x < end && x in ReservedDates(store)
  {
    var window := DatesUntil(start, end);
    DatesUntilMembershipAll(start, end);
    DatesOf(FindByReservationDateIn(store, window))
  }

  /** `getFreeDates`: the window's days that are not taken, ascending. */
  function GetFreeDates(start: Date, end: Date, taken: seq<Date>): (free: seq<Date>)
    requires start <= end
    ensures StrictlyIncreasing(free)
    ensures forall x :: x in free <==> start <= x < end && x !in taken
  {
    var window := DatesUntil(start, end);
    DatesUntilMembershipAll(start, end);
    DatesUntilIncreasing(start, end);
    FilterKeepsIncreasing(window, (x: Date) => x !in taken);
    Filter(window, (x: Date) => x !in taken)
  }

  /** `listAvailableDates`: the free days of `[start, end)` in ascending
      order, after the start and end strings and the looser availability
      window have been validated. */
  function ListAvailableDates(env: Env, store: Store, start: Option<string>, end: Option<string>)
    : (r: Result<seq<Date>, ErrorMessage>)
    ensures ParseDate(env, start).None? ==> r == Failure(MalformedDateParameter)
    ensures ParseDate(env, start).Some? && ParseDate(env, end).None? ==> r == Failure(MalformedDateParameter)
    ensures ParseDate(env, start).Some? && ParseDate(env, end).Some? ==>
      var s, e := ParseDate(env, start).value, ParseDate(env, end).value;
      && (r.Success? <==> env.today <= s <= e)
      && (s < env.today ==> r == Failure(DateInThePast))
      && (env.today <= s && s > e ==> r == Failure(DepartureDateTooSoon))
      && (r.Success? ==>
            && StrictlyIncreasing(r.value)
            && forall x :: x in r.value <==> s <= x < e && x !in ReservedDates(store))
  {
    var startOk := ValidateDateString(env, start);
    if startOk.Fail? then Failure(startOk.error) else
    var endOk := ValidateDateString(env, end);
    if endOk.Fail? then Failure(endOk.error) else
    var s := ParseDate(env, start).value;
    var e := ParseDate(env, end).value;
    var window := ValidateAvailabilityDates(env.today, s, e);
    if window.Fail? then Failure(window.error) else
    var taken := GetTakenDates(store, s, e);
    Success(GetFreeDates(s, e, taken))
  }

  /** `isDateRangeAvailable`: after the full stay-window rules, whether no
      stored row falls in `[start, end)`. */
  function IsDateRangeAvailable(env: Env, store: Store, start: Option<string>, end: Option<string>)
    : (r: Result<bool, ErrorMessage>)
    ensures ParseDate(env, start).None? ==> r == Failure(MalformedDateParameter)
    ensures ParseDate(env, start).Some? && ParseDate(env, end).None? ==> r == Failure(MalformedDateParameter)
    ensures ParseDate(env, start).Some? && ParseDate(env, end).Some? ==>
      var s, e := ParseDate(env, start).value, ParseDate(env, end).value;
      && (r.Success? <==> env.today + 1 <= s <= env.today + 31 && s < e <= s + 3)
      && (r.Failure? ==> r.error == ValidateArrivalDate(env.today, s, e).error)
      && (r.Success? ==> (r.value <==> forall x | s <= x < e :: x !in ReservedDates(store)))
  {
    var startOk := ValidateDateString(env, start);
    if startOk.Fail? then Failure(startOk.error) else
    var endOk := ValidateDateString(env, end);
    if endOk.Fail? then Failure(endOk.error) else
    var s := ParseDate(env, start).value;
    var e := ParseDate(env, end).value;
    var window := ValidateArrivalDate(env.today, s, e);
    if window.Fail? then Failure(window.error) else
    var taken := GetTakenDates(store, s, e);
    assert |taken| > 0 ==> taken[0] in taken;
    Success(|taken| == 0)
  }

  /** Complement law: within the window, the free days and the taken days
      are disjoint and together make up the whole window. */
  lemma ComplementLaw(store: Store, start: Date, end: Date)
    requires start <= end
    ensures var free := GetFreeDates(start, end, GetTakenDates(store, start, end));
      var taken := GetTakenDates(store, start, end);
      && (forall x | x in free :: x !in taken)
      && (forall x :: start <= x < end <==> x in free || x in taken)
  {
  }

  /** The free list of a window is the window minus the reserved days. */
  lemma FreeDatesAreUnreservedDays(env: Env, store: Store, start: Option<string>, end: Option<string>)
    requires ListAvailableDates(env, store, start, end).Success?
    ensures var free := ListAvailableDates(env, store, start, end).value;
      (set x | x in free) == (set x | x in DatesUntil(ParseDate(env, start).value, ParseDate(env, end).value))
                             - ReservedDates(store)
  {
    var s, e := ParseDate(env, start).value, ParseDate(env, end).value;
    DatesUntilMembershipAll(s, e);
  }

  /** A window that starts and ends on the same (not past) day is not an
      error: it has no free day. */
  lemma EmptyWindowListsNothing(env: Env, store: Store, start: Option<string>, end: Option<string>)
    requires ParseDate(env, start).Some? && ParseDate(env, start) == ParseDate(env, end)
    requires env.today <= ParseDate(env, start).value
    ensures ListAvailableDates(env, store, start, end) == Success([])
  {
    EmptyOrHasHead(ListAvailableDates(env, store, start, end).value);
  }
}
