/** The reservation rows and the derived queries of the repository, as pure
    functions over the sequence of stored rows.  A query that the framework
    derives from a method name ("find by date in a list") is given the
    set-membership meaning its name states. */
module ReservationRepository {
  import opened Context
  import opened Seqs

  /** One reserved night.  The generated row id is left out. */
  datatype Reservation = Reservation(reservationDate: Date, bookingIdentifier: string, email: string)

  /** The table, in insertion order. */
  type Store = seq<Reservation>

  /** The days that carry at least one row. */
  function ReservedDates(store: Store): set<Date>
  {
    set row | row in store :: row.reservationDate
  }

  /** The nights booked under `id`. */
  function IdentifierDates(store: Store, id: string): set<Date>
  {
    set row | row in store && row.bookingIdentifier == id :: row.reservationDate
  }

  /** The date of each row, in row order. */
  function DatesOf(rows: Store): (dates: seq<Date>)
    ensures |dates| == |rows|
    ensures forall i | 0 <= i < |rows| :: dates[i] == rows[i].reservationDate
    ensures forall x :: x in dates <==> exists row | row in rows :: row.reservationDate == x
  {
    var dates := seq(|rows|, i requires 0 <= i < |rows| => rows[i].reservationDate);
    assert forall row | row in rows :: row.reservationDate in dates by {
      forall row | row in rows ensures row.reservationDate in dates {
        var i :| 0 <= i < |rows| && rows[i] == row;
        assert dates[i] == row.reservationDate;
      }
    }
    dates
  }

  /** The campsite is one resource: no two rows share a date. */
  predicate NoDoubleBooking(store: Store)
  {
    forall i, j | 0 <= i < j < |store| :: store[i].reservationDate != store[j].reservationDate
  }

  /** `existsByBookingIdentifier` */
  function ExistsByBookingIdentifier(store: Store, id: string): (b: bool)
    ensures b <==> exists row | row in store :: row.bookingIdentifier == id
  {
    if |store| == 0 then false
    else store[0].bookingIdentifier == id || ExistsByBookingIdentifier(store[1..], id)
  }

  /** `findByBookingIdentifier`: every row carrying `id`, each as often as
      it is stored, and nothing else. */
  function FindByBookingIdentifier(store: Store, id: string): (r: Store)
    ensures forall row :: multiset(r)[row] == if row.bookingIdentifier == id then multiset(store)[row] else 0
    ensures forall row :: row in r <==> row in store && row.bookingIdentifier == id
  {
    Filter(store, (row: Reservation) => row.bookingIdentifier == id)
  }

  /** `existsByReservationDateIn` */
  function ExistsByReservationDateIn(store: Store, dates: seq<Date>): (b: bool)
    ensures b <==> exists row | row in store :: row.reservationDate in dates
  {
    if |store| == 0 then false
    else store[0].reservationDate in dates || ExistsByReservationDateIn(store[1..], dates)
  }

  /** `findByReservationDateIn`: the rows whose date is listed. */
  function FindByReservationDateIn(store: Store, dates: seq<Date>): (r: Store)
    ensures forall row :: multiset(r)[row] == if row.reservationDate in dates then multiset(store)[row] else 0
    ensures forall row :: row in r <==> row in store && row.reservationDate in dates
  {
    Filter(store, (row: Reservation) => row.reservationDate in dates)
  }

  /** `deleteByReservationDateIn`: drops every row whose date is listed,
      whoever holds it, and keeps every other row. */
  function DeleteByReservationDateIn(store: Store, dates: set<Date>): (r: Store)
    ensures forall row :: multiset(r)[row] == if row.reservationDate in dates then 0 else multiset(store)[row]
    ensures forall row :: row in r <==> row in store && row.reservationDate !in dates
  {
    Filter(store, (row: Reservation) => row.reservationDate !in dates)
  }

  /** `deleteAll(rows)`: drops the stored rows equal to a listed row. */
  function DeleteAll(store: Store, rows: Store): (r: Store)
    ensures forall row :: multiset(r)[row] == if row in rows then 0 else multiset(store)[row]
    ensures forall row :: row in r <==> row in store && row !in rows
  {
    Filter(store, (row: Reservation) => row !in rows)
  }

  /** `saveAll(rows)`: appends the rows; every stored row keeps its place. */
  function SaveAll(store: Store, rows: Store): (r: Store)
    ensures |r| == |store| + |rows| && r[..|store|] == store
  {
    store + rows
  }

  /** Saving adds one copy of each saved row to the stored ones. */
  lemma SaveAllCounts(store: Store, rows: Store, row: Reservation)
    ensures multiset(SaveAll(store, rows))[row] == multiset(store)[row] + multiset(rows)[row]
  {
  }

  /** The two queries by identifier agree. */
  lemma ExistsIffFindNonEmpty(store: Store, id: string)
    ensures ExistsByBookingIdentifier(store, id) <==> FindByBookingIdentifier(store, id) != []
  {
    var found := FindByBookingIdentifier(store, id);
    if ExistsByBookingIdentifier(store, id) {
      var row :| row in store && row.bookingIdentifier == id;
      assert row in found;
    }
  }

  /** An identifier exists exactly when it holds at least one night. */
  lemma ExistsIffHoldsNights(store: Store, id: string)
    ensures ExistsByBookingIdentifier(store, id) <==> IdentifierDates(store, id) != {}
  {
    if ExistsByBookingIdentifier(store, id) {
      var row :| row in store && row.bookingIdentifier == id;
      assert row.reservationDate in IdentifierDates(store, id);
    } else {
      assert forall x :: x !in IdentifierDates(store, id);
    }
  }

  /** The two queries by dates agree. */
  lemma ExistsIffFindNonEmptyByDates(store: Store, dates: seq<Date>)
    ensures ExistsByReservationDateIn(store, dates) <==> FindByReservationDateIn(store, dates) != []
  {
    var found := FindByReservationDateIn(store, dates);
    if ExistsByReservationDateIn(store, dates) {
      var row :| row in store && row.reservationDate in dates;
      assert row in found;
    }
  }

  /** Under no double booking, a date identifies its row. */
  lemma SameDateSameRow(store: Store, a: Reservation, b: Reservation)
    requires NoDoubleBooking(store)
    requires a in store && b in store && a.reservationDate == b.reservationDate
    ensures a == b
  {
    var i :| 0 <= i < |store| && store[i] == a;
    var j :| 0 <= j < |store| && store[j] == b;
  }

  /** Dropping the first row keeps a store free of double bookings. */
  lemma TailKeepsNoDoubleBooking(store: Store)
    requires |store| > 0 && NoDoubleBooking(store)
    ensures NoDoubleBooking(store[1..])
  {
    forall i, j | 0 <= i < j < |store[1..]|
      ensures store[1..][i].reservationDate != store[1..][j].reservationDate
    {
      assert store[1..][i] == store[i + 1] && store[1..][j] == store[j + 1];
    }
  }

  /** The first row's night is not held by any later row. */
  lemma HeadNightNotInTail(store: Store)
    requires |store| > 0 && NoDoubleBooking(store)
    ensures store[0].reservationDate !in ReservedDates(store[1..])
  {
    forall k | 0 <= k < |store[1..]| ensures store[1..][k].reservationDate != store[0].reservationDate {
      assert store[1..][k] == store[k + 1];
    }
  }

  /** Putting a row in front of a store that does not hold its night keeps
      it free of double bookings. */
  lemma ConsKeepsNoDoubleBooking(row: Reservation, rest: Store)
    requires NoDoubleBooking(rest) && row.reservationDate !in ReservedDates(rest)
    ensures NoDoubleBooking([row] + rest)
  {
    var r := [row] + rest;
    forall i, j | 0 <= i < j < |r| ensures r[i].reservationDate != r[j].reservationDate {
      if i == 0 {
        assert r[j] == rest[j - 1] && rest[j - 1] in rest;
      } else {
        assert r[i] == rest[i - 1] && r[j] == rest[j - 1];
      }
    }
  }

  /** Removing rows never creates a double booking. */
  lemma {:induction false} FilterKeepsNoDoubleBooking(store: Store, p: Reservation -> bool)
    requires NoDoubleBooking(store)
    ensures NoDoubleBooking(Filter(store, p))
  {
    if |store| > 0 {
      var rest := Filter(store[1..], p);
      TailKeepsNoDoubleBooking(store);
      FilterKeepsNoDoubleBooking(store[1..], p);
      if p(store[0]) {
        HeadNightNotInTail(store);
        assert ReservedDates(rest) <= ReservedDates(store[1..]);
        ConsKeepsNoDoubleBooking(store[0], rest);
      }
    }
  }

  /** `deleteAll` never creates a double booking. */
  lemma DeleteAllKeepsNoDoubleBooking(store: Store, rows: Store)
    ensures NoDoubleBooking(store) ==> NoDoubleBooking(DeleteAll(store, rows))
  {
    if NoDoubleBooking(store) {
      FilterKeepsNoDoubleBooking(store, (row: Reservation) => row !in rows);
    }
  }

  /** Appending rows on free, pairwise distinct dates keeps the store free
      of double bookings. */
  lemma SaveAllKeepsNoDoubleBooking(store: Store, rows: Store)
    requires NoDoubleBooking(store) && NoDoubleBooking(rows)
    requires forall row | row in rows :: row.reservationDate !in ReservedDates(store)
    ensures NoDoubleBooking(SaveAll(store, rows))
  {
    var r := SaveAll(store, rows);
    forall i, j | 0 <= i < j < |r| ensures r[i].reservationDate != r[j].reservationDate {
      if j >= |store| && i < |store| {
        assert r[j] == rows[j - |store|] && r[j] in rows;
        assert r[i] == store[i] && r[i] in store;
      } else if i >= |store| {
        assert r[i] == rows[i - |store|] && r[j] == rows[j - |store|];
      }
    }
  }
}
