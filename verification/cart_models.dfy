/** The `cart` application: orders, tickets, the seat-range validator, the
    ticket table with its (flight, row, seat) uniqueness constraint, and the
    default (row, seat) ordering of tickets. */
module CartModels {
  import opened Common
  import opened Text
  import opened AirportModels

  /** An order; `createdAt` is stamped by the database clock on insert. */
  datatype Order = Order(id: Id, createdAt: Timestamp, user: UserId)

  /** A ticket claims one (row, seat) of one flight, within one order. */
  datatype Ticket = Ticket(row: int, seat: int, flight: Id, order: Id)

  /** A ticket-level validation error: a one-entry error dictionary keyed by
      the failing field's name. */
  datatype SeatError = SeatError(field: string, message: string)

  /** One entry of the validator's check list: the ticket's value, the ticket
      field's name, the airplane attribute's name and that attribute's value. */
  datatype DimensionCheck = DimensionCheck(value: int, fieldName: string, airplaneAttr: string, count: int)
  {
    predicate InRange() {
      1 <= value <= count
    }
  }

  /** The f-string of the error: "<field> number must be in available range:
      (1, <attribute>): (1, <count>)". */
  function RangeMessage(d: DimensionCheck): (m: string)
    ensures exists digits :: ParseInt(digits) == Some(d.count)
              && m == d.fieldName + " number must be in available range: (1, " + d.airplaneAttr + "): (1, "
                      + digits + ")"
  {
    IntToDecimalRoundTrip(d.count);
    d.fieldName + " number must be in available range: (1, " + d.airplaneAttr + "): (1, "
    + IntToDecimal(d.count) + ")"
  }

  /** The checks in the order the validator visits them: row, then seat. */
  function Dimensions(row: int, seat: int, airplane: Airplane): seq<DimensionCheck> {
    [ DimensionCheck(row, "row", "rows", airplane.rows),
      DimensionCheck(seat, "seat", "seats_in_row", airplane.seatsInRow) ]
  }

  /** The loop of `validate_ticket`: the error of the first out-of-range
      check, or `None` when every check passes. */
  function FirstOutOfRange(checks: seq<DimensionCheck>): (r: Option<SeatError>)
    ensures r.None? <==> forall i :: 0 <= i < |checks| ==> checks[i].InRange()
    ensures r.Some? ==> exists i :: 0 <= i < |checks| && !checks[i].InRange()
                           && (forall j :: 0 <= j < i ==> checks[j].InRange())
                           && r.value == SeatError(checks[i].fieldName, RangeMessage(checks[i]))
  {
    if |checks| == 0 then None
    else if !checks[0].InRange() then
      Some(SeatError(checks[0].fieldName, RangeMessage(checks[0])))
    else
      var r := FirstOutOfRange(checks[1..]);
      assert forall i :: 1 <= i < |checks| ==> checks[1..][i - 1] == checks[i];
      if r.Some? then
        var i :| 0 <= i < |checks[1..]| && !checks[1..][i].InRange()
                 && (forall j :: 0 <= j < i ==> checks[1..][j].InRange())
                 && r.value == SeatError(checks[1..][i].fieldName, RangeMessage(checks[1..][i]));
        assert forall j :: 0 <= j < i + 1 ==> checks[j].InRange() by {
          forall j | 0 <= j < i + 1 ensures checks[j].InRange() {
            if j > 0 { assert checks[1..][j - 1] == checks[j]; }
          }
        }
        r
      else
        r
  }

  /** `Ticket.validate_ticket`: the row must lie in 1..rows and the seat in
      1..seats_in_row; the row is examined first and only the first failing
      dimension is reported. */
  function ValidateTicket(row: int, seat: int, airplane: Airplane): (r: Option<SeatError>)
    ensures r.None? <==> 1 <= row <= airplane.rows && 1 <= seat <= airplane.seatsInRow
    ensures !(1 <= row <= airplane.rows) ==>
              r == Some(SeatError("row", RangeMessage(DimensionCheck(row, "row", "rows", airplane.rows))))
    ensures 1 <= row <= airplane.rows && !(1 <= seat <= airplane.seatsInRow) ==>
              r == Some(SeatError("seat", RangeMessage(DimensionCheck(seat, "seat", "seats_in_row", airplane.seatsInRow))))
  {
    var checks := Dimensions(row, seat, airplane);
    var r := FirstOutOfRange(checks);
    assert checks[0].InRange() <==> 1 <= row <= airplane.rows;
    assert checks[1].InRange() <==> 1 <= seat <= airplane.seatsInRow;
    r
  }

  /** An airplane without rows or without seats admits no ticket at all. */
  lemma EmptyAirplaneAdmitsNothing(a: Airplane, row: int, seat: int)
    requires a.rows <= 0 || a.seatsInRow <= 0
    ensures ValidateTicket(row, seat, a).Some?
  {
  }

  /** When both dimensions are out of range, the error names the row only. */
  lemma RowReportedFirst(a: Airplane, row: int, seat: int)
    requires !(1 <= row <= a.rows) && !(1 <= seat <= a.seatsInRow)
    ensures ValidateTicket(row, seat, a).Some?
    ensures ValidateTicket(row, seat, a).value.field == "row"
    ensures ValidateTicket(row, seat, a).value.field != "seat"
  {
  }

  /** The unique key of the ticket table. */
  predicate SameSlot(a: Ticket, b: Ticket) {
    a.flight == b.flight && a.row == b.row && a.seat == b.seat
  }

  /** Some stored ticket already holds the (flight, row, seat) of `t`. */
  predicate Booked(tickets: seq<Ticket>, t: Ticket) {
    exists i :: 0 <= i < |tickets| && SameSlot(tickets[i], t)
  }

  /** No two stored tickets share a (flight, row, seat) triple. */
  predicate UniqueSlots(tickets: seq<Ticket>) {
    forall i, j :: 0 <= i < j < |tickets| ==> !SameSlot(tickets[i], tickets[j])
  }

  /** Why a ticket insert was refused. */
  datatype TicketError =
    | UnknownFlight(flight: Id)
    | UnknownOrder(order: Id)
    | OutOfRange(seatError: SeatError)
    | AlreadyBooked(flight: Id, row: int, seat: int)

  /** The flight table, the order table and the ticket table. */
  datatype TicketStore = TicketStore(flights: map<Id, Flight>, orders: map<Id, Order>, tickets: seq<Ticket>)
  {
    /** Every flight and order sits under its own key; every stored ticket
        references a stored flight and order, lies within its flight's
        airplane, and holds a triple no other ticket holds. */
    predicate Valid() {
      && (forall id :: id in flights ==> flights[id].id == id)
      && (forall id :: id in orders ==> orders[id].id == id)
      && (forall i :: 0 <= i < |tickets| ==>
            && tickets[i].flight in flights
            && tickets[i].order in orders
            && ValidateTicket(tickets[i].row, tickets[i].seat, flights[tickets[i].flight].airplane).None?)
      && UniqueSlots(tickets)
    }
  }

  /** Scans the ticket table for a ticket already holding the slot of `t`,
      as the `unique_together` check does before the insert. */
  method FindBooked(tickets: seq<Ticket>, t: Ticket) returns (found: bool)
    ensures found <==> Booked(tickets, t)
  {
    var i := 0;
    found := false;
    while i < |tickets|
      invariant 0 <= i <= |tickets|
      invariant found <==> exists k :: 0 <= k < i && SameSlot(tickets[k], t)
    {
      if SameSlot(tickets[i], t) {
        found := true;
      }
      i := i + 1;
    }
  }

  /** `Ticket.save`: `full_clean` resolves the references, runs `clean`
      (the seat-range validator) and then the uniqueness check, which Django
      skips once a field of the key already failed; only a ticket passing all
      of them is appended. */
  method SaveTicket(store: TicketStore, t: Ticket) returns (r: Result<TicketStore, TicketError>)
    ensures t.flight !in store.flights ==> r == Err(UnknownFlight(t.flight))
    ensures t.flight in store.flights && t.order !in store.orders ==> r == Err(UnknownOrder(t.order))
    ensures t.flight in store.flights && t.order in store.orders
            && ValidateTicket(t.row, t.seat, store.flights[t.flight].airplane).Some? ==>
              r == Err(OutOfRange(ValidateTicket(t.row, t.seat, store.flights[t.flight].airplane).value))
    ensures t.flight in store.flights && t.order in store.orders
            && ValidateTicket(t.row, t.seat, store.flights[t.flight].airplane).None?
            && Booked(store.tickets, t) ==>
              r == Err(AlreadyBooked(t.flight, t.row, t.seat))
    ensures r.Ok? <==> t.flight in store.flights && t.order in store.orders
                       && ValidateTicket(t.row, t.seat, store.flights[t.flight].airplane).None?
                       && !Booked(store.tickets, t)
    ensures r.Ok? ==> r.value == store.(tickets := store.tickets + [t])
    ensures store.Valid() && r.Ok? ==> r.value.Valid()
  {
    if t.flight !in store.flights {
      return Err(UnknownFlight(t.flight));
    }
    if t.order !in store.orders {
      return Err(UnknownOrder(t.order));
    }
    var rangeError := ValidateTicket(t.row, t.seat, store.flights[t.flight].airplane);
    if rangeError.Some? {
      return Err(OutOfRange(rangeError.value));
    }
    var taken := FindBooked(store.tickets, t);
    if taken {
      return Err(AlreadyBooked(t.flight, t.row, t.seat));
    }
    r := Ok(store.(tickets := store.tickets + [t]));
  }

  /** The number of tickets sold on flight `f`: what `Count("tickets")`
      aggregates for that flight. */
  function CountOnFlight(tickets: seq<Ticket>, f: Id): (n: nat)
    ensures n <= |tickets|
    ensures n == 0 <==> forall i :: 0 <= i < |tickets| ==> tickets[i].flight != f
  {
    if |tickets| == 0 then 0
    else
      var rest := CountOnFlight(tickets[..|tickets| - 1], f);
      assert forall i :: 0 <= i < |tickets| - 1 ==> tickets[..|tickets| - 1][i] == tickets[i];
      rest + (if tickets[|tickets| - 1].flight == f then 1 else 0)
  }

  /** Appending a ticket raises the count of its own flight by one and leaves
      every other flight's count alone. */
  lemma CountAfterAppend(tickets: seq<Ticket>, t: Ticket, f: Id)
    ensures CountOnFlight(tickets + [t], f) == CountOnFlight(tickets, f) + (if t.flight == f then 1 else 0)
  {
    assert (tickets + [t])[..|tickets|] == tickets;
  }

  /** The Meta ordering of tickets: by row, then by seat. */
  predicate RowSeatLeq(a: Ticket, b: Ticket) {
    a.row < b.row || (a.row == b.row && a.seat <= b.seat)
  }

  predicate SortedByRowSeat(ts: seq<Ticket>) {
    forall i, j :: 0 <= i < j < |ts| ==> RowSeatLeq(ts[i], ts[j])
  }

  /** Places `t` in front of the first ticket that sorts after it. */
  function InsertByRowSeat(t: Ticket, ts: seq<Ticket>): (r: seq<Ticket>)
    requires SortedByRowSeat(ts)
    ensures SortedByRowSeat(r)
    ensures multiset(r) == multiset(ts) + multiset{t}
    ensures forall i :: 0 <= i < |r| ==> r[i] == t || r[i] in ts
  {
    if |ts| == 0 then [t]
    else if RowSeatLeq(t, ts[0]) then [t] + ts
    else
      var rest := InsertByRowSeat(t, ts[1..]);
      InsertedTailIsSorted(t, ts, rest);
      assert ts == [ts[0]] + ts[1..];
      [ts[0]] + rest
  }

  lemma InsertedTailIsSorted(t: Ticket, ts: seq<Ticket>, rest: seq<Ticket>)
    requires |ts| > 0 && SortedByRowSeat(ts) && !RowSeatLeq(t, ts[0])
    requires SortedByRowSeat(rest)
    requires forall i :: 0 <= i < |rest| ==> rest[i] == t || rest[i] in ts[1..]
    ensures SortedByRowSeat([ts[0]] + rest)
  {
    var r := [ts[0]] + rest;
    forall i, j | 0 <= i < j < |r| ensures RowSeatLeq(r[i], r[j]) {
      if i == 0 {
        assert r[j] == rest[j - 1];
        if rest[j - 1] != t {
          var k :| 0 <= k < |ts[1..]| && ts[1..][k] == rest[j - 1];
          assert ts[k + 1] == rest[j - 1];
        }
      } else {
        assert r[i] == rest[i - 1] && r[j] == rest[j - 1];
      }
    }
  }

  /** A ticket listing in the default order: the same tickets, each as often
      as before, sorted by (row, seat). */
  function OrderTickets(ts: seq<Ticket>): (r: seq<Ticket>)
    ensures SortedByRowSeat(r)
    ensures multiset(r) == multiset(ts)
    ensures |r| == |ts|
  {
    if |ts| == 0 then []
    else
      assert ts == [ts[0]] + ts[1..];
      InsertByRowSeat(ts[0], OrderTickets(ts[1..]))
  }
}
