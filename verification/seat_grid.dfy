/** The seat universe of an airplane and the counting argument behind seat
    availability: bounds-checked tickets with unique (flight, row, seat)
    triples occupy distinct cells of a rows-by-seats grid, so a flight never
    holds more tickets than its airplane has seats. */
module SeatGrid {
  import opened Common
  import opened AirportModels
  import opened CartModels

  type Seat = (int, int)

  function Max0(x: int): nat {
    if x < 0 then 0 else x
  }

  /** Every (row, seat) pair the seat validator accepts for `a`. */
  function SeatUniverse(a: Airplane): set<Seat> {
    set r, s | 1 <= r <= a.rows && 1 <= s <= a.seatsInRow :: (r, s)
  }

  /** Seats 1..n of row `r`, built one seat at a time. */
  function RowCells(r: int, n: int): set<Seat>
    decreases n
  {
    if n <= 0 then {} else RowCells(r, n - 1) + {(r, n)}
  }

  /** Rows 1..rows of `seats` seats each, built one row at a time. */
  function GridCells(rows: int, seats: int): set<Seat>
    decreases rows
  {
    if rows <= 0 then {} else GridCells(rows - 1, seats) + RowCells(rows, seats)
  }

  lemma {:induction false} RowCellsMembers(r: int, n: int)
    ensures forall p :: p in RowCells(r, n) <==> p.0 == r && 1 <= p.1 <= n
    ensures |RowCells(r, n)| == Max0(n)
    decreases n
  {
    if n > 0 {
      RowCellsMembers(r, n - 1);
      assert (r, n) !in RowCells(r, n - 1);
    }
  }

  lemma {:induction false} GridCellsMembers(rows: int, seats: int)
    ensures forall p :: p in GridCells(rows, seats) <==> 1 <= p.0 <= rows && 1 <= p.1 <= seats
    decreases rows
  {
    if rows > 0 {
      GridCellsMembers(rows - 1, seats);
      RowCellsMembers(rows, seats);
    }
  }

  lemma {:induction false} GridCellsSize(rows: int, seats: int)
    ensures |GridCells(rows, seats)| == Max0(rows) * Max0(seats)
    decreases rows
  {
    if rows > 0 {
      GridCellsSize(rows - 1, seats);
      var lower := GridCells(rows - 1, seats);
      var top := RowCells(rows, seats);
      assert lower !! top by {
        GridCellsMembers(rows - 1, seats);
        RowCellsMembers(rows, seats);
      }
      RowCellsMembers(rows, seats);
      assert |lower + top| == |lower| + |top|;
      AddOneRow(rows, Max0(seats));
    }
  }

  lemma AddOneRow(rows: int, m: nat)
    requires rows > 0
    ensures Max0(rows) * m == Max0(rows - 1) * m + m
  {
    assert rows * m == (rows - 1) * m + m;
  }

  /** The comprehension-defined universe is the grid built row by row. */
  lemma UniverseIsGrid(a: Airplane)
    ensures SeatUniverse(a) == GridCells(a.rows, a.seatsInRow)
  {
    GridCellsMembers(a.rows, a.seatsInRow);
  }

  /** Capacity counts the seat universe exactly when neither dimension is
      negative; with a zero or negative dimension the universe is empty. */
  lemma CapacityIsSeatCount(a: Airplane)
    ensures |SeatUniverse(a)| == Max0(a.rows) * Max0(a.seatsInRow)
    ensures a.rows >= 0 && a.seatsInRow >= 0 ==> |SeatUniverse(a)| == a.Capacity()
    ensures a.rows <= 0 || a.seatsInRow <= 0 ==> SeatUniverse(a) == {}
  {
    UniverseIsGrid(a);
    GridCellsSize(a.rows, a.seatsInRow);
    if a.rows <= 0 || a.seatsInRow <= 0 {
      assert Max0(a.rows) * Max0(a.seatsInRow) == 0;
    } else {
      assert Max0(a.rows) * Max0(a.seatsInRow) == a.rows * a.seatsInRow;
    }
  }

  /** The universe is exactly the set of pairs the seat validator accepts. */
  lemma UniverseIsAcceptedSeats(a: Airplane, row: int, seat: int)
    ensures (row, seat) in SeatUniverse(a) <==> ValidateTicket(row, seat, a).None?
  {
  }

  /** The (row, seat) pairs taken on flight `f`. */
  function SoldSeats(tickets: seq<Ticket>, f: Id): set<Seat> {
    if |tickets| == 0 then {}
    else
      var last := tickets[|tickets| - 1];
      SoldSeats(tickets[..|tickets| - 1], f) + (if last.flight == f then {(last.row, last.seat)} else {})
  }

  lemma {:induction false} SoldSeatsMembers(tickets: seq<Ticket>, f: Id, p: Seat)
    ensures p in SoldSeats(tickets, f) <==>
            exists i :: 0 <= i < |tickets| && tickets[i].flight == f && (tickets[i].row, tickets[i].seat) == p
    decreases |tickets|
  {
    if |tickets| > 0 {
      var pre := tickets[..|tickets| - 1];
      SoldSeatsMembers(pre, f, p);
      assert forall i :: 0 <= i < |pre| ==> pre[i] == tickets[i];
    }
  }

  /** With unique triples, the ticket count of a flight is the number of
      distinct seats sold on it. */
  lemma {:induction false} CountIsSoldSeats(tickets: seq<Ticket>, f: Id)
    requires UniqueSlots(tickets)
    ensures CountOnFlight(tickets, f) == |SoldSeats(tickets, f)|
    decreases |tickets|
  {
    if |tickets| > 0 {
      var pre := tickets[..|tickets| - 1];
      UniquePrefix(tickets);
      CountIsSoldSeats(pre, f);
      LastSeatIsNew(tickets, f);
    }
  }

  lemma UniquePrefix(tickets: seq<Ticket>)
    requires |tickets| > 0 && UniqueSlots(tickets)
    ensures UniqueSlots(tickets[..|tickets| - 1])
    ensures forall i :: 0 <= i < |tickets| - 1 ==> !SameSlot(tickets[i], tickets[|tickets| - 1])
    ensures forall i :: 0 <= i < |tickets| - 1 ==> tickets[..|tickets| - 1][i] == tickets[i]
  {
    var pre := tickets[..|tickets| - 1];
    assert forall i :: 0 <= i < |pre| ==> pre[i] == tickets[i];
  }

  /** The seat of the last ticket is not among the seats sold before it. */
  lemma LastSeatIsNew(tickets: seq<Ticket>, f: Id)
    requires |tickets| > 0 && UniqueSlots(tickets)
    ensures var last := tickets[|tickets| - 1];
            last.flight == f ==> (last.row, last.seat) !in SoldSeats(tickets[..|tickets| - 1], f)
  {
    var pre := tickets[..|tickets| - 1];
    var last := tickets[|tickets| - 1];
    UniquePrefix(tickets);
    SoldSeatsMembers(pre, f, (last.row, last.seat));
  }

  /** Every ticket on flight `f` lies within airplane `a`. */
  predicate WithinAirplane(tickets: seq<Ticket>, f: Id, a: Airplane) {
    forall i :: 0 <= i < |tickets| && tickets[i].flight == f ==>
      ValidateTicket(tickets[i].row, tickets[i].seat, a).None?
  }

  /** Every seat sold on the flight lies in its airplane's universe. */
  lemma SoldSeatsWithinUniverse(tickets: seq<Ticket>, f: Id, a: Airplane)
    requires WithinAirplane(tickets, f, a)
    ensures SoldSeats(tickets, f) <= SeatUniverse(a)
  {
    forall p | p in SoldSeats(tickets, f)
      ensures p in SeatUniverse(a)
    {
      SoldSeatsMembers(tickets, f, p);
      var i :| 0 <= i < |tickets| && tickets[i].flight == f && (tickets[i].row, tickets[i].seat) == p;
      UniverseIsAcceptedSeats(a, p.0, p.1);
    }
  }

  /** The grid bound: bounds-checked tickets with unique triples put at most
      as many tickets on a flight as its airplane's grid has cells, and none
      at all when a dimension is zero or negative. */
  lemma TicketsWithinGrid(tickets: seq<Ticket>, f: Id, a: Airplane)
    requires UniqueSlots(tickets) && WithinAirplane(tickets, f, a)
    ensures CountOnFlight(tickets, f) <= |SeatUniverse(a)|
    ensures a.rows <= 0 || a.seatsInRow <= 0 ==> CountOnFlight(tickets, f) == 0
  {
    CountIsSoldSeats(tickets, f);
    SoldSeatsWithinUniverse(tickets, f, a);
    CapacityIsSeatCount(a);
    SubsetCardinality(SoldSeats(tickets, f), SeatUniverse(a));
  }

  /** The capacity bound: such tickets number at most `capacity` whenever
      the capacity is not negative. */
  lemma TicketsWithinCapacity(tickets: seq<Ticket>, f: Id, a: Airplane)
    requires UniqueSlots(tickets) && WithinAirplane(tickets, f, a)
    ensures a.Capacity() >= 0 ==> CountOnFlight(tickets, f) <= a.Capacity()
  {
    TicketsWithinGrid(tickets, f, a);
    CapacityIsSeatCount(a);
  }

  /** A valid store keeps every flight's tickets within its airplane. */
  lemma StoreTicketsWithinAirplane(store: TicketStore, f: Id)
    requires store.Valid() && f in store.flights
    ensures WithinAirplane(store.tickets, f, store.flights[f].airplane)
    ensures UniqueSlots(store.tickets)
  {
  }

  lemma SubsetCardinality<T>(a: set<T>, b: set<T>)
    requires a <= b
    ensures |a| <= |b|
  {
    assert b == a + (b - a);
  }
}
