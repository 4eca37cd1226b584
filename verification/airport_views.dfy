/** The read side of the `airport` viewsets: which serializer variant each
    action uses, the `route_full_name` and `available_tickets` annotations of
    the flight listing, and the `flights_count` annotation of crews. */
module AirportViews {
  import opened Common
  import opened AirportModels
  import opened CartModels
  import opened SeatGrid

  /** The base serializer of a viewset, its list variant, or its detail
      variant. */
  datatype SerializerVariant = BaseVariant | ListVariant | DetailVariant

  const ListAction: string := "list"
  const RetrieveAction: string := "retrieve"

  predicate IsReadAction(action: string) {
    action == ListAction || action == RetrieveAction
  }

  /** `FlightViewSet.get_serializer_class`. */
  function FlightSerializerFor(action: string): (v: SerializerVariant)
    ensures v == ListVariant <==> action == ListAction
    ensures v == DetailVariant <==> action == RetrieveAction
    ensures v == BaseVariant <==> !IsReadAction(action)
  {
    if action == ListAction then ListVariant
    else if action == RetrieveAction then DetailVariant
    else BaseVariant
  }

  /** `AirplaneViewSet.get_serializer_class` tests `retrieve` first; for these
      two distinct action names the order of the tests does not matter. */
  function AirplaneSerializerFor(action: string): (v: SerializerVariant)
    ensures v == FlightSerializerFor(action)
  {
    if action == RetrieveAction then DetailVariant
    else if action == ListAction then ListVariant
    else BaseVariant
  }

  /** `RouteViewSet.get_serializer_class`, which also tests `retrieve`
      before `list`. */
  function RouteSerializerFor(action: string): (v: SerializerVariant)
    ensures v == FlightSerializerFor(action)
  {
    if action == RetrieveAction then DetailVariant
    else if action == ListAction then ListVariant
    else BaseVariant
  }

  /** `CrewViewSet.get_serializer_class`: both read actions use the detail
      variant; there is no list variant. */
  function CrewSerializerFor(action: string): (v: SerializerVariant)
    ensures v != ListVariant
    ensures v == DetailVariant <==> IsReadAction(action)
  {
    if IsReadAction(action) then DetailVariant else BaseVariant
  }

  /** The route label: source name, an arrow, destination name. */
  function RouteFullName(route: Route): (full: string)
    ensures |full| == |route.source.name| + 2 + |route.destination.name|
    ensures full[..|route.source.name|] == route.source.name
    ensures full[|route.source.name|..|route.source.name| + 2] == "->"
    ensures full[|route.source.name| + 2..] == route.destination.name
  {
    route.source.name + "->" + route.destination.name
  }

  /** Seats per row times rows, minus the tickets sold on the flight. */
  function AvailableTickets(flight: Flight, tickets: seq<Ticket>): (a: int)
    ensures a <= flight.airplane.Capacity()
    ensures a == flight.airplane.Capacity() <==> forall i :: 0 <= i < |tickets| ==> tickets[i].flight != flight.id
  {
    flight.airplane.seatsInRow * flight.airplane.rows - CountOnFlight(tickets, flight.id)
  }

  /** The extra columns a read action adds to each flight row. */
  datatype FlightAnnotation = FlightAnnotation(routeFullName: string, availableTickets: int)

  datatype FlightRow = FlightRow(flight: Flight, annotation: Option<FlightAnnotation>)

  /** `FlightViewSet.get_queryset` over the flight rows of a listing: the read
      actions annotate every row, other actions return the rows bare. */
  function FlightQuerySet(action: string, flights: seq<Flight>, tickets: seq<Ticket>): (rows: seq<FlightRow>)
    ensures |rows| == |flights|
    ensures forall i :: 0 <= i < |rows| ==> rows[i].flight == flights[i]
    ensures forall i :: 0 <= i < |rows| ==> (rows[i].annotation.Some? <==> IsReadAction(action))
    ensures IsReadAction(action) ==> forall i :: 0 <= i < |rows| ==>
              rows[i].annotation.value.routeFullName == RouteFullName(flights[i].route)
              && rows[i].annotation.value.availableTickets
                 == flights[i].airplane.Capacity() - CountOnFlight(tickets, flights[i].id)
  {
    seq(|flights|, i requires 0 <= i < |flights| =>
      FlightRow(flights[i],
                if IsReadAction(action)
                then Some(FlightAnnotation(RouteFullName(flights[i].route), AvailableTickets(flights[i], tickets)))
                else None))
  }

  /** The availability of a stored flight is never negative while its
      capacity is not; an airplane with a zero or negative dimension has no
      ticket sold, so its availability is its capacity. */
  lemma AvailableNonNegative(store: TicketStore, f: Id)
    requires store.Valid() && f in store.flights
    ensures store.flights[f].airplane.Capacity() >= 0 ==> AvailableTickets(store.flights[f], store.tickets) >= 0
    ensures store.flights[f].airplane.rows <= 0 || store.flights[f].airplane.seatsInRow <= 0 ==>
              AvailableTickets(store.flights[f], store.tickets) == store.flights[f].airplane.Capacity()
  {
    StoreTicketsWithinAirplane(store, f);
    TicketsWithinGrid(store.tickets, f, store.flights[f].airplane);
    TicketsWithinCapacity(store.tickets, f, store.flights[f].airplane);
  }

  /** Nothing in the schema keeps the dimensions positive: an airplane with
      rows = -1 and 3 seats per row gives an unsold flight -3 available
      tickets. */
  lemma NegativeRowsGiveNegativeAvailability()
    ensures var plane := Airplane(1, "A", -1, 3, AirplaneType(1, "T"));
            var port1, port2 := Airport(1, "P", "C"), Airport(2, "Q", "D");
            var flight := Flight(1, Route(1, port1, port2, 100), plane, {}, 0, 1);
            var store := TicketStore(map[1 := flight], map[], []);
            store.Valid() && AvailableTickets(flight, store.tickets) == -3
  {
  }

  /** For a stored flight whose airplane has no negative dimension,
      `available_tickets` is the number of seats of the airplane's grid that
      no ticket of the flight holds. */
  lemma AvailableIsFreeSeats(store: TicketStore, f: Id)
    requires store.Valid() && f in store.flights
    requires store.flights[f].airplane.rows >= 0 && store.flights[f].airplane.seatsInRow >= 0
    ensures AvailableTickets(store.flights[f], store.tickets)
            == |SeatUniverse(store.flights[f].airplane) - SoldSeats(store.tickets, f)|
  {
    var a := store.flights[f].airplane;
    StoreTicketsWithinAirplane(store, f);
    CountIsSoldSeats(store.tickets, f);
    SoldSeatsWithinUniverse(store.tickets, f, a);
    CapacityIsSeatCount(a);
    var sold := SoldSeats(store.tickets, f);
    var universe := SeatUniverse(a);
    assert universe == sold + (universe - sold);
  }

  /** The ticket checks run only when a ticket is saved. Replacing a flight's
      airplane by a smaller one afterwards leaves sold tickets outside the new
      grid: the store is no longer valid and the flight shows -1 available
      tickets. */
  lemma ShrunkAirplaneGivesNegativeAvailability()
    ensures var port1, port2 := Airport(1, "P", "C"), Airport(2, "Q", "D");
            var route := Route(1, port1, port2, 100);
            var big := Airplane(1, "A", 2, 1, AirplaneType(1, "T"));
            var small := Airplane(1, "A", 1, 1, AirplaneType(1, "T"));
            var orders := map[1 := Order(1, 0, 7)];
            var tickets := [Ticket(1, 1, 1, 1), Ticket(2, 1, 1, 1)];
            var before := TicketStore(map[1 := Flight(1, route, big, {}, 0, 1)], orders, tickets);
            var after := TicketStore(map[1 := Flight(1, route, small, {}, 0, 1)], orders, tickets);
            before.Valid() && !after.Valid() && AvailableTickets(after.flights[1], after.tickets) == -1
  {
    var big := Airplane(1, "A", 2, 1, AirplaneType(1, "T"));
    var small := Airplane(1, "A", 1, 1, AirplaneType(1, "T"));
    var tickets := [Ticket(1, 1, 1, 1), Ticket(2, 1, 1, 1)];
    assert ValidateTicket(1, 1, big).None? && ValidateTicket(2, 1, big).None?;
    assert ValidateTicket(2, 1, small).Some?;
    assert tickets[..1] == [Ticket(1, 1, 1, 1)];
    assert CountOnFlight(tickets, 1) == 2;
  }

  /** A successful ticket sale on flight `t.flight` lowers that flight's
      availability by exactly one and leaves every other flight's as it was.
      This holds in any ticket table, including one an airplane update has
      left invalid, since the sale still goes through there. */
  lemma AvailabilityAfterSale(store: TicketStore, t: Ticket, after: TicketStore, g: Id)
    requires after.flights == store.flights && after.tickets == store.tickets + [t]
    requires g in store.flights && store.flights[g].id == g
    ensures g == t.flight ==>
              AvailableTickets(after.flights[g], after.tickets) == AvailableTickets(store.flights[g], store.tickets) - 1
    ensures g != t.flight ==>
              AvailableTickets(after.flights[g], after.tickets) == AvailableTickets(store.flights[g], store.tickets)
  {
    CountAfterAppend(store.tickets, t, g);
  }

  /** The number of flights of a listing that `crew` is assigned to: what
      `Count("flights")` aggregates over the many-to-many relation. */
  function FlightsCount(flights: seq<Flight>, crew: Id): (n: nat)
    ensures n <= |flights|
    ensures n == 0 <==> forall i :: 0 <= i < |flights| ==> crew !in flights[i].crews
  {
    if |flights| == 0 then 0
    else FlightsCount(flights[1..], crew) + (if crew in flights[0].crews then 1 else 0)
  }

  /** The primary keys of the flights `crew` is assigned to. */
  function AssignedFlights(flights: seq<Flight>, crew: Id): set<Id> {
    set i | 0 <= i < |flights| && crew in flights[i].crews :: flights[i].id
  }

  predicate DistinctIds(flights: seq<Flight>) {
    forall i, j :: 0 <= i < j < |flights| ==> flights[i].id != flights[j].id
  }

  /** Over a flight table with distinct keys, `flights_count` is the number
      of distinct flights the crew member is assigned to. */
  lemma {:induction false} FlightsCountIsAssignedFlights(flights: seq<Flight>, crew: Id)
    requires DistinctIds(flights)
    ensures FlightsCount(flights, crew) == |AssignedFlights(flights, crew)|
    decreases |flights|
  {
    if |flights| > 0 {
      var rest := flights[1..];
      DistinctTail(flights);
      FlightsCountIsAssignedFlights(rest, crew);
      AssignedSplit(flights, crew);
    }
  }

  lemma DistinctTail(flights: seq<Flight>)
    requires |flights| > 0 && DistinctIds(flights)
    ensures DistinctIds(flights[1..])
    ensures forall i :: 0 <= i < |flights| - 1 ==> flights[1..][i].id != flights[0].id
  {
    var rest := flights[1..];
    forall i, j | 0 <= i < j < |rest| ensures rest[i].id != rest[j].id {
      assert rest[i] == flights[i + 1] && rest[j] == flights[j + 1];
    }
    forall i | 0 <= i < |rest| ensures rest[i].id != flights[0].id {
      assert rest[i] == flights[i + 1];
    }
  }

  /** The first flight contributes its key, kept apart from the others'. */
  lemma AssignedSplit(flights: seq<Flight>, crew: Id)
    requires |flights| > 0 && DistinctIds(flights)
    ensures var head := if crew in flights[0].crews then {flights[0].id} else {};
            && AssignedFlights(flights, crew) == head + AssignedFlights(flights[1..], crew)
            && flights[0].id !in AssignedFlights(flights[1..], crew)
  {
    var rest := flights[1..];
    DistinctTail(flights);
    var head := if crew in flights[0].crews then {flights[0].id} else {};
    forall x | x in AssignedFlights(flights, crew) ensures x in head + AssignedFlights(rest, crew) {
      var i :| 0 <= i < |flights| && crew in flights[i].crews && flights[i].id == x;
      if i > 0 { assert rest[i - 1] == flights[i]; }
    }
    forall x | x in AssignedFlights(rest, crew) ensures x in AssignedFlights(flights, crew) {
      var i :| 0 <= i < |rest| && crew in rest[i].crews && rest[i].id == x;
      assert flights[i + 1] == rest[i];
    }
  }

  datatype CrewRow = CrewRow(crew: Crew, flightsCount: Option<nat>)

  /** `CrewViewSet.get_queryset`: the read actions annotate each crew member
      with their flight count; other actions return the rows bare. */
  function CrewQuerySet(action: string, crews: seq<Crew>, flights: seq<Flight>): (rows: seq<CrewRow>)
    ensures |rows| == |crews|
    ensures forall i :: 0 <= i < |rows| ==> rows[i].crew == crews[i]
    ensures forall i :: 0 <= i < |rows| ==> (rows[i].flightsCount.Some? <==> IsReadAction(action))
    ensures IsReadAction(action) ==> forall i :: 0 <= i < |rows| ==>
              rows[i].flightsCount.value == FlightsCount(flights, crews[i].id)
  {
    seq(|crews|, i requires 0 <= i < |crews| =>
      CrewRow(crews[i], if IsReadAction(action) then Some(FlightsCount(flights, crews[i].id)) else None))
  }
}
