/** The reference-data records of the `airport` application: airplane types,
    airplanes with their seat configuration, airports, routes with the
    source/destination integrity rule, crews and flights. Foreign keys are
    resolved: a route holds its two airport records, a flight its route and
    airplane. */
module AirportModels {
  import opened Common

  datatype AirplaneType = AirplaneType(id: Id, name: string)

  /** `rows` and `seatsInRow` are plain integer columns: nothing in the
      schema keeps them positive. */
  datatype Airplane = Airplane(
    id: Id,
    name: string,
    rows: int,
    seatsInRow: int,
    airplaneType: AirplaneType)
  {
    /** The `capacity` property: seats per row times rows. */
    function Capacity(): int {
      seatsInRow * rows
    }
  }

  /** Capacity is symmetric in the two dimensions and vanishes with either. */
  lemma CapacityOfDimensions(a: Airplane)
    ensures a.Capacity() == a.rows * a.seatsInRow
    ensures a.rows == 0 || a.seatsInRow == 0 ==> a.Capacity() == 0
    ensures a.rows > 0 && a.seatsInRow > 0 ==> a.Capacity() >= a.rows && a.Capacity() >= a.seatsInRow
    ensures a.rows >= 0 && a.seatsInRow >= 0 ==> a.Capacity() >= 0
  {
  }

  datatype Airport = Airport(id: Id, name: string, closestBigCity: string)

  datatype Route = Route(id: Id, source: Airport, destination: Airport, distance: int)

  /** The one message the route integrity rule raises. */
  const SameEndpointMessage: string := "Destination can't be the same with source"

  /** Which `ValidationError` class the caller passes as `error_to_raise`:
      the model layer's or the REST framework serializer layer's. */
  datatype ErrorClass = ModelValidationError | SerializerValidationError

  datatype RouteError = RouteError(errorClass: ErrorClass, message: string)

  /** Two airport records denote the same airport when their primary keys
      agree: Django compares saved model instances by primary key, not by
      their other fields. */
  predicate SameAirport(a: Airport, b: Airport) {
    a.id == b.id
  }

  /** `Route.validate_source_destination`: raises the given error class with
      the fixed message exactly when source and destination are one airport. */
  function ValidateSourceDestination(source: Airport, destination: Airport, errorClass: ErrorClass)
    : (r: Option<RouteError>)
    ensures r.Some? <==> SameAirport(source, destination)
    ensures r.Some? ==> r.value.errorClass == errorClass && r.value.message == SameEndpointMessage
  {
    if SameAirport(source, destination) then
      Some(RouteError(errorClass, SameEndpointMessage))
    else
      None
  }

  /** Two distinct airports pass the rule even when their names and cities are
      identical; one airport fails it against any copy of itself, even a copy
      whose other fields differ. */
  lemma IdentityNotFields(a: Airport, b: Airport, e: ErrorClass)
    ensures a.id != b.id ==> ValidateSourceDestination(a, b, e).None?
    ensures a.id == b.id ==> ValidateSourceDestination(a, b, e).Some?
    ensures ValidateSourceDestination(a, a, e) == Some(RouteError(e, SameEndpointMessage))
  {
  }

  /** `Route.clean`: the model-level validation, run by `full_clean`. */
  function CleanRoute(route: Route): (r: Option<RouteError>)
    ensures r.Some? <==> route.source.id == route.destination.id
    ensures r.Some? ==> r.value == RouteError(ModelValidationError, SameEndpointMessage)
  {
    ValidateSourceDestination(route.source, route.destination, ModelValidationError)
  }

  /** The persisted route table, keyed by primary key. */
  datatype RouteStore = RouteStore(routes: map<Id, Route>)
  {
    /** Every stored row sits under its own key and joins two distinct airports. */
    ghost predicate Valid() {
      forall id :: id in routes ==>
        routes[id].id == id && routes[id].source.id != routes[id].destination.id
    }
  }

  /** `Route.save`: `full_clean` runs first, so a route whose two endpoints are
      one airport is rejected and nothing is written; otherwise the row is
      inserted or, when its key is already present, overwritten. */
  function SaveRoute(store: RouteStore, route: Route): (r: Result<RouteStore, RouteError>)
    ensures r.Err? <==> route.source.id == route.destination.id
    ensures r.Err? ==> r.error == RouteError(ModelValidationError, SameEndpointMessage)
    ensures r.Ok? ==> route.id in r.value.routes && r.value.routes[route.id] == route
    ensures r.Ok? ==> forall id :: id in store.routes && id != route.id ==>
                        id in r.value.routes && r.value.routes[id] == store.routes[id]
    ensures r.Ok? ==> r.value.routes.Keys == store.routes.Keys + {route.id}
    ensures store.Valid() && r.Ok? ==> r.value.Valid()
  {
    match CleanRoute(route)
    case Some(e) => Err(e)
    case None => Ok(RouteStore(store.routes[route.id := route]))
  }

  /** Whatever sequence of creates and updates is attempted, a route store
      built by `SaveRoute` from an empty table never holds a route whose
      source and destination are one airport. */
  function SaveAll(store: RouteStore, attempts: seq<Route>): (r: RouteStore)
    requires store.Valid()
    ensures r.Valid()
    ensures forall id :: id in r.routes ==> r.routes[id].source.id != r.routes[id].destination.id
    ensures r.routes.Keys <= store.routes.Keys + set i | 0 <= i < |attempts| :: attempts[i].id
    decreases |attempts|
  {
    if |attempts| == 0 then store
    else
      var next := match SaveRoute(store, attempts[0])
                  case Ok(s) => s
                  case Err(_) => store;
      var r := SaveAll(next, attempts[1..]);
      assert forall i :: 0 <= i < |attempts| - 1 ==> attempts[1..][i] == attempts[i + 1];
      r
  }

  datatype Crew = Crew(id: Id, firstName: string, lastName: string)

  /** A scheduled flight. `crews` holds the primary keys of the assigned crew
      members (a many-to-many relation). No ordering between departure and
      arrival is enforced. */
  datatype Flight = Flight(
    id: Id,
    route: Route,
    airplane: Airplane,
    crews: set<Id>,
    departureTime: Timestamp,
    arrivalTime: Timestamp)
}
