/** The query-parameter filters of the flight, airport and airplane listings.
    Every filter keeps a subsequence of its input; a parameter that is absent
    or empty leaves the listing as it is. */
module AirportFilters {
  import opened Common
  import opened Text
  import opened AirportModels

  /** `r` is obtained from `s` by deleting elements, keeping the order of the
      rest. */
  predicate IsSubsequence<T(==)>(r: seq<T>, s: seq<T>)
    decreases |s|
  {
    if |r| == 0 then true
    else if |s| == 0 then false
    else if r[0] == s[0] then IsSubsequence(r[1..], s[1..])
    else IsSubsequence(r, s[1..])
  }

  /** The rows of `s` satisfying `p`, in their original order: what a
      `queryset.filter(...)` call returns. */
  function Keep<T(==,!new)>(s: seq<T>, p: T -> bool): (r: seq<T>)
    ensures forall x :: x in r <==> x in s && p(x)
    ensures forall i :: 0 <= i < |r| ==> p(r[i])
    ensures IsSubsequence(r, s)
    ensures |r| <= |s|
    ensures forall x :: multiset(r)[x] == (if p(x) then multiset(s)[x] else 0)
  {
    if |s| == 0 then []
    else
      var rest := Keep(s[1..], p);
      assert s == [s[0]] + s[1..];
      if p(s[0]) then [s[0]] + rest else rest
  }

  /** Filtering twice is filtering once by both conditions. */
  lemma {:induction false} KeepKeep<T(!new)>(s: seq<T>, p: T -> bool, q: T -> bool, pq: T -> bool)
    requires forall x :: pq(x) == (p(x) && q(x))
    ensures Keep(Keep(s, p), q) == Keep(s, pq)
  {
    if |s| > 0 {
      KeepKeep(s[1..], p, q, pq);
      var kp := Keep(s, p);
      if p(s[0]) {
        assert kp[1..] == Keep(s[1..], p);
      }
    }
  }

  /** Why a filter parameter was refused. */
  datatype FilterError =
    | RangeExpectsTwoValues
    | UnknownAirplane(airplane: Id)

  /** The row conditions of the three flight filters. */
  function OnRoute(source: Id, destination: Id): Flight -> bool {
    (f: Flight) => f.route.source.id == source && f.route.destination.id == destination
  }

  function DepartsAt(t: Timestamp): Flight -> bool {
    (f: Flight) => f.departureTime == t
  }

  function FlownBy(airplane: Id): Flight -> bool {
    (f: Flight) => f.airplane.id == airplane
  }

  /** `FlightFilter.route_filter`: the value is unpacked into exactly two
      airport ids, and the flights whose route runs from the first to the
      second are kept. */
  function RouteFilter(flights: seq<Flight>, value: seq<Id>): (r: Result<seq<Flight>, FilterError>)
    ensures r.Err? <==> |value| != 2
    ensures r.Ok? ==> forall f :: f in r.value <==>
              f in flights && f.route.source.id == value[0] && f.route.destination.id == value[1]
    ensures r.Ok? ==> IsSubsequence(r.value, flights)
  {
    if |value| != 2 then Err(RangeExpectsTwoValues)
    else
      var source, destination := value[0], value[1];
      Ok(Keep(flights, OnRoute(source, destination)))
  }

  /** The `departure_time` filter: exact timestamp equality. */
  function DepartureTimeFilter(flights: seq<Flight>, t: Timestamp): (r: seq<Flight>)
    ensures forall f :: f in r <==> f in flights && f.departureTime == t
    ensures IsSubsequence(r, flights)
  {
    Keep(flights, DepartsAt(t))
  }

  /** The `airplane` filter: the flights flown by that airplane. */
  function AirplaneIdFilter(flights: seq<Flight>, airplane: Id): (r: seq<Flight>)
    ensures forall f :: f in r <==> f in flights && f.airplane.id == airplane
    ensures IsSubsequence(r, flights)
  {
    Keep(flights, FlownBy(airplane))
  }

  /** The three optional parameters of a flight listing request. An absent
      parameter and an empty one are both `None`. */
  datatype FlightParams = FlightParams(
    routeDestination: Option<seq<Id>>,
    departureTime: Option<Timestamp>,
    airplane: Option<Id>)

  /** The condition a flight must meet under the given parameters. */
  predicate MatchesFlightParams(f: Flight, params: FlightParams)
    requires params.routeDestination.Some? ==> |params.routeDestination.value| == 2
  {
    && (params.routeDestination.Some? ==>
          f.route.source.id == params.routeDestination.value[0]
          && f.route.destination.id == params.routeDestination.value[1])
    && (params.departureTime.Some? ==> f.departureTime == params.departureTime.value)
    && (params.airplane.Some? ==> f.airplane.id == params.airplane.value)
  }

  function Matching(params: FlightParams): Flight -> bool
    requires params.routeDestination.Some? ==> |params.routeDestination.value| == 2
  {
    (f: Flight) => MatchesFlightParams(f, params)
  }

  /** `FlightFilter` as a whole: the form is validated first (a range of
      other than two values, or an airplane id with no airplane, fails the
      request); then every given filter narrows the listing. */
  function FilterFlights(flights: seq<Flight>, params: FlightParams, airplanes: set<Id>)
    : (r: Result<seq<Flight>, FilterError>)
    ensures r.Err? <==> (params.routeDestination.Some? && |params.routeDestination.value| != 2)
                        || (params.airplane.Some? && params.airplane.value !in airplanes)
    ensures r.Ok? ==> forall f :: f in r.value <==> f in flights && MatchesFlightParams(f, params)
    ensures r.Ok? ==> IsSubsequence(r.value, flights)
    ensures r.Ok? && params == FlightParams(None, None, None) ==> r.value == flights
  {
    if params.routeDestination.Some? && |params.routeDestination.value| != 2 then
      Err(RangeExpectsTwoValues)
    else if params.airplane.Some? && params.airplane.value !in airplanes then
      Err(UnknownAirplane(params.airplane.value))
    else
      KeepAll(flights, Matching(params));
      Ok(Keep(flights, Matching(params)))
  }

  /** A condition every row meets removes nothing. */
  lemma {:induction false} KeepAll<T(!new)>(s: seq<T>, p: T -> bool)
    ensures (forall i :: 0 <= i < |s| ==> p(s[i])) ==> Keep(s, p) == s
  {
    if |s| > 0 {
      KeepAll(s[1..], p);
    }
  }

  /** Two conditions that agree on every row keep the same rows. */
  lemma {:induction false} KeepCongruent<T(!new)>(s: seq<T>, p: T -> bool, q: T -> bool)
    requires forall i :: 0 <= i < |s| ==> p(s[i]) == q(s[i])
    ensures Keep(s, p) == Keep(s, q)
  {
    if |s| > 0 {
      KeepCongruent(s[1..], p, q);
    }
  }

  /** With all three parameters given and valid, the flight filter is the
      route filter, then the departure filter, then the airplane filter. */
  lemma FilterFlightsIsComposition(flights: seq<Flight>, route: seq<Id>, t: Timestamp, plane: Id, airplanes: set<Id>)
    requires |route| == 2 && plane in airplanes
    ensures FilterFlights(flights, FlightParams(Some(route), Some(t), Some(plane)), airplanes)
            == Ok(AirplaneIdFilter(DepartureTimeFilter(RouteFilter(flights, route).value, t), plane))
  {
    var params := FlightParams(Some(route), Some(t), Some(plane));
    var pr, pt, pa := OnRoute(route[0], route[1]), DepartsAt(t), FlownBy(plane);
    var both := (x: Flight) => pr(x) && pt(x);
    var all := (x: Flight) => both(x) && pa(x);
    var r1 := Keep(flights, pr);
    assert RouteFilter(flights, route).value == r1;
    var r2 := Keep(r1, pt);
    assert DepartureTimeFilter(r1, t) == r2;
    KeepKeep(flights, pr, pt, both);
    assert r2 == Keep(flights, both);
    var r3 := Keep(r2, pa);
    assert AirplaneIdFilter(r2, plane) == r3;
    KeepKeep(flights, both, pa, all);
    assert r3 == Keep(flights, all);
    KeepCongruent(flights, Matching(params), all);
    assert Keep(flights, Matching(params)) == r3;
  }

  /** `AirportFilter.closest_big_city`: the airports whose city equals the
      query up to letter case. */
  function FilterAirportsByCity(airports: seq<Airport>, city: Option<string>): (r: seq<Airport>)
    ensures city.None? || city == Some("") ==> r == airports
    ensures city.Some? && city.value != "" ==>
              forall a :: a in r <==> a in airports && IExact(a.closestBigCity, city.value)
    ensures IsSubsequence(r, airports)
  {
    if city.None? || city.value == "" then
      IsSubsequenceReflexive(airports);
      airports
    else
      Keep(airports, (a: Airport) => IExact(a.closestBigCity, city.value))
  }

  /** `AirplaneFilter.airplane_type`: the airplanes whose type name contains
      the query, ignoring letter case. */
  function FilterAirplanesByType(airplanes: seq<Airplane>, typeName: Option<string>): (r: seq<Airplane>)
    ensures typeName.None? || typeName == Some("") ==> r == airplanes
    ensures typeName.Some? ==>
              forall a :: a in r <==> a in airplanes && IContains(a.airplaneType.name, typeName.value)
    ensures IsSubsequence(r, airplanes)
  {
    if typeName.None? || typeName.value == "" then
      IsSubsequenceReflexive(airplanes);
      forall a | a in airplanes ensures IContains(a.airplaneType.name, "") {
        IContainsReflexiveAndEmpty(a.airplaneType.name, "");
      }
      airplanes
    else
      Keep(airplanes, (a: Airplane) => IContains(a.airplaneType.name, typeName.value))
  }

  lemma {:induction false} IsSubsequenceReflexive<T>(s: seq<T>)
    ensures IsSubsequence(s, s)
  {
    if |s| > 0 {
      IsSubsequenceReflexive(s[1..]);
    }
  }

  /** A subsequence of a subsequence is a subsequence. */
  lemma {:induction false} SubsequenceTransitive<T>(a: seq<T>, b: seq<T>, c: seq<T>)
    requires IsSubsequence(a, b) && IsSubsequence(b, c)
    ensures IsSubsequence(a, c)
    decreases |c|
  {
    if |a| > 0 && |c| > 0 {
      if b[0] == c[0] {
        if a[0] == b[0] {
          SubsequenceTransitive(a[1..], b[1..], c[1..]);
        } else {
          SubsequenceTransitive(a, b[1..], c[1..]);
          SubsequenceDropHead(a, c);
        }
      } else {
        SubsequenceTransitive(a, b, c[1..]);
        SubsequenceDropHead(a, c);
      }
    }
  }

  /** A subsequence of the tail is a subsequence of the whole. */
  lemma {:induction false} SubsequenceDropHead<T>(a: seq<T>, c: seq<T>)
    requires |c| > 0 && IsSubsequence(a, c[1..])
    ensures IsSubsequence(a, c)
    decreases |c|, 0
  {
    if |a| > 0 && a[0] == c[0] {
      SubsequenceDropFirst(a, c[1..]);
    }
  }

  /** Dropping the first element keeps a subsequence a subsequence. */
  lemma {:induction false} SubsequenceDropFirst<T>(a: seq<T>, s: seq<T>)
    requires |a| > 0 && IsSubsequence(a, s)
    ensures IsSubsequence(a[1..], s)
    decreases |s|, 1
  {
    if a[0] == s[0] {
      SubsequenceDropHead(a[1..], s);
    } else {
      SubsequenceDropFirst(a, s[1..]);
      SubsequenceDropHead(a[1..], s);
    }
  }
}
