# Airport booking service — a Dafny model of its domain rules

This project models the booking rules of a Django REST service that sells seats on flights.

- **Reference data.** Airplanes have a seat grid of `rows` by `seats_in_row` and a derived `capacity`. Airports are identified by primary key. A route joins two different airports. A flight flies one airplane over one route and has a crew.
- **Cart.** Orders belong to users. Tickets claim one (row, seat) of one flight within an order.
- **Ticket rules.**
  - The seat validator checks the row first, then the seat, and reports the first dimension that is out of range.
  - The ticket table holds at most one ticket per (flight, row, seat).
  - Tickets are listed in (row, seat) order.
- **Read side.**
  - Each flight listing row is annotated with `route_full_name` and `available_tickets`.
  - Each crew row is annotated with `flights_count`.
  - Every viewset picks a serializer variant from the action.
  - The list and detail serializers render airplanes and routes in different shapes.
  - The query-parameter filters narrow the flight, airport, airplane and order listings.

The records are immutable datatypes and every rule is a pure function. Two stores stand in for the database: a route table and a ticket table. Each has a validity predicate that its save operation preserves. Foreign keys are resolved in place: a route holds its airports, and a flight holds its route and airplane.

The central proof is in `SeatGrid`. It runs as follows:

1. The cells the seat validator accepts form a grid of `max(0, rows) * max(0, seats_in_row)` cells. When neither dimension is negative, that is `rows * seats_in_row`, the capacity.
2. With unique (flight, row, seat) triples, the tickets on a flight occupy distinct cells.
3. So a flight never holds more tickets than its airplane has seats.
4. So, as long as the store is valid, `available_tickets` is non-negative whenever the capacity is. When, in addition, neither dimension is negative, it equals the number of unsold cells of the grid.

The ticket checks run only when a ticket is saved. Airplanes and flights can still be updated afterwards. A flight moved to a smaller airplane can therefore hold tickets outside the new grid. `AirportViews.ShrunkAirplaneGivesNegativeAvailability` shows such a store, which is no longer valid, with `available_tickets` equal to -1.

`rows` and `seats_in_row` are plain integer columns, so a negative dimension is accepted. `AirportViews.NegativeRowsGiveNegativeAvailability` shows a valid store in which `available_tickets` is -3. With both dimensions negative the capacity is positive while the grid is empty, so `available_tickets` is the capacity and not the number of unsold cells.

The seat validator reports only the first failing dimension: the row when both fail. It never reports both dimensions.

Modules, one per file: `Common`, `Text` (ASCII case folding, substring search, integer rendering), `AirportModels`, `CartModels`, `SeatGrid`, `AirportFilters`, `AirportSerializers`, `AirportViews`, `CartViews`.

## Model

| member | source | states |
|---|---|---|
| AirportModels.CapacityOfDimensions | airport/models.py:28-30 | capacity is rows times seats per row; it is 0 when either dimension is 0 and non-negative when both are |
| SeatGrid.CapacityIsSeatCount | airport/models.py:28-30 | the number of seats the validator accepts is max(0, rows) * max(0, seats_in_row); it equals capacity when neither dimension is negative, and the set is empty when either is zero or negative |
| SeatGrid.UniverseIsAcceptedSeats | cart/models.py:41 | a (row, seat) pair is in the airplane's seat universe exactly when the validator accepts it |
| AirportModels.ValidateSourceDestination | airport/models.py:63-68 | raises iff source and destination are the same airport (same primary key), with the caller's error class and the fixed message "Destination can't be the same with source" |
| AirportModels.IdentityNotFields | airport/models.py:65 | two distinct airports with identical names and cities form a valid route; one airport against any copy of itself is rejected |
| AirportModels.CleanRoute | airport/models.py:70-76 | model-level clean rejects exactly the routes whose endpoints are one airport, with the model error class |
| AirportModels.SaveRoute | airport/models.py:78-86 | save runs the validation first: a same-endpoint route is refused; otherwise the route is stored under its key with source, destination and distance unchanged, other rows are untouched, and table validity is preserved on both create and update |
| AirportModels.SaveAll | airport/models.py:78-86 | over any sequence of create/update attempts, the route table never holds a route whose source is its destination |
| CartModels.RangeMessage | cart/models.py:42-48 | the error message is the field name, "number must be in available range: (1, ", the airplane attribute's name, "): (1, ", then a decimal numeral that parses back to the airplane's count, then ")" |
| Text.IntToDecimalRoundTrip | cart/models.py:45-46 | the count rendered into the message reads back as that count, negative counts included |
| CartModels.FirstOutOfRange | cart/models.py:36-49 | the check loop fails iff some check is out of range, and then reports the first failing check, keyed by its field name |
| CartModels.ValidateTicket | cart/models.py:35-49 | accepts iff 1 <= row <= rows and 1 <= seat <= seats_in_row; a bad row is reported under "row" whatever the seat; a bad seat with a good row is reported under "seat" |
| CartModels.RowReportedFirst | cart/models.py:36-49 | when both dimensions are out of range, only the row is reported |
| CartModels.EmptyAirplaneAdmitsNothing | cart/models.py:41 | an airplane with rows <= 0 or seats_in_row <= 0 admits no ticket |
| CartModels.FindBooked | cart/models.py:70 | the scan reports true exactly when a stored ticket already has the (flight, row, seat) triple |
| CartModels.SaveTicket | cart/models.py:51-70 | a ticket with an unknown flight or order, out-of-range seat or already-booked triple is refused with the matching error (range before uniqueness); otherwise it is appended, and the bounds and uniqueness invariant of the store is preserved |
| CartModels.CountOnFlight | api/views/airport_views.py:173 | the per-flight ticket count is at most the table size and is zero iff no ticket is on that flight |
| CartModels.CountAfterAppend | api/views/airport_views.py:171-174 | appending a ticket raises its own flight's count by one and no other flight's |
| CartModels.OrderTickets | cart/models.py:71 | a ticket listing is sorted by (row, seat) and is a permutation of the input |
| CartModels.InsertByRowSeat | cart/models.py:71 | inserting into a (row, seat)-sorted listing keeps it sorted and adds exactly that ticket |
| SeatGrid.CountIsSoldSeats | cart/models.py:70 | with unique triples, a flight's ticket count equals the number of distinct seats sold on it |
| SeatGrid.SoldSeatsWithinUniverse | cart/models.py:41 | when every ticket on a flight passed the seat validator, every seat sold on it lies in its airplane's seat universe |
| SeatGrid.TicketsWithinGrid | cart/models.py:41-70 | bounds-checked tickets with unique triples put no more tickets on a flight than its airplane has valid seats, and none when a dimension is zero or negative |
| SeatGrid.TicketsWithinCapacity | cart/models.py:41-70 | such tickets number at most the airplane's capacity whenever the capacity is non-negative |
| AirportViews.AvailableTickets | api/views/airport_views.py:171-174 | available_tickets never exceeds the capacity, and equals it exactly when no ticket is sold on the flight |
| AirportViews.AvailableIsFreeSeats | api/views/airport_views.py:171-174 | in a valid store, when neither dimension is negative, available_tickets is the number of grid seats that no ticket of the flight holds |
| AirportViews.ShrunkAirplaneGivesNegativeAvailability | api/views/airport_views.py:171-174 | a store made invalid by giving a flight with two sold tickets a 1x1 airplane shows -1 available tickets |
| AirportViews.AvailableNonNegative | api/views/airport_views.py:171-174 | a stored flight's available_tickets is >= 0 whenever its capacity is >= 0, and equals the capacity when a dimension is zero or negative |
| AirportViews.NegativeRowsGiveNegativeAvailability | airport/models.py:17-18 | integer dimensions admit rows = -1, and then an unsold flight in a valid store shows -3 available tickets |
| AirportViews.AvailabilityAfterSale | api/views/airport_views.py:171-174 | in any ticket table, valid or not, after a ticket is appended on flight f, f's available_tickets drops by exactly one and every other flight's is unchanged |
| AirportViews.RouteFullName | api/views/airport_views.py:166-170 | the label splits into the source name, "->" and the destination name |
| AirportViews.FlightQuerySet | api/views/airport_views.py:157-176 | list and retrieve annotate every flight row with route_full_name and capacity minus tickets sold; other actions return the rows without annotations; rows keep their order |
| AirportViews.FlightSerializerFor | api/views/airport_views.py:150-155 | "list" gives the list variant, "retrieve" the detail variant, any other action the base serializer |
| AirportViews.AirplaneSerializerFor | api/views/airport_views.py:56-61 | the airplane viewset picks the same variant as the flight viewset for every action, although it checks retrieve before list |
| AirportViews.RouteSerializerFor | api/views/airport_views.py:111-116 | the route viewset, which also checks retrieve before list, picks the same variant as the flight viewset for every action |
| AirportViews.CrewSerializerFor | api/views/airport_views.py:130-133 | crews use the detail variant for list and retrieve, the base one otherwise, never a list variant |
| AirportViews.FlightsCount | api/views/airport_views.py:138 | flights_count is at most the number of flights listed, and is zero exactly when no listed flight has the crew member |
| AirportViews.FlightsCountIsAssignedFlights | api/views/airport_views.py:136-140 | over flights with distinct keys, flights_count is the number of distinct flights the crew member is assigned to |
| AirportViews.CrewQuerySet | api/views/airport_views.py:135-140 | list and retrieve annotate every crew row with its flights_count; other actions leave the rows unannotated |
| AirportFilters.Keep | api/filters/airport_filters.py:25-28 | a filter keeps exactly the rows meeting the condition, as an order-preserving subsequence of its input, with each kept row's multiplicity unchanged |
| AirportFilters.KeepKeep | api/filters/airport_filters.py:11-28 | two successive filters equal one filter by the conjunction of their conditions |
| AirportFilters.RouteFilter | api/filters/airport_filters.py:22-28 | fails unless exactly two ids are given; otherwise keeps exactly the flights whose route source id is the first and destination id the second, in order |
| AirportFilters.DepartureTimeFilter | api/filters/airport_filters.py:13-16 | keeps exactly the flights whose departure time equals the parameter, in order |
| AirportFilters.AirplaneIdFilter | api/filters/airport_filters.py:18-20 | keeps exactly the flights of that airplane, in order |
| AirportFilters.FilterFlights | api/filters/airport_filters.py:11-28 | the flight filter set fails on a range of other than two ids or on an unknown airplane; otherwise it keeps exactly the flights meeting every given parameter, and returns everything when none is given |
| AirportFilters.FilterFlightsIsComposition | api/filters/airport_filters.py:11-28 | with all three parameters, the filter set equals the route, departure and airplane filters applied in turn |
| AirportFilters.FilterAirportsByCity | api/filters/airport_filters.py:31-35 | keeps exactly the airports whose closest_big_city equals the query ignoring ASCII case; an absent or empty query keeps all |
| AirportFilters.FilterAirplanesByType | api/filters/airport_filters.py:38-42 | keeps exactly the airplanes whose type name contains the query ignoring ASCII case; an absent or empty query keeps all |
| AirportFilters.SubsequenceTransitive | api/filters/airport_filters.py:25-28 | chained filters still yield a subsequence of the original listing |
| Text.IExactIsEquivalence | api/filters/airport_filters.py:31-35 | case-insensitive equality is reflexive, symmetric and transitive, and only relates strings of equal length |
| Text.ContainsIffOccurs | api/filters/airport_filters.py:38-42 | the substring search succeeds exactly when the needle occurs at some position of the haystack |
| AirportSerializers.AirplaneDetailExtendsBase | api/serializers/airport_serializers.py:18-41 | the detail field list is the base list followed by exactly "capacity", so the base list is a prefix of it |
| AirportSerializers.AirplaneRepr | api/serializers/airport_serializers.py:18-27 | the base airplane rendering has the declared fields in order and renders the type as its id |
| AirportSerializers.AirplaneListRepr | api/serializers/airport_serializers.py:30-34 | the list rendering has the same fields and renders the type as its name |
| AirportSerializers.AirplaneDetailRepr | api/serializers/airport_serializers.py:37-41 | the detail rendering has the base fields plus capacity (rows * seats_in_row) and nests the type as {id, name} |
| AirportSerializers.AirplaneVariantsShareScalars | api/serializers/airport_serializers.py:18-41 | all three airplane renderings agree on every field except airplane_type |
| AirportSerializers.AirplaneTypeRepr | api/serializers/airport_serializers.py:12-15 | an airplane type renders as exactly the fields id and name |
| AirportSerializers.AirportRepr | api/serializers/airport_serializers.py:44-51 | an airport renders as exactly the fields id, name and closest_big_city |
| AirportSerializers.RouteRepr | api/serializers/airport_serializers.py:64-71 | the base route rendering has id, source, destination and distance, with the airports as ids |
| AirportSerializers.RouteListRepr | api/serializers/airport_serializers.py:74-82 | the list route rendering replaces the airports by their names |
| AirportSerializers.RouteDetailRepr | api/serializers/airport_serializers.py:85-87 | the detail route rendering nests the full airports |
| AirportSerializers.ValidateRouteAttrs | api/serializers/airport_serializers.py:55-62 | a missing source (then destination) key fails; otherwise the attributes fail with the serializer error class iff source equals destination, and are returned unchanged when they pass |
| AirportSerializers.SerializerAgreesWithModel | api/serializers/airport_serializers.py:57-61 | the serializer and the model's clean accept and reject the same source/destination pairs with the same message |
| CartViews.OrderQuerySet | api/views/cart_views.py:25-37 | every listed order belongs to the requesting user; without created_at all their orders are listed; with it, exactly their orders created at that time, as a subsequence in the original order |
| CartViews.OrderSerializerFor | api/views/cart_views.py:39-42 | orders never use a detail variant; the list variant is used exactly for the "list" action |
| CartViews.OrderListMatchesFlightList | api/views/cart_views.py:39-42 | orders switch to their list serializer on exactly the action on which flights switch to theirs, and the two agree on every non-read action |
| CartViews.CreatedAtNarrows | api/views/cart_views.py:33-36 | the created_at parameter only removes orders from the user's listing, keeping the rest in order |
| CartViews.SaveData | api/views/cart_views.py:44-45 | save's keyword arguments are laid over the validated data: a keyword wins over a submitted field of the same name, every other submitted field is kept, and no other key appears |
| CartViews.PerformCreate | api/views/cart_views.py:44-45 | a created order is owned by the requesting user, whose id is passed to save as the `user` keyword |
| CartViews.OwnerComesFromRequest | api/views/cart_views.py:44-45 | a "user" field claimed in the payload is overridden by the requesting user, so payloads claiming different owners create the same order, and that order shows up in its creator's listing |
| CartViews.ClaimedOwnerIsOverridden | api/views/cart_views.py:44-45 | a payload claiming owner 5, sent by user 9, creates an order owned by 9 |

## Left out

- Concurrency: the database's composite unique constraint on (flight, row, seat) is modelled as a sequential scan-then-append on one ticket table. Interleaved transactions are not modelled.
- Creating an order together with its tickets atomically: the cart serializer that does this is not part of this model, so no all-or-nothing batch property is claimed.
- Arrival after departure: flights carry both timestamps, but nothing checks their order, matching the source.
- Timestamps are opaque integers. Parsing and formatting of `departure_time` and `created_at`, `auto_now_add` and time zones are left out; the creation time and the new primary key are parameters of `CartViews.PerformCreate`.
- Case-insensitive lookups use ASCII lowering, not full Unicode case folding.
- Query values are taken as already cleaned. The form layer's whitespace stripping of text parameters is not modelled. An absent parameter and an empty one are both `None`.
- Framework plumbing is left out: schema decorators, `select_related`/`prefetch_related`, permissions, pagination, routing, token views and the user model.
- Serializer classes are chosen as abstract variants (base, list, detail). The class names that the views import differ from those the serializer module defines, so names are not linked.
- The flight and order serializers and the plain airplane-type and airport viewsets are not modelled.
- Field-level cleaning by `full_clean` (`max_length`, type coercion) is not modelled.
- CartModels.SaveTicket: a missing flight or order is reported alone, before the range check. Django's `full_clean` would gather a missing-order error together with a range error in one error dictionary.
- Routes and airplanes are embedded in flights by value, so updating a stored route does not reach the flights that use it.
- Tickets are only created; the source has no update path for them.
- AirportViews.AvailableTickets: integers are unbounded. The database's integer column widths and its arithmetic for `seats_in_row * rows - Count("tickets")` are not modelled, so a product too large for a 32-bit column is not shown as an error. The same holds for `AirportViews.FlightQuerySet`.
- AirportFilters.FilterFlights: only the first error is reported. A route value without exactly two ids is reported alone, even when the airplane id is also unknown. The filter form would report every invalid field together.
- Updating an airplane's dimensions or a flight's airplane after tickets are sold is not modelled as an operation. The source revalidates tickets only when they are saved, so such an update can leave the ticket table invalid. The availability bounds are claimed only for valid stores.
- CartViews.PerformCreate: the order's tickets in the payload are carried but not saved. Their saving belongs to the cart serializer, which is not part of this model.
