/** The serializers of the `airport` records: their field lists, the shape of
    the base, list and detail representations of airplanes and routes, and
    the route validation performed on incoming attributes. */
module AirportSerializers {
  import opened Common
  import opened AirportModels

  /** A rendered representation: an integer, a string, or an object whose
      entries keep the declared field order. */
  datatype Json = JInt(i: int) | JStr(s: string) | JObj(entries: seq<(string, Json)>)

  function Keys(entries: seq<(string, Json)>): (ks: seq<string>)
    ensures |ks| == |entries|
    ensures forall i :: 0 <= i < |entries| ==> ks[i] == entries[i].0
  {
    seq(|entries|, i requires 0 <= i < |entries| => entries[i].0)
  }

  /** The value of the first entry named `key`. */
  function Lookup(entries: seq<(string, Json)>, key: string): (r: Option<Json>)
    ensures r.None? <==> key !in Keys(entries)
  {
    if |entries| == 0 then None
    else if entries[0].0 == key then Some(entries[0].1)
    else
      assert Keys(entries) == [entries[0].0] + Keys(entries[1..]);
      Lookup(entries[1..], key)
  }

  /** An entry found at index `k`, with no earlier entry of that name, is
      the one looked up. */
  lemma {:induction false} LookupFound(entries: seq<(string, Json)>, k: nat, key: string)
    requires k < |entries| && entries[k].0 == key
    requires forall j :: 0 <= j < k ==> entries[j].0 != key
    ensures Lookup(entries, key) == Some(entries[k].1)
    decreases k
  {
    if k > 0 {
      LookupFound(entries[1..], k - 1, key);
    }
  }

  const AirplaneTypeFields: seq<string> := ["id", "name"]
  const AirplaneFields: seq<string> := ["id", "name", "rows", "seats_in_row", "airplane_type"]
  /** The detail variant lists the base fields, then the derived capacity. */
  const AirplaneDetailFields: seq<string> := AirplaneFields + ["capacity"]
  const AirportFields: seq<string> := ["id", "name", "closest_big_city"]
  const RouteFields: seq<string> := ["id", "source", "destination", "distance"]

  /** The base airplane field list is a proper prefix of the detail list,
      which adds exactly the `capacity` field. */
  lemma AirplaneDetailExtendsBase()
    ensures |AirplaneDetailFields| == |AirplaneFields| + 1
    ensures AirplaneDetailFields[..|AirplaneFields|] == AirplaneFields
    ensures AirplaneDetailFields[|AirplaneFields|] == "capacity"
    ensures "capacity" !in AirplaneFields
  {
  }

  function AirplaneTypeRepr(t: AirplaneType): (j: Json)
    ensures j.JObj? && Keys(j.entries) == AirplaneTypeFields
  {
    JObj([("id", JInt(t.id)), ("name", JStr(t.name))])
  }

  function AirportRepr(a: Airport): (j: Json)
    ensures j.JObj? && Keys(j.entries) == AirportFields
  {
    JObj([("id", JInt(a.id)), ("name", JStr(a.name)), ("closest_big_city", JStr(a.closestBigCity))])
  }

  /** The airplane fields other than `airplane_type`, in declared order. */
  function AirplaneHead(a: Airplane): seq<(string, Json)> {
    [("id", JInt(a.id)), ("name", JStr(a.name)), ("rows", JInt(a.rows)), ("seats_in_row", JInt(a.seatsInRow))]
  }

  /** `AirplaneSerializer`: the type is rendered as its primary key. */
  function AirplaneRepr(a: Airplane): (j: Json)
    ensures j.JObj? && Keys(j.entries) == AirplaneFields
    ensures Lookup(j.entries, "airplane_type") == Some(JInt(a.airplaneType.id))
  {
    var entries := AirplaneHead(a) + [("airplane_type", JInt(a.airplaneType.id))];
    LookupFound(entries, 4, "airplane_type");
    JObj(entries)
  }

  /** `AirplaneSerializerList`: the type is rendered as its name. */
  function AirplaneListRepr(a: Airplane): (j: Json)
    ensures j.JObj? && Keys(j.entries) == AirplaneFields
    ensures Lookup(j.entries, "airplane_type") == Some(JStr(a.airplaneType.name))
  {
    var entries := AirplaneHead(a) + [("airplane_type", JStr(a.airplaneType.name))];
    LookupFound(entries, 4, "airplane_type");
    JObj(entries)
  }

  /** `AirplaneSerializerDetail`: the type is nested and the capacity added. */
  function AirplaneDetailRepr(a: Airplane): (j: Json)
    ensures j.JObj? && Keys(j.entries) == AirplaneDetailFields
    ensures Lookup(j.entries, "airplane_type") == Some(AirplaneTypeRepr(a.airplaneType))
    ensures Lookup(j.entries, "capacity") == Some(JInt(a.rows * a.seatsInRow))
  {
    var entries := AirplaneHead(a) + [("airplane_type", AirplaneTypeRepr(a.airplaneType)), ("capacity", JInt(a.Capacity()))];
    LookupFound(entries, 4, "airplane_type");
    LookupFound(entries, 5, "capacity");
    JObj(entries)
  }

  /** The three airplane variants agree on every field but `airplane_type`
      (and the detail-only `capacity`). */
  lemma AirplaneVariantsShareScalars(a: Airplane, key: string)
    requires key in AirplaneFields && key != "airplane_type"
    ensures Lookup(AirplaneRepr(a).entries, key) == Lookup(AirplaneListRepr(a).entries, key)
    ensures Lookup(AirplaneRepr(a).entries, key) == Lookup(AirplaneDetailRepr(a).entries, key)
    ensures Lookup(AirplaneRepr(a).entries, key).Some?
  {
    var k :| 0 <= k < 4 && AirplaneFields[k] == key;
    var head := AirplaneHead(a);
    forall j | 0 <= j < k ensures head[j].0 != key {
      assert AirplaneFields[j] != AirplaneFields[k];
    }
    LookupFound(AirplaneRepr(a).entries, k, key);
    LookupFound(AirplaneListRepr(a).entries, k, key);
    LookupFound(AirplaneDetailRepr(a).entries, k, key);
  }

  /** `RouteSerializer`: the airports are rendered as primary keys. */
  function RouteRepr(r: Route): (j: Json)
    ensures j.JObj? && Keys(j.entries) == RouteFields
    ensures Lookup(j.entries, "source") == Some(JInt(r.source.id))
    ensures Lookup(j.entries, "destination") == Some(JInt(r.destination.id))
  {
    var entries := [("id", JInt(r.id)), ("source", JInt(r.source.id)), ("destination", JInt(r.destination.id)),
                    ("distance", JInt(r.distance))];
    LookupFound(entries, 1, "source");
    LookupFound(entries, 2, "destination");
    JObj(entries)
  }

  /** `RouteSerializerList`: the airports are rendered as their names. */
  function RouteListRepr(r: Route): (j: Json)
    ensures j.JObj? && Keys(j.entries) == RouteFields
    ensures Lookup(j.entries, "source") == Some(JStr(r.source.name))
    ensures Lookup(j.entries, "destination") == Some(JStr(r.destination.name))
  {
    var entries := [("id", JInt(r.id)), ("source", JStr(r.source.name)), ("destination", JStr(r.destination.name)),
                    ("distance", JInt(r.distance))];
    LookupFound(entries, 1, "source");
    LookupFound(entries, 2, "destination");
    JObj(entries)
  }

  /** `RouteSerializerDetail`: the airports are nested in full. */
  function RouteDetailRepr(r: Route): (j: Json)
    ensures j.JObj? && Keys(j.entries) == RouteFields
    ensures Lookup(j.entries, "source") == Some(AirportRepr(r.source))
    ensures Lookup(j.entries, "destination") == Some(AirportRepr(r.destination))
  {
    var entries := [("id", JInt(r.id)), ("source", AirportRepr(r.source)), ("destination", AirportRepr(r.destination)),
                    ("distance", JInt(r.distance))];
    LookupFound(entries, 1, "source");
    LookupFound(entries, 2, "destination");
    JObj(entries)
  }

  /** The validated attributes of a route write. On a partial update a key
      the client did not send is absent. */
  datatype RouteAttrs = RouteAttrs(source: Option<Airport>, destination: Option<Airport>, distance: Option<int>)

  datatype RouteValidationError =
    | MissingKey(key: string)
    | Invalid(error: RouteError)

  /** `RouteSerializer.validate`: after the inherited validation (which
      returns the attributes as they are), `attrs["source"]` and
      `attrs["destination"]` are read, in that order, and handed to the
      model's static rule with the serializer error class. */
  function ValidateRouteAttrs(attrs: RouteAttrs): (r: Result<RouteAttrs, RouteValidationError>)
    ensures attrs.source.None? ==> r == Err(MissingKey("source"))
    ensures attrs.source.Some? && attrs.destination.None? ==> r == Err(MissingKey("destination"))
    ensures attrs.source.Some? && attrs.destination.Some? ==>
              (r.Ok? <==> attrs.source.value.id != attrs.destination.value.id)
    ensures r.Ok? ==> r.value == attrs
    ensures r.Err? && r.error.Invalid? ==>
              r.error.error == RouteError(SerializerValidationError, SameEndpointMessage)
  {
    var data := attrs;
    if attrs.source.None? then Err(MissingKey("source"))
    else if attrs.destination.None? then Err(MissingKey("destination"))
    else
      match ValidateSourceDestination(attrs.source.value, attrs.destination.value, SerializerValidationError)
      case Some(e) => Err(Invalid(e))
      case None => Ok(data)
  }

  /** The serializer and the model apply one rule: attributes that the
      serializer accepts form a route that `save` stores, and attributes it
      rejects as invalid form a route that `save` refuses with the same
      message. */
  lemma SerializerAgreesWithModel(attrs: RouteAttrs, id: Id, distance: int)
    requires attrs.source.Some? && attrs.destination.Some?
    ensures var route := Route(id, attrs.source.value, attrs.destination.value, distance);
            (ValidateRouteAttrs(attrs).Ok? <==> CleanRoute(route).None?)
            && (ValidateRouteAttrs(attrs).Err? ==>
                  ValidateRouteAttrs(attrs).error.error.message == CleanRoute(route).value.message)
  {
  }
}
