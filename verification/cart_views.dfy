/** The order endpoints: a user sees only their own orders, optionally
    narrowed to one creation time, and a new order is always owned by the
    user who sent the request. */
module CartViews {
  import opened Common
  import opened CartModels
  import AirportFilters
  import AirportViews

  /** `OrderViewSet.get_queryset`: the requesting user's orders; when a
      non-empty `created_at` parameter is given, only those created at
      exactly that time. */
  function OrderQuerySet(orders: seq<Order>, user: UserId, createdAt: Option<Timestamp>): (r: seq<Order>)
    ensures forall o :: o in r ==> o.user == user
    ensures createdAt.None? ==> forall o :: o in r <==> o in orders && o.user == user
    ensures createdAt.Some? ==>
              forall o :: o in r <==> o in orders && o.user == user && o.createdAt == createdAt.value
    ensures AirportFilters.IsSubsequence(r, orders)
  {
    var own := AirportFilters.Keep(orders, (o: Order) => o.user == user);
    if createdAt.Some? then
      var r := AirportFilters.Keep(own, (o: Order) => o.createdAt == createdAt.value);
      AirportFilters.SubsequenceTransitive(r, own, orders);
      r
    else
      own
  }

  /** The `created_at` narrowing only removes orders from the user's full
      listing. */
  lemma CreatedAtNarrows(orders: seq<Order>, user: UserId, t: Timestamp)
    ensures AirportFilters.IsSubsequence(OrderQuerySet(orders, user, Some(t)), OrderQuerySet(orders, user, None))
  {
  }

  /** `OrderViewSet.get_serializer_class`: the list variant for `list`, the
      base serializer otherwise; orders have no detail variant. */
  function OrderSerializerFor(action: string): (v: AirportViews.SerializerVariant)
    ensures v != AirportViews.DetailVariant
    ensures v == AirportViews.ListVariant <==> action == AirportViews.ListAction
  {
    if action == AirportViews.ListAction then AirportViews.ListVariant else AirportViews.BaseVariant
  }

  /** Orders and flights switch to their list serializers on the same action,
      and agree on every action that is not a read. */
  lemma OrderListMatchesFlightList(action: string)
    ensures OrderSerializerFor(action) == AirportViews.ListVariant
            <==> AirportViews.FlightSerializerFor(action) == AirportViews.ListVariant
    ensures !AirportViews.IsReadAction(action) ==>
              OrderSerializerFor(action) == AirportViews.FlightSerializerFor(action)
  {
  }

  /** The field under which an order stores its owner. */
  const UserField: string := "user"

  /** What a client submits for a new order: its validated fields by name,
      where a "user" entry is the owner the client claims, and its tickets. */
  datatype OrderPayload = OrderPayload(fields: map<string, int>, tickets: seq<Ticket>)

  /** `serializer.save(**kwargs)`: the keyword arguments are laid over the
      validated data, so a keyword wins over a submitted field of the same
      name and every other submitted field is kept. */
  function SaveData(fields: map<string, int>, kwargs: map<string, int>): (data: map<string, int>)
    ensures data.Keys == fields.Keys + kwargs.Keys
    ensures forall k :: k in kwargs ==> data[k] == kwargs[k]
    ensures forall k :: k in fields && k !in kwargs ==> data[k] == fields[k]
  {
    fields + kwargs
  }

  /** `OrderViewSet.perform_create`: the order is saved with
      `user=request.user` as a keyword; the database stamps the id and the
      creation time. */
  function PerformCreate(payload: OrderPayload, requestUser: UserId, id: Id, now: Timestamp): (o: Order)
    ensures o.user == requestUser
    ensures o.id == id && o.createdAt == now
  {
    var data := SaveData(payload.fields, map[UserField := requestUser]);
    Order(id, now, data[UserField])
  }

  /** Whatever owner two payloads claim, the keyword override gives both
      orders the requesting user, and the order shows up in that user's
      listing. */
  lemma OwnerComesFromRequest(p: OrderPayload, q: OrderPayload, u: UserId, id: Id, now: Timestamp)
    ensures UserField in p.fields ==> SaveData(p.fields, map[UserField := u])[UserField] == u
    ensures PerformCreate(p, u, id, now) == PerformCreate(q, u, id, now)
    ensures OrderQuerySet([PerformCreate(p, u, id, now)], u, None) == [PerformCreate(p, u, id, now)]
  {
  }

  /** A concrete request: a payload claiming owner 5, sent by user 9, creates
      an order owned by 9. */
  lemma ClaimedOwnerIsOverridden()
    ensures var p := OrderPayload(map[UserField := 5], []);
            p.fields[UserField] == 5 && PerformCreate(p, 9, 1, 0).user == 9
  {
  }
}
