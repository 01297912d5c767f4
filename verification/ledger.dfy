/**
 * The order ledger: the two handlers of server/src/routes/orders.js as
 * functions of the store value.  Orders are only ever appended, and an
 * order is written only when the service it names exists at that moment.
 */
module Ledger {

  import opened Wire
  import opened Records

  const OrderRequiredMsg := "customerName, email, and serviceId are required."
  const ServiceIdMsg := "serviceId must be a number."
  const UnknownServiceMsg := "serviceId does not exist."

  /** The fields of a POST body that the handler reads. */
  datatype OrderBody = OrderBody(customerName: Text, email: Text, serviceId: Coerced<int>)

  /** A validated POST body, ready to be inserted. */
  datatype OrderDraft = OrderDraft(customerName: string, email: string, serviceId: int)

  /** The presence check: customerName and email truthy, serviceId not `undefined`. */
  predicate Present(b: OrderBody)
  {
    Truthy(b.customerName) && Truthy(b.email) && !b.serviceId.Absent?
  }

  /**
   * The checks made before the insert: presence first, then that serviceId
   * is a number.  Name and email are kept verbatim: no trimming, no format.
   */
  function ValidateOrder(b: OrderBody): (r: Result<OrderDraft>)
    ensures (r == Fail(OrderRequiredMsg)) <==> !Present(b)
    ensures (r == Fail(ServiceIdMsg)) <==> Present(b) && b.serviceId.NaN?
    ensures r.Ok? <==> Present(b) && b.serviceId.Num?
    ensures r.Ok? ==> r.value == OrderDraft(b.customerName.s, b.email.s, b.serviceId.v)
  {
    if !Truthy(b.customerName) || !Truthy(b.email) || b.serviceId.Absent? then
      Fail(OrderRequiredMsg)
    else if b.serviceId.NaN? then
      Fail(ServiceIdMsg)
    else
      Ok(OrderDraft(b.customerName.s, b.email.s, b.serviceId.v))
  }

  /**
   * POST /: validation, then the insert, which the store's foreign key
   * refuses when no service has the given id; that refusal is a 400.
   */
  function PostOrder(db: Db, b: OrderBody): (r: Handled<Order>)
    requires db.Valid()
    ensures r.db.Valid()
    ensures r.reply == Reply(400, Error(OrderRequiredMsg)) <==> !Present(b)
    ensures r.reply == Reply(400, Error(ServiceIdMsg)) <==> Present(b) && b.serviceId.NaN?
    ensures r.reply == Reply(400, Error(UnknownServiceMsg)) <==>
      Present(b) && b.serviceId.Num? && b.serviceId.v !in db.services
    ensures r.reply.status == 201 <==>
      Present(b) && b.serviceId.Num? && b.serviceId.v in db.services
    ensures r.reply.status != 201 ==> r.db == db
    ensures r.reply.status == 201 ==>
      && r.reply.body.Json?
      && var o := r.reply.body.value;
      && o.customerName == b.customerName.s && o.email == b.email.s
      && o.serviceId == b.serviceId.v
      && o.serviceId in db.services
      && (forall i :: 0 <= i < |db.orders| ==> db.orders[i].id < o.id)
      && r.db.orders == db.orders + [o]
      && r.db.services == db.services
      && r.db.onReferencedDelete == db.onReferencedDelete
  {
    match ValidateOrder(b)
    case Fail(msg) => Handled(db, Reply(400, Error(msg)))
    case Ok(d) =>
      if d.serviceId !in db.services then
        Handled(db, Reply(400, Error(UnknownServiceMsg)))
      else
        var o := Order(db.nextOrderId, d.customerName, d.email, d.serviceId, db.clock);
        Handled(db.(orders := db.orders + [o], nextOrderId := o.id + 1, clock := db.clock + 1),
                Reply(201, Json(o)))
  }

  /** The ledger newest first, each order joined with its service's current row. */
  function JoinNewestFirst(orders: seq<Order>, services: map<int, Service>): (r: seq<OrderView>)
    requires forall i :: 0 <= i < |orders| ==> orders[i].serviceId in services
    ensures |r| == |orders|
    ensures forall i :: 0 <= i < |r| ==>
      r[i].order == orders[|orders| - 1 - i] && r[i].service == services[r[i].order.serviceId]
  {
    if orders == [] then
      []
    else
      var last := orders[|orders| - 1];
      [OrderView(last, services[last.serviceId])] + JoinNewestFirst(orders[..|orders| - 1], services)
  }

  /**
   * GET /: every order, newest `createdAt` first, with the service it
   * references as that service is now (a join at read time, not a copy).
   */
  function GetOrders(db: Db): (r: Reply<seq<OrderView>>)
    requires db.Valid()
    ensures r.status == 200 && r.body.Json?
    ensures |r.body.value| == |db.orders|
    ensures forall i :: 0 <= i < |r.body.value| ==>
      && r.body.value[i].order == db.orders[|db.orders| - 1 - i]
      && r.body.value[i].order.serviceId in db.services
      && r.body.value[i].service == db.services[r.body.value[i].order.serviceId]
    ensures forall i, j :: 0 <= i < j < |r.body.value| ==>
      r.body.value[i].order.createdAt > r.body.value[j].order.createdAt
  {
    Reply(200, Json(JoinNewestFirst(db.orders, db.services)))
  }

  /**
   * Editing a service changes what the order list shows for the orders
   * placed before the edit: each of them is listed with the edited row.
   */
  lemma UpdateShowsInOrderList(db: Db, id: int, edited: Service)
    requires db.Valid()
    requires id in db.services && edited.id == id && edited.createdAt == db.services[id].createdAt
    requires edited.price >= 0.0
    ensures db.(services := db.services[id := edited]).Valid()
    ensures var list := GetOrders(db.(services := db.services[id := edited])).body.value;
      forall i :: 0 <= i < |list| ==>
        list[i].order == db.orders[|db.orders| - 1 - i]
        && (list[i].order.serviceId == id ==> list[i].service == edited)
  {
    var after := db.(services := db.services[id := edited]);
    forall a, b | a in after.services && b in after.services && a < b
      ensures after.services[a].createdAt < after.services[b].createdAt
    {
      assert after.services[a].createdAt == db.services[a].createdAt;
      assert after.services[b].createdAt == db.services[b].createdAt;
    }
  }

  /**
   * The order-placement round trip: an order for a service of the catalog
   * is accepted, and the order list then starts with that order joined
   * with that service.
   */
  lemma OrderThenList(db: Db, s: Service, b: OrderBody)
    requires db.Valid()
    requires s.id in db.services && db.services[s.id] == s
    requires Truthy(b.customerName) && Truthy(b.email) && b.serviceId == Num(s.id)
    ensures PostOrder(db, b).reply.status == 201
    ensures var list := GetOrders(PostOrder(db, b).db).body.value;
      |list| > 0 && list[0] == OrderView(PostOrder(db, b).reply.body.value, s)
  {
    var after := PostOrder(db, b).db;
    var views := JoinNewestFirst(after.orders, after.services);
    assert views[0].order == after.orders[|after.orders| - 1];
  }
}
