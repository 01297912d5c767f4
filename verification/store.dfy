/**
 * The store as the route handlers use it: one object whose tables change in
 * place.  Each method is one handler; its contract ties the reply and the
 * new contents of the tables to the handler's transition in Catalog or
 * Ledger, where the properties of the handlers are stated and proved.
 */
module Store {

  import opened Wire
  import opened Records
  import Catalog
  import Ledger

  class Store {
    var services: map<int, Service>
    var orders: seq<Order>
    var nextServiceId: int
    var nextOrderId: int
    var clock: nat
    const onReferencedDelete: DeletePolicy

    /** The tables as one value. */
    function Snapshot(): Db
      reads this
    {
      Db(services, orders, nextServiceId, nextOrderId, clock, onReferencedDelete)
    }

    ghost predicate Valid()
      reads this
    {
      Snapshot().Valid()
    }

    constructor (policy: DeletePolicy)
      ensures Valid() && Snapshot() == EmptyDb(policy)
    {
      services, orders := map[], [];
      nextServiceId, nextOrderId, clock := 1, 1, 0;
      onReferencedDelete := policy;
    }

    /** GET /api/services */
    method GetServices() returns (reply: Reply<seq<Service>>)
      requires Valid()
      ensures reply == Catalog.GetServices(Snapshot())
    {
      reply := Reply(200, Json(Catalog.NewestFirst(services, nextServiceId)));
    }

    /** POST /api/services */
    method PostService(body: Catalog.ServiceBody) returns (reply: Reply<Service>)
      requires Valid()
      modifies this
      ensures Handled(Snapshot(), reply) == Catalog.PostService(old(Snapshot()), body)
      ensures Valid()
      ensures orders == old(orders)
      ensures reply.status != 201 ==> services == old(services)
      ensures reply.status == 201 ==>
        reply.body.Json? && reply.body.value.id !in old(services)
        && services == old(services)[reply.body.value.id := reply.body.value]
        && reply.body.value.price >= 0.0
    {
      var checked := Catalog.ValidateCreate(body);
      if checked.Fail? {
        reply := Reply(400, Error(checked.error));
        return;
      }
      var s := Service(nextServiceId, checked.value.title, checked.value.description, checked.value.price, clock);
      services := services[s.id := s];
      nextServiceId := nextServiceId + 1;
      clock := clock + 1;
      reply := Reply(201, Json(s));
    }

    /** PUT /api/services/:id */
    method PutService(id: PathId, body: Catalog.ServiceBody) returns (reply: Reply<Service>)
      requires Valid()
      modifies this
      ensures Handled(Snapshot(), reply) == Catalog.PutService(old(Snapshot()), id, body)
      ensures Valid()
    {
      if id.NotNumeric? {
        reply := Reply(400, Error(Catalog.InvalidIdMsg));
        return;
      }
      var data := Catalog.ValidatePatch(body);
      if data.Fail? {
        reply := Reply(400, Error(data.error));
        return;
      }
      if id.n !in services {
        reply := Reply(404, Error(Catalog.NotFoundMsg));
        return;
      }
      var s := Catalog.Patched(services[id.n], data.value);
      services := services[id.n := s];
      reply := Reply(200, Json(s));
    }

    /** DELETE /api/services/:id */
    method DeleteService(id: PathId) returns (reply: Reply<()>)
      requires Valid()
      modifies this
      ensures Handled(Snapshot(), reply) == Catalog.DeleteService(old(Snapshot()), id)
      ensures Valid()
    {
      if id.NotNumeric? {
        reply := Reply(400, Error(Catalog.InvalidIdMsg));
        return;
      }
      if id.n !in services {
        reply := Reply(404, Error(Catalog.NotFoundMsg));
        return;
      }
      if Catalog.Referenced(orders, id.n) && onReferencedDelete == Restrict {
        reply := Reply(500, Error(InternalErrorMsg));
        return;
      }
      services := services - {id.n};
      orders := Catalog.WithoutOrdersOf(orders, id.n);
      reply := Reply(204, NoContent);
    }

    /** GET /api/orders */
    method GetOrders() returns (reply: Reply<seq<OrderView>>)
      requires Valid()
      ensures reply == Ledger.GetOrders(Snapshot())
    {
      reply := Reply(200, Json(Ledger.JoinNewestFirst(orders, services)));
    }

    /** POST /api/orders */
    method PostOrder(body: Ledger.OrderBody) returns (reply: Reply<Order>)
      requires Valid()
      modifies this
      ensures Handled(Snapshot(), reply) == Ledger.PostOrder(old(Snapshot()), body)
      ensures Valid()
      ensures services == old(services)
      ensures reply.status != 201 ==> orders == old(orders)
      ensures reply.status == 201 ==>
        reply.body.Json? && orders == old(orders) + [reply.body.value]
        && reply.body.value.serviceId in old(services)
    {
      var checked := Ledger.ValidateOrder(body);
      if checked.Fail? {
        reply := Reply(400, Error(checked.error));
        return;
      }
      var d := checked.value;
      if d.serviceId !in services {
        reply := Reply(400, Error(Ledger.UnknownServiceMsg));
        return;
      }
      var o := Order(nextOrderId, d.customerName, d.email, d.serviceId, clock);
      orders := orders + [o];
      nextOrderId := nextOrderId + 1;
      clock := clock + 1;
      reply := Reply(201, Json(o));
    }
  }
}
