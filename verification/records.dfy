/**
 * The rows of the store and the store itself, as one value.  The relational
 * database is modelled as an in-memory table: services keyed by id, orders
 * in insertion order, one id counter per table, and a logical clock that
 * stamps `createdAt` on every insert.
 */
module Records {

  import opened Wire

  datatype Service = Service(id: int, title: string, description: string, price: real, createdAt: nat)

  datatype Order = Order(id: int, customerName: string, email: string, serviceId: int, createdAt: nat)

  /** An order as the order list returns it: with its service joined in. */
  datatype OrderView = OrderView(order: Order, service: Service)

  /**
   * What the store does when a service that orders still reference is
   * deleted.  The relation rule lives in the database schema, which is not
   * part of this model, so it is a parameter of the store.
   */
  datatype DeletePolicy = Restrict | Cascade

  datatype Db = Db(
    services: map<int, Service>,
    orders: seq<Order>,
    nextServiceId: int,
    nextOrderId: int,
    clock: nat,
    onReferencedDelete: DeletePolicy)
  {
    /** The store's invariant: the catalog and the ledger are well formed. */
    ghost predicate Valid()
    {
      && CatalogValid(services, nextServiceId, clock)
      && LedgerValid(orders, services, nextOrderId, clock)
    }
  }

  /**
   * Every service is filed under its own id, ids come from the counter,
   * prices are non-negative, and a larger id means a later `createdAt`.
   */
  ghost predicate CatalogValid(services: map<int, Service>, nextId: int, clock: nat)
  {
    && 1 <= nextId
    && (forall id :: id in services ==>
          && services[id].id == id
          && 1 <= id < nextId
          && services[id].createdAt < clock
          && services[id].price >= 0.0)
    && (forall a, b :: a in services && b in services && a < b ==>
          services[a].createdAt < services[b].createdAt)
  }

  /**
   * Ids and timestamps grow along the ledger, and every order references a
   * service of the catalog.
   */
  ghost predicate LedgerValid(orders: seq<Order>, services: map<int, Service>, nextId: int, clock: nat)
  {
    && 1 <= nextId
    && (forall i :: 0 <= i < |orders| ==>
          && 1 <= orders[i].id < nextId
          && orders[i].createdAt < clock
          && orders[i].serviceId in services)
    && Increasing(orders)
  }

  ghost predicate Increasing(orders: seq<Order>)
  {
    forall i, j :: 0 <= i < j < |orders| ==>
      orders[i].id < orders[j].id && orders[i].createdAt < orders[j].createdAt
  }

  /** A handler's effect: the store afterwards and the reply it sends. */
  datatype Handled<+T> = Handled(db: Db, reply: Reply<T>)

  /** A fresh, empty store. */
  function EmptyDb(policy: DeletePolicy): (db: Db)
    ensures db.Valid()
    ensures db.services == map[] && db.orders == []
    ensures db.onReferencedDelete == policy
  {
    Db(map[], [], 1, 1, 0, policy)
  }
}
