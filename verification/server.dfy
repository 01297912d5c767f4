/**
 * The two routers together, driven by any sequence of requests.  This is
 * where the ledger's history is stated: every order on the ledger was
 * written by an order request at a moment when its service existed, and
 * no request edits an order.
 */
module Server {

  import opened Wire
  import opened Records
  import Catalog
  import Ledger

  /** The six routes of the core, with the inputs each handler reads. */
  datatype Request =
    | ListServices
    | CreateService(service: Catalog.ServiceBody)
    | UpdateService(id: PathId, patch: Catalog.ServiceBody)
    | RemoveService(removed: PathId)
    | ListOrders
    | CreateOrder(order: Ledger.OrderBody)

  /** The store after one request. */
  function Step(db: Db, req: Request): (r: Db)
    requires db.Valid()
    ensures r.Valid()
    ensures r.onReferencedDelete == db.onReferencedDelete
  {
    match req
    case ListServices => db
    case CreateService(body) => Catalog.PostService(db, body).db
    case UpdateService(id, body) => Catalog.PutService(db, id, body).db
    case RemoveService(id) => Catalog.DeleteService(db, id).db
    case ListOrders => db
    case CreateOrder(body) => Ledger.PostOrder(db, body).db
  }

  /** The store after a sequence of requests, handled one after the other. */
  function Run(db: Db, reqs: seq<Request>): (r: Db)
    requires db.Valid()
    ensures r.Valid()
    ensures r.onReferencedDelete == db.onReferencedDelete
    decreases |reqs|
  {
    if reqs == [] then db else Step(Run(db, reqs[..|reqs| - 1]), reqs[|reqs| - 1])
  }

  /**
   * `o` is the order that `req` appends to the ledger of `before`: a new
   * order whose service exists in `before`.
   */
  ghost predicate Creates(before: Db, req: Request, o: Order)
    requires before.Valid()
  {
    && req.CreateOrder?
    && Step(before, req).orders == before.orders + [o]
    && o !in before.orders
    && o.serviceId in before.services
  }

  /** After one request, each order was already there or was just created. */
  lemma StepOrders(db: Db, req: Request)
    requires db.Valid()
    ensures forall o :: o in Step(db, req).orders ==> o in db.orders || Creates(db, req, o)
  {
    match req
    case RemoveService(id) =>
      var r := Catalog.DeleteService(db, id);
      forall o | o in r.db.orders ensures o in db.orders {
        var i :| 0 <= i < |r.db.orders| && r.db.orders[i] == o;
      }
    case CreateOrder(body) =>
      var r := Ledger.PostOrder(db, body);
      if r.reply.status == 201 {
        var o := r.reply.body.value;
        assert o !in db.orders by {
          forall i | 0 <= i < |db.orders| ensures db.orders[i] != o {
            assert db.orders[i].id < o.id;
          }
        }
        assert Creates(db, req, o);
        forall x | x in r.db.orders ensures x in db.orders || x == o {
          var i :| 0 <= i < |r.db.orders| && r.db.orders[i] == x;
          if i < |db.orders| {
            assert x == db.orders[i];
          }
        }
      }
    case _ =>
  }

  /**
   * Ledger history: every order on the ledger after any run of requests was
   * on it at the start, or was created by one of the requests, at a moment
   * when the service it names existed in the catalog.
   */
  lemma {:induction false} LedgerHistory(db: Db, reqs: seq<Request>, o: Order)
    requires db.Valid()
    requires o in Run(db, reqs).orders
    ensures o in db.orders || exists i :: 0 <= i < |reqs| && Creates(Run(db, reqs[..i]), reqs[i], o)
    decreases |reqs|
  {
    if reqs != [] {
      var n := |reqs| - 1;
      var pre := reqs[..n];
      var before := Run(db, pre);
      StepOrders(before, reqs[n]);
      if o in before.orders {
        LedgerHistory(db, pre, o);
        if o !in db.orders {
          var i :| 0 <= i < |pre| && Creates(Run(db, pre[..i]), pre[i], o);
          assert pre[..i] == reqs[..i];
        }
      } else {
        assert Creates(Run(db, reqs[..n]), reqs[n], o);
      }
    }
  }

  /** Under Restrict no single request takes an order off the ledger or edits one. */
  lemma StepKeepsLedger(db: Db, req: Request)
    requires db.Valid() && db.onReferencedDelete == Restrict
    ensures db.orders <= Step(db, req).orders
  {
    match req
    case RemoveService(id) =>
      if Catalog.DeleteService(db, id).reply.status == 204 {
        assert !Catalog.Referenced(db.orders, id.n);
      }
    case _ =>
  }

  /**
   * Under a store that refuses to delete referenced services, the ledger
   * only grows: what was on it stays on it, unchanged and in place.
   */
  lemma {:induction false} LedgerOnlyGrows(db: Db, reqs: seq<Request>)
    requires db.Valid() && db.onReferencedDelete == Restrict
    ensures db.orders <= Run(db, reqs).orders
    decreases |reqs|
  {
    if reqs != [] {
      var n := |reqs| - 1;
      var before := Run(db, reqs[..n]);
      LedgerOnlyGrows(db, reqs[..n]);
      StepKeepsLedger(before, reqs[n]);
    }
  }

  /**
   * Under Cascade the ledger does not only grow: deleting a service that
   * orders reference takes those orders off the ledger.
   */
  lemma CascadeDeleteShrinksLedger(db: Db, n: int)
    requires db.Valid() && db.onReferencedDelete == Cascade
    requires n in db.services && Catalog.Referenced(db.orders, n)
    ensures var after := Step(db, RemoveService(Id(n)));
      && !(db.orders <= after.orders)
      && forall o :: o in after.orders ==> o.serviceId != n
  {
    var after := Step(db, RemoveService(Id(n)));
    var i :| 0 <= i < |db.orders| && db.orders[i].serviceId == n;
    assert db.orders[i] !in after.orders;
  }
}
