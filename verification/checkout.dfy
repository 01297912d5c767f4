/**
 * A checkout end to end: the client's order requests are handled by the
 * order route one after the other, and their answers decide what the page
 * shows.  Orders are created for every item whose service exists, even
 * when the page then reports that the order failed.
 */
module Checkout {

  import opened Wire
  import opened Records
  import Ledger
  import opened Client
  import opened JsText

  /** The body the order route reads from one client request. */
  function BodyOf(q: OrderRequest): Ledger.OrderBody
  {
    Ledger.OrderBody(Given(q.customerName), Given(q.email), Num(q.serviceId))
  }

  /** What `fetch` settles to for a reply: `ok` is a 2xx status. */
  function Settle(reply: Reply<Order>): FetchResult
  {
    Response(200 <= reply.status < 300)
  }

  /** The store after a checkout's requests, and what each request settled to. */
  datatype Delivery = Delivery(db: Db, results: seq<FetchResult>)

  /** The order route handling the requests of one checkout, in cart order. */
  function Deliver(db: Db, qs: seq<OrderRequest>): (r: Delivery)
    requires db.Valid()
    ensures r.db.Valid()
    ensures |r.results| == |qs|
    ensures r.db.services == db.services
    ensures db.orders <= r.db.orders
    decreases |qs|
  {
    if qs == [] then
      Delivery(db, [])
    else
      var first := Ledger.PostOrder(db, BodyOf(qs[0]));
      var rest := Deliver(first.db, qs[1..]);
      Delivery(rest.db, [Settle(first.reply)] + rest.results)
  }

  /** How many of the requests name a service of the catalog. */
  function Accepted(qs: seq<OrderRequest>, services: map<int, Service>): (n: nat)
    ensures n <= |qs|
    decreases |qs|
  {
    if qs == [] then 0
    else (if qs[0].serviceId in services then 1 else 0) + Accepted(qs[1..], services)
  }

  /** Some request naming an existing service makes the count positive. */
  lemma {:induction false} AcceptedPositive(qs: seq<OrderRequest>, services: map<int, Service>, k: int)
    requires 0 <= k < |qs| && qs[k].serviceId in services
    ensures Accepted(qs, services) > 0
    decreases |qs|
  {
    if k > 0 {
      AcceptedPositive(qs[1..], services, k - 1);
    }
  }

  /**
   * With a non-empty name and email, a request succeeds exactly when its
   * service exists, and the ledger grows by one order per success.
   */
  lemma {:induction false} DeliverOutcome(db: Db, qs: seq<OrderRequest>)
    requires db.Valid()
    requires forall i :: 0 <= i < |qs| ==> qs[i].customerName != "" && qs[i].email != ""
    ensures var r := Deliver(db, qs);
      && (forall i :: 0 <= i < |qs| ==> (!Failed(r.results[i]) <==> qs[i].serviceId in db.services))
      && |r.db.orders| == |db.orders| + Accepted(qs, db.services)
    decreases |qs|
  {
    if qs != [] {
      var first := Ledger.PostOrder(db, BodyOf(qs[0]));
      assert first.reply.status == 201 <==> qs[0].serviceId in db.services;
      DeliverOutcome(first.db, qs[1..]);
      var r := Deliver(db, qs);
      forall i | 0 <= i < |qs|
        ensures !Failed(r.results[i]) <==> qs[i].serviceId in db.services
      {
        if i > 0 {
          assert r.results[i] == Deliver(first.db, qs[1..]).results[i - 1];
          assert qs[i] == qs[1..][i - 1];
        }
      }
    }
  }

  /**
   * A checkout with one request for an existing service and one for a
   * missing service creates an order, yet has a failed request.
   */
  lemma MixedDelivery(db: Db, qs: seq<OrderRequest>, i: int, j: int)
    requires db.Valid()
    requires forall k :: 0 <= k < |qs| ==> qs[k].customerName != "" && qs[k].email != ""
    requires 0 <= i < |qs| && qs[i].serviceId in db.services
    requires 0 <= j < |qs| && qs[j].serviceId !in db.services
    ensures |Deliver(db, qs).db.orders| > |db.orders|
    ensures Failed(Deliver(db, qs).results[j])
  {
    DeliverOutcome(db, qs);
    AcceptedPositive(qs, db.services, i);
  }

  /**
   * A checkout in which some services still exist and some were deleted in
   * the meantime creates orders for the first kind, yet the page keeps the
   * whole cart and shows the single failure message: the partial success
   * is not reported, and placing the order again repeats the ones that
   * went through.
   */
  lemma PartialSuccessReportedAsFailure(db: Db, cart: seq<Service>, form: OrderForm, message: string)
    requires db.Valid()
    requires Trim(form.customerName) != "" && Trim(form.email) != ""
    requires exists i :: 0 <= i < |cart| && cart[i].id in db.services
    requires exists j :: 0 <= j < |cart| && cart[j].id !in db.services
    ensures var qs := OrderRequests(cart, form);
      var d := Deliver(db, qs);
      var page := OrderSubmission(Screen(cart, form, message), d.results);
      && |d.db.orders| > |db.orders|
      && page.after == Screen(cart, form, OrderFailedMsg)
  {
    var qs := OrderRequests(cart, form);
    var i :| 0 <= i < |cart| && cart[i].id in db.services;
    var j :| 0 <= j < |cart| && cart[j].id !in db.services;
    MixedDelivery(db, qs, i, j);
  }

  /** Requests without a customer name are all refused, and nothing is written. */
  lemma {:induction false} NamelessDeliversNothing(db: Db, qs: seq<OrderRequest>)
    requires db.Valid()
    requires forall i :: 0 <= i < |qs| ==> qs[i].customerName == ""
    ensures Deliver(db, qs).db == db
    ensures forall i :: 0 <= i < |qs| ==> Failed(Deliver(db, qs).results[i])
    decreases |qs|
  {
    if qs != [] {
      assert Ledger.PostOrder(db, BodyOf(qs[0])).db == db;
      NamelessDeliversNothing(db, qs[1..]);
      var r := Deliver(db, qs);
      forall i | 0 <= i < |qs|
        ensures Failed(r.results[i])
      {
        if i > 0 {
          assert r.results[i] == Deliver(db, qs[1..]).results[i - 1];
        }
      }
    }
  }

  /**
   * A name field of white space only passes the form but trims to "", so
   * the order route refuses every request of the checkout with the
   * "required" error: no order is written and the page shows the failure
   * message with the cart kept.
   */
  lemma BlankNameOrdersNothing(db: Db, cart: seq<Service>, form: OrderForm, message: string)
    requires db.Valid()
    requires cart != [] && AllSpace(form.customerName)
    ensures var qs := OrderRequests(cart, form);
      var d := Deliver(db, qs);
      && d.db == db
      && OrderSubmission(Screen(cart, form, message), d.results).after == Screen(cart, form, OrderFailedMsg)
  {
    TrimBlank(form.customerName);
    NamelessDeliversNothing(db, OrderRequests(cart, form));
  }
}
