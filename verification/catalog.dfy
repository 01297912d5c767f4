/**
 * The service catalog: the four handlers of server/src/routes/services.js as
 * transitions of the store value.  Each handler runs its checks in a fixed
 * order and answers with an exact status and message; nothing is written
 * unless every check passes.
 */
module Catalog {

  import opened Wire
  import opened Records

  const RequiredMsg := "title, description, and price are required."
  const PriceMsg := "price must be a non-negative number."
  const InvalidIdMsg := "Invalid service id."
  const NotFoundMsg := "Service not found."

  /** The fields of a POST or PUT body that the handlers read. */
  datatype ServiceBody = ServiceBody(title: Text, description: Text, price: Coerced<real>)

  /** A validated POST body, ready to be inserted. */
  datatype Draft = Draft(title: string, description: string, price: real)

  /** The partial `data` record a PUT builds: only the fields the body carries. */
  datatype Patch = Patch(title: Option<string>, description: Option<string>, price: Option<real>)

  /** The presence check of POST: title and description truthy, price not `undefined`. */
  predicate Present(b: ServiceBody)
  {
    Truthy(b.title) && Truthy(b.description) && !b.price.Absent?
  }

  /** The price rule: `Number(price)` is neither `NaN` nor negative. */
  predicate NonNegative(p: Coerced<real>)
  {
    p.Num? && p.v >= 0.0
  }

  /** The checks of POST, presence first, then the price rule. */
  function ValidateCreate(b: ServiceBody): (r: Result<Draft>)
    ensures (r == Fail(RequiredMsg)) <==> !Present(b)
    ensures (r == Fail(PriceMsg)) <==> Present(b) && !NonNegative(b.price)
    ensures r.Ok? <==> Present(b) && NonNegative(b.price)
    ensures r.Ok? ==> r.value == Draft(b.title.s, b.description.s, b.price.v)
    ensures r.Ok? ==> r.value.title != "" && r.value.description != "" && r.value.price >= 0.0
  {
    if !Truthy(b.title) || !Truthy(b.description) || b.price.Absent? then
      Fail(RequiredMsg)
    else if b.price.NaN? || b.price.v < 0.0 then
      Fail(PriceMsg)
    else
      Ok(Draft(b.title.s, b.description.s, b.price.v))
  }

  /**
   * The `data` record of PUT: title and description are taken verbatim
   * whenever they are not `undefined` (even `""`); a price that is present
   * must pass the price rule.
   */
  function ValidatePatch(b: ServiceBody): (r: Result<Patch>)
    ensures r.Fail? <==> !b.price.Absent? && !NonNegative(b.price)
    ensures r.Fail? ==> r.error == PriceMsg
    ensures r.Ok? ==>
      && (r.value.title.Some? <==> b.title.Given?)
      && (b.title.Given? ==> r.value.title.value == b.title.s)
      && (r.value.description.Some? <==> b.description.Given?)
      && (b.description.Given? ==> r.value.description.value == b.description.s)
      && (r.value.price.Some? <==> b.price.Num?)
      && (b.price.Num? ==> r.value.price.value == b.price.v && b.price.v >= 0.0)
  {
    var title := if b.title.Given? then Some(b.title.s) else None;
    var description := if b.description.Given? then Some(b.description.s) else None;
    if b.price.Absent? then
      Ok(Patch(title, description, None))
    else if b.price.NaN? || b.price.v < 0.0 then
      Fail(PriceMsg)
    else
      Ok(Patch(title, description, Some(b.price.v)))
  }

  /**
   * The row after the store applies a patch: absent fields keep their
   * values, and the key and the creation time are never patched.
   */
  function Patched(s: Service, p: Patch): (r: Service)
    ensures r.id == s.id && r.createdAt == s.createdAt
  {
    var title := if p.title.Some? then p.title.value else s.title;
    var description := if p.description.Some? then p.description.value else s.description;
    var price := if p.price.Some? then p.price.value else s.price;
    s.(title := title, description := description, price := price)
  }

  /**
   * The services whose ids lie in [1, below), largest id first.  Each such
   * service appears once, and nothing else appears.
   */
  function NewestFirst(services: map<int, Service>, below: int): (r: seq<Service>)
    requires forall id :: id in services ==> services[id].id == id && 1 <= id
    ensures forall i :: 0 <= i < |r| ==>
      r[i].id in services && services[r[i].id] == r[i] && r[i].id < below
    ensures forall id :: id in services && id < below ==> services[id] in r
    ensures forall i, j :: 0 <= i < j < |r| ==> r[i].id > r[j].id
    decreases below
  {
    if below <= 1 then
      []
    else
      var rest := NewestFirst(services, below - 1);
      if below - 1 in services then [services[below - 1]] + rest else rest
  }

  /** GET /: every stored service, once each, newest `createdAt` first. */
  function GetServices(db: Db): (r: Reply<seq<Service>>)
    requires db.Valid()
    ensures r.status == 200 && r.body.Json?
    ensures forall id :: id in db.services ==> db.services[id] in r.body.value
    ensures forall s :: s in r.body.value ==> s.id in db.services && db.services[s.id] == s
    ensures forall i, j :: 0 <= i < j < |r.body.value| ==>
      r.body.value[i].id != r.body.value[j].id
      && r.body.value[i].createdAt > r.body.value[j].createdAt
  {
    Reply(200, Json(NewestFirst(db.services, db.nextServiceId)))
  }

  /**
   * POST /: the presence check, then the price rule, then the insert with a
   * fresh id and timestamp.  A rejected request leaves the store as it was.
   */
  function PostService(db: Db, b: ServiceBody): (r: Handled<Service>)
    requires db.Valid()
    ensures r.db.Valid()
    ensures r.reply == Reply(400, Error(RequiredMsg)) <==> !Present(b)
    ensures r.reply == Reply(400, Error(PriceMsg)) <==> Present(b) && !NonNegative(b.price)
    ensures r.reply.status == 201 <==> Present(b) && NonNegative(b.price)
    ensures r.reply.status != 201 ==> r.db == db
    ensures r.reply.status == 201 ==>
      && r.reply.body.Json?
      && var s := r.reply.body.value;
      && s.id !in db.services
      && s.title == b.title.s && s.description == b.description.s && s.price == b.price.v
      && (forall id :: id in db.services ==> db.services[id].createdAt < s.createdAt)
      && r.db.services == db.services[s.id := s]
      && r.db.orders == db.orders
      && r.db.onReferencedDelete == db.onReferencedDelete
  {
    match ValidateCreate(b)
    case Fail(msg) => Handled(db, Reply(400, Error(msg)))
    case Ok(d) =>
      var s := Service(db.nextServiceId, d.title, d.description, d.price, db.clock);
      Handled(db.(services := db.services[s.id := s], nextServiceId := s.id + 1, clock := db.clock + 1),
              Reply(201, Json(s)))
  }

  /**
   * PUT /:id: the id shape, then the price rule of the patch, then the
   * lookup.  Only the fields the body carries change.
   */
  function PutService(db: Db, id: PathId, b: ServiceBody): (r: Handled<Service>)
    requires db.Valid()
    ensures r.db.Valid()
    ensures id.NotNumeric? ==> r.reply == Reply(400, Error(InvalidIdMsg))
    ensures id.Id? && !b.price.Absent? && !NonNegative(b.price) ==>
      r.reply == Reply(400, Error(PriceMsg))
    ensures id.Id? && (b.price.Absent? || NonNegative(b.price)) && id.n !in db.services ==>
      r.reply == Reply(404, Error(NotFoundMsg))
    ensures r.reply.status == 200 <==>
      id.Id? && (b.price.Absent? || NonNegative(b.price)) && id.n in db.services
    ensures r.reply.status != 200 ==> r.db == db
    ensures r.reply.status == 200 ==>
      && r.reply.body.Json?
      && var before, s := db.services[id.n], r.reply.body.value;
      && s.id == before.id && s.createdAt == before.createdAt
      && s.title == (if b.title.Given? then b.title.s else before.title)
      && s.description == (if b.description.Given? then b.description.s else before.description)
      && s.price == (if b.price.Num? then b.price.v else before.price)
      && r.db == db.(services := db.services[id.n := s])
  {
    match id
    case NotNumeric => Handled(db, Reply(400, Error(InvalidIdMsg)))
    case Id(n) =>
      match ValidatePatch(b)
      case Fail(msg) => Handled(db, Reply(400, Error(msg)))
      case Ok(p) =>
        if n !in db.services then
          Handled(db, Reply(404, Error(NotFoundMsg)))
        else
          var s := Patched(db.services[n], p);
          Handled(db.(services := db.services[n := s]), Reply(200, Json(s)))
  }

  /**
   * PUT is idempotent: repeating an accepted update with the same body
   * answers the same and leaves the store as the first one left it.
   */
  lemma PutIdempotent(db: Db, id: PathId, b: ServiceBody)
    requires db.Valid()
    requires PutService(db, id, b).reply.status == 200
    ensures var first := PutService(db, id, b);
      PutService(first.db, id, b) == first
  {
    var first := PutService(db, id, b);
    var s := first.reply.body.value;
    assert first.db.services[id.n] == s;
    assert first.db.services[id.n := Patched(s, ValidatePatch(b).value)] == first.db.services;
  }

  /** Some order of the ledger references service `id`. */
  predicate Referenced(orders: seq<Order>, id: int)
  {
    exists i :: 0 <= i < |orders| && orders[i].serviceId == id
  }

  /** The ledger with the orders of service `id` taken out, the rest in order. */
  function WithoutOrdersOf(orders: seq<Order>, id: int): (r: seq<Order>)
    ensures |r| <= |orders|
    ensures forall i :: 0 <= i < |r| ==> r[i] in orders && r[i].serviceId != id
    ensures forall i :: 0 <= i < |orders| && orders[i].serviceId != id ==> orders[i] in r
    ensures !Referenced(orders, id) ==> r == orders
    decreases |orders|
  {
    if orders == [] then
      []
    else
      var rest := WithoutOrdersOf(orders[1..], id);
      if orders[0].serviceId == id then rest else [orders[0]] + rest
  }

  /**
   * Removing the orders of a service from a ledger made of two parts is
   * removing them from each part and joining the results: the orders that
   * stay keep their relative order.
   */
  lemma {:induction false} WithoutOrdersOfConcat(a: seq<Order>, b: seq<Order>, id: int)
    ensures WithoutOrdersOf(a + b, id) == WithoutOrdersOf(a, id) + WithoutOrdersOf(b, id)
    decreases |a|
  {
    if a == [] {
      assert a + b == b;
    } else {
      assert (a + b)[1..] == a[1..] + b;
      WithoutOrdersOfConcat(a[1..], b, id);
    }
  }

  /** In an increasing ledger the first order is older than every later one. */
  lemma HeadPrecedes(orders: seq<Order>, o: Order)
    requires Increasing(orders) && |orders| > 0 && o in orders[1..]
    ensures orders[0].id < o.id && orders[0].createdAt < o.createdAt
  {
    var k :| 0 <= k < |orders[1..]| && orders[1..][k] == o;
    assert orders[k + 1] == o;
  }

  /** Taking orders out keeps ids and timestamps increasing along the ledger. */
  lemma {:induction false} WithoutOrdersOfIncreasing(orders: seq<Order>, id: int)
    requires Increasing(orders)
    ensures Increasing(WithoutOrdersOf(orders, id))
    decreases |orders|
  {
    if orders != [] {
      var rest := WithoutOrdersOf(orders[1..], id);
      assert Increasing(orders[1..]);
      WithoutOrdersOfIncreasing(orders[1..], id);
      if orders[0].serviceId != id {
        var r := [orders[0]] + rest;
        assert WithoutOrdersOf(orders, id) == r;
        forall i, j | 0 <= i < j < |r|
          ensures r[i].id < r[j].id && r[i].createdAt < r[j].createdAt
        {
          if i == 0 {
            HeadPrecedes(orders, rest[j - 1]);
          }
        }
      } else {
        assert WithoutOrdersOf(orders, id) == rest;
      }
    }
  }

  /**
   * DELETE /:id: the id shape, then the lookup.  Deleting a service that
   * orders reference is decided by the store's relation rule: under
   * Restrict the store refuses and the failure surfaces as a 500; under
   * Cascade the referencing orders go with it.
   */
  function DeleteService(db: Db, id: PathId): (r: Handled<()>)
    requires db.Valid()
    ensures r.db.Valid()
    ensures id.NotNumeric? ==> r.reply == Reply(400, Error(InvalidIdMsg))
    ensures id.Id? && id.n !in db.services ==> r.reply == Reply(404, Error(NotFoundMsg))
    ensures id.Id? && id.n in db.services && Referenced(db.orders, id.n) && db.onReferencedDelete == Restrict ==>
      r.reply == Reply(500, Error(InternalErrorMsg))
    ensures r.reply.status == 204 <==>
      id.Id? && id.n in db.services
      && (!Referenced(db.orders, id.n) || db.onReferencedDelete == Cascade)
    ensures r.reply.status != 204 ==> r.db == db
    ensures r.reply.status == 204 ==>
      && r.reply.body == NoContent
      && r.db == db.(services := db.services - {id.n}, orders := WithoutOrdersOf(db.orders, id.n))
  {
    match id
    case NotNumeric => Handled(db, Reply(400, Error(InvalidIdMsg)))
    case Id(n) =>
      if n !in db.services then
        Handled(db, Reply(404, Error(NotFoundMsg)))
      else if Referenced(db.orders, n) && db.onReferencedDelete == Restrict then
        Handled(db, Reply(500, Error(InternalErrorMsg)))
      else
        assert !Referenced(db.orders, n) || db.onReferencedDelete == Cascade;
        WithoutOrdersOfIncreasing(db.orders, n);
        Handled(db.(services := db.services - {n}, orders := WithoutOrdersOf(db.orders, n)),
                Reply(204, NoContent))
  }

  /** Every service that exists after a successful POST is listed, the new one first. */
  lemma PostThenList(db: Db, b: ServiceBody)
    requires db.Valid()
    requires PostService(db, b).reply.status == 201
    ensures var r := PostService(db, b); var list := GetServices(r.db).body.value;
      |list| > 0 && list[0] == r.reply.body.value
      && forall id :: id in db.services ==> db.services[id] in list
  {
    var r := PostService(db, b);
    var s := r.reply.body.value;
    var list := GetServices(r.db).body.value;
    assert s in list;
    forall id | id in db.services ensures db.services[id] in list {
      assert id in r.db.services && r.db.services[id] == db.services[id];
    }
  }

  /** A rejected POST leaves no trace in the list (a price of -1 or "abc", say). */
  lemma RejectedPostNotListed(db: Db, b: ServiceBody)
    requires db.Valid()
    requires !NonNegative(b.price)
    ensures PostService(db, b).reply.status == 400
    ensures GetServices(PostService(db, b).db) == GetServices(db)
  {
  }

  /** After a successful DELETE the list holds every other service and not that one. */
  lemma DeleteThenList(db: Db, id: PathId)
    requires db.Valid()
    requires DeleteService(db, id).reply.status == 204
    ensures var list := GetServices(DeleteService(db, id).db).body.value;
      && (forall s :: s in list ==> s.id != id.n)
      && (forall k :: k in db.services && k != id.n ==> db.services[k] in list)
  {
    var after := DeleteService(db, id).db;
    forall k | k in db.services && k != id.n
      ensures db.services[k] in GetServices(after).body.value
    {
      assert k in after.services && after.services[k] == db.services[k];
    }
  }

  /**
   * PUT copies title and description verbatim: a present empty title is
   * stored, so the catalog can hold a service with an empty title.
   */
  lemma PutStoresEmptyTitle()
    ensures var db := EmptyDb(Restrict);
      var created := PostService(db, ServiceBody(Given("Logo"), Given("A logo"), Num(10.0)));
      var updated := PutService(created.db, Id(1), ServiceBody(Given(""), Missing, Absent));
      updated.reply.status == 200 && updated.db.services[1].title == ""
  {
    var db := EmptyDb(Restrict);
    var created := PostService(db, ServiceBody(Given("Logo"), Given("A logo"), Num(10.0)));
    assert created.reply.status == 201;
    assert 1 in created.db.services;
  }
}
