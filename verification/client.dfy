/**
 * The cart logic of client/src/App.jsx: adding and removing services, the
 * running total, and what placing an order or publishing a service does to
 * the page state.  Network answers are inputs: one per request sent.
 */
module Client {

  import opened Records
  import opened JsText

  const EmptyCartMsg := "Add at least one service before placing an order."
  const OrderOkMsg := "Order submitted. We will reach out shortly!"
  const OrderFailedMsg := "Order failed. Please try again in a moment."
  const PublishedMsg := "Service published successfully."
  const PublishFailedMsg := "Could not create the service. Check the form and try again."

  datatype OrderForm = OrderForm(customerName: string, email: string)
  datatype ServiceForm = ServiceForm(title: string, description: string, price: string)

  const EmptyOrderForm := OrderForm("", "")
  const EmptyServiceForm := ServiceForm("", "", "")

  /** The JSON body of one POST /api/orders request. */
  datatype OrderRequest = OrderRequest(customerName: string, email: string, serviceId: int)

  /** What `Number(...)` makes of the price field: a number, or `NaN`. */
  datatype JsNumber = Finite(x: real) | NotANumber

  /** The JSON body of a POST /api/services request. */
  datatype ServicePayload = ServicePayload(title: string, description: string, price: JsNumber)

  /** What `fetch` settles to: a response with its `ok` flag, or a rejection. */
  datatype FetchResult = Response(ok: bool) | NetworkError

  predicate Failed(f: FetchResult)
  {
    f.NetworkError? || !f.ok
  }

  /** The cart total: prices summed from the first item to the last, from 0. */
  function Total(cart: seq<Service>): (r: real)
    ensures cart == [] ==> r == 0.0
    ensures |cart| == 1 ==> r == cart[0].price
    decreases |cart|
  {
    if cart == [] then 0.0 else Total(cart[..|cart| - 1]) + cart[|cart| - 1].price
  }

  /** A cart of services with non-negative prices has a non-negative total. */
  lemma {:induction false} TotalNonNegative(cart: seq<Service>)
    requires forall i :: 0 <= i < |cart| ==> cart[i].price >= 0.0
    ensures Total(cart) >= 0.0
    decreases |cart|
  {
    if cart != [] {
      TotalNonNegative(cart[..|cart| - 1]);
    }
  }

  /** Adding a service to the cart adds its price to the total. */
  lemma TotalAppend(cart: seq<Service>, s: Service)
    ensures Total(cart + [s]) == Total(cart) + s.price
  {
    assert (cart + [s])[..|cart|] == cart;
  }

  /** The total of two carts put together is the sum of their totals. */
  lemma {:induction false} TotalConcat(a: seq<Service>, b: seq<Service>)
    ensures Total(a + b) == Total(a) + Total(b)
    decreases |b|
  {
    if b != [] {
      var n := |b| - 1;
      assert a + b == (a + b[..n]) + [b[n]];
      TotalConcat(a, b[..n]);
      TotalAppend(a + b[..n], b[n]);
      TotalAppend(b[..n], b[n]);
      assert b[..n] + [b[n]] == b;
    } else {
      assert a + b == a;
    }
  }

  /**
   * `items.filter((_, i) => i !== index)` over the items that sit at
   * positions `offset`, `offset + 1`, ...: the item at `index` goes, the
   * others stay in order.
   */
  function FilterIndex<T>(items: seq<T>, index: int, offset: int): (r: seq<T>)
    ensures offset <= index < offset + |items| ==>
      r == items[..index - offset] + items[index - offset + 1..]
    ensures !(offset <= index < offset + |items|) ==> r == items
    decreases |items|
  {
    if items == [] then
      []
    else
      var rest := FilterIndex(items[1..], index, offset + 1);
      if offset == index then rest else [items[0]] + rest
  }

  /** The cart after "Remove" at `index`; an index outside the cart removes nothing. */
  function Without(cart: seq<Service>, index: int): (r: seq<Service>)
    ensures 0 <= index < |cart| ==> r == cart[..index] + cart[index + 1..]
    ensures 0 <= index < |cart| ==> |r| == |cart| - 1
    ensures !(0 <= index < |cart|) ==> r == cart
  {
    FilterIndex(cart, index, 0)
  }

  /** The total of a cart with one item taken out, plus that item's price. */
  lemma TotalSplit(left: seq<Service>, x: Service, right: seq<Service>)
    ensures Total(left + [x] + right) == Total(left + right) + x.price
  {
    TotalConcat(left + [x], right);
    TotalAppend(left, x);
    TotalConcat(left, right);
  }

  /**
   * Removing an item takes exactly its price off the total.  The proof is a
   * split of the cart around the item, not an induction, so Dafny's own
   * induction is switched off.
   */
  lemma {:induction false} TotalWithout(cart: seq<Service>, index: int)
    requires 0 <= index < |cart|
    ensures Total(Without(cart, index)) == Total(cart) - cart[index].price
  {
    var left, x, right := cart[..index], cart[index], cart[index + 1..];
    assert cart == left + [x] + right;
    TotalSplit(left, x, right);
  }

  /** One order request per cart item, in cart order, with the trimmed form fields. */
  function OrderRequests(cart: seq<Service>, form: OrderForm): (r: seq<OrderRequest>)
    ensures |r| == |cart|
    ensures forall i :: 0 <= i < |r| ==>
      r[i] == OrderRequest(Trim(form.customerName), Trim(form.email), cart[i].id)
    decreases |cart|
  {
    if cart == [] then
      []
    else
      [OrderRequest(Trim(form.customerName), Trim(form.email), cart[0].id)]
        + OrderRequests(cart[1..], form)
  }

  /** `responses.some((response) => !response.ok)`, with a rejected fetch as a failure. */
  function AnyFailed(results: seq<FetchResult>): (r: bool)
    ensures r <==> exists i :: 0 <= i < |results| && Failed(results[i])
    decreases |results|
  {
    if results == [] then false else Failed(results[0]) || AnyFailed(results[1..])
  }

  /** The part of the page state that placing an order reads and writes. */
  datatype Screen = Screen(cart: seq<Service>, orderForm: OrderForm, message: string)

  /** The requests an order submit sends and the page state it leaves. */
  datatype Submission = Submission(requests: seq<OrderRequest>, after: Screen)

  /**
   * Placing an order: an empty cart is refused without a request;
   * otherwise one request per item is sent, and the answers decide one of
   * two outcomes only: all ok clears cart and form, anything else keeps
   * both and shows the one failure message.
   */
  function OrderSubmission(before: Screen, results: seq<FetchResult>): (r: Submission)
    requires |results| == |before.cart|
    ensures before.cart == [] ==>
      r.requests == [] && r.after == before.(message := EmptyCartMsg)
    ensures before.cart != [] ==>
      r.requests == OrderRequests(before.cart, before.orderForm)
    ensures before.cart != [] && (exists i :: 0 <= i < |results| && Failed(results[i])) ==>
      r.after == before.(message := OrderFailedMsg)
    ensures before.cart != [] && (forall i :: 0 <= i < |results| ==> !Failed(results[i])) ==>
      r.after == Screen([], EmptyOrderForm, OrderOkMsg)
  {
    if before.cart == [] then
      Submission([], before.(message := EmptyCartMsg))
    else
      var requests := OrderRequests(before.cart, before.orderForm);
      if AnyFailed(results) then
        Submission(requests, before.(message := OrderFailedMsg))
      else
        Submission(requests, Screen([], EmptyOrderForm, OrderOkMsg))
  }

  /**
   * There is no partial-success outcome: a checkout in which some orders
   * went through and some did not ends exactly like one in which none did.
   */
  lemma NoPartialSuccess(before: Screen, some: seq<FetchResult>, none: seq<FetchResult>)
    requires |some| == |before.cart| == |none| && before.cart != []
    requires exists i :: 0 <= i < |some| && !Failed(some[i])
    requires exists i :: 0 <= i < |some| && Failed(some[i])
    requires forall i :: 0 <= i < |none| ==> Failed(none[i])
    ensures OrderSubmission(before, some) == OrderSubmission(before, none)
  {
    assert Failed(none[0]);
  }

  /**
   * After a failed checkout the cart is kept, so trying again sends a
   * request for every item once more, those that went through included.
   */
  lemma RetryResendsEveryItem(before: Screen, first: seq<FetchResult>, second: seq<FetchResult>)
    requires |first| == |before.cart| == |second| && before.cart != []
    requires exists i :: 0 <= i < |first| && Failed(first[i])
    ensures var again := OrderSubmission(OrderSubmission(before, first).after, second);
      again.requests == OrderSubmission(before, first).requests
      && again.requests == OrderRequests(before.cart, before.orderForm)
  {
  }

  /** The page state of the client, as far as the cart logic touches it. */
  class App {
    var cart: seq<Service>
    var orderForm: OrderForm
    var serviceForm: ServiceForm
    var message: string

    constructor ()
      ensures cart == [] && orderForm == EmptyOrderForm && serviceForm == EmptyServiceForm
      ensures message == ""
    {
      cart, orderForm, serviceForm, message := [], EmptyOrderForm, EmptyServiceForm, "";
    }

    /** "Add to cart": the service goes at the end, duplicates allowed. */
    method AddToCart(s: Service)
      modifies this`cart
      ensures cart == old(cart) + [s]
      ensures Total(cart) == Total(old(cart)) + s.price
    {
      TotalAppend(cart, s);
      cart := cart + [s];
    }

    /** "Remove" on the item at `index`. */
    method RemoveFromCart(index: int)
      modifies this`cart
      ensures cart == Without(old(cart), index)
      ensures 0 <= index < |old(cart)| ==> Total(cart) == Total(old(cart)) - old(cart)[index].price
    {
      if 0 <= index < |cart| {
        TotalWithout(cart, index);
      }
      cart := Without(cart, index);
    }

    /**
     * "Place order": `results[i]` is what the request for `cart[i]`
     * settled to.  Returns the requests sent.
     */
    method SubmitOrder(results: seq<FetchResult>) returns (requests: seq<OrderRequest>)
      requires |results| == |cart|
      modifies this`cart, this`orderForm, this`message
      ensures Submission(requests, Screen(cart, orderForm, message))
        == OrderSubmission(old(Screen(cart, orderForm, message)), results)
    {
      if cart == [] {
        message := EmptyCartMsg;
        return [];
      }
      message := "";
      requests := OrderRequests(cart, orderForm);
      if AnyFailed(results) {
        message := OrderFailedMsg;
        return;
      }
      cart := [];
      orderForm := EmptyOrderForm;
      message := OrderOkMsg;
    }

    /**
     * "Publish service": `price` is `Number(serviceForm.price)` and `result`
     * is what the POST settled to.  Returns the body sent.
     */
    method SubmitService(price: JsNumber, result: FetchResult) returns (payload: ServicePayload)
      modifies this`serviceForm, this`message
      ensures payload == ServicePayload(Trim(old(serviceForm).title), Trim(old(serviceForm).description), price)
      ensures !Failed(result) ==> serviceForm == EmptyServiceForm && message == PublishedMsg
      ensures Failed(result) ==> serviceForm == old(serviceForm) && message == PublishFailedMsg
    {
      message := "";
      payload := ServicePayload(Trim(serviceForm.title), Trim(serviceForm.description), price);
      if Failed(result) {
        message := PublishFailedMsg;
        return;
      }
      serviceForm := EmptyServiceForm;
      message := PublishedMsg;
    }
  }
}
