# Nexora marketplace core in Dafny

This project models the core of Nexora, a marketplace where sellers publish
fixed-price services and buyers order them. The model covers three parts:

- **Service catalog.** These are the four handlers of
  `server/src/routes/services.js`: list, create, partial update and delete.
  Each one validates in a fixed order and answers with an exact status and
  error message.
- **Order ledger.** These are the two handlers of
  `server/src/routes/orders.js`. Create validates the body, and the store's
  foreign key then refuses an order whose service does not exist. List joins
  every order with the current row of its service.
- **Client cart.** This is the cart logic of `client/src/App.jsx`: add,
  remove, the total, placing an order (one request per cart item) and
  publishing a service.

The relational store is an in-memory value `Records.Db`. It holds services
keyed by id, orders in insertion order, one id counter per table and a
logical clock that stamps `createdAt`. Each handler is a function from the
store and its inputs to the new store and the reply (`Catalog`, `Ledger`).
The class `Store.Store` holds the same tables as fields that change in
place. Each of its methods is one handler, and its contract ties the reply
and the new tables to that function. `Client.App` does the same for the
page state of the client.

JavaScript coercions are abstracted:

- A text field is `Missing` (`undefined`) or `Given(s)`. It is truthy when
  it is a non-empty string.
- A numeric field records what `Number(...)` gives: `Absent`, `Num(v)` or
  `NaN`.
- The `:id` path segment is `Id(n)` or `NotNumeric`.

Prices are `real`, so there is no floating point.

The schema's rule for deleting a service that orders still reference is
not part of this model. It is a parameter of the store (`DeletePolicy`):

- `Restrict`: the store refuses the delete. That error is not the
  "not found" code, so it reaches the top-level handler in
  `server/src/app.js` as a 500.
- `Cascade`: the orders of that service are deleted along with it.

The handler contracts, the store invariant and the ledger history
(`Server.LedgerHistory`) are proved under both rules. The ledger only grows
under Restrict (`Server.StepKeepsLedger`, `Server.LedgerOnlyGrows`). Under
Cascade, deleting a referenced service takes its orders off the ledger
(`Server.CascadeDeleteShrinksLedger`).

Some behaviours of the code are easy to get wrong, and the model follows
the code in each:

- **Create does not trim.** Title and description are only checked for
  truthiness, so a title of `"  "` is accepted and stored. Trimming happens
  only in the client.
- **Update can blank a title.** PUT copies `title` and `description`
  verbatim whenever they are defined, so an empty string is stored
  (`Catalog.PutStoresEmptyTitle`). The catalog can therefore hold a service
  with an empty title.
- **Price is checked before the lookup.** A PUT with an invalid price gets
  400 even when the id does not exist.
- **Partial success is not reported.** A checkout where some orders succeed
  and others fail has no outcome of its own. Any failed request keeps the
  cart and shows one failure message. The orders that did succeed stay in
  the ledger (`Checkout.PartialSuccessReportedAsFailure`,
  `Client.NoPartialSuccess`). Placing the order again sends those items
  once more (`Client.RetryResendsEveryItem`).

## Model

| member | source | states |
|---|---|---|
| Catalog.ValidateCreate | server/src/routes/services.js:19-28 | Presence is checked first: a falsy title or description, or an undefined price, gives exactly the "required" error. Only after that does a NaN or negative price give the price error. Success carries the inputs unchanged, and the price is at least 0. |
| Catalog.ValidatePatch | server/src/routes/services.js:51-62 | The patch has title or description exactly when the body defines them, copied verbatim (even `""`). It has a price exactly when one is given. A given price that is NaN or negative is the only failure, with the price message. |
| Catalog.Patched | server/src/routes/services.js:64-67 | The update never changes a row's id or its createdAt. |
| Catalog.PutIdempotent | server/src/routes/services.js:44-76 | Repeating an accepted PUT with the same id and body gives the same reply and leaves the store as the first one left it. |
| Catalog.NewestFirst | server/src/routes/services.js:8-10 | Every service with an id below the bound is listed once and nothing else is, with ids strictly decreasing. |
| Catalog.GetServices | server/src/routes/services.js:6-15 | Returns 200 with every stored service exactly once and nothing else, in strictly decreasing createdAt order. |
| Catalog.PostService | server/src/routes/services.js:17-42 | Returns the "required" 400 exactly when presence fails, and the price 400 exactly when presence holds and the price is NaN or negative. Returns 201 otherwise. On error the store is unchanged. On success the new service has a fresh id, the given fields, and a createdAt later than all others, and nothing else in the store changes. The store invariant (price >= 0 for every service) is kept. |
| Catalog.PutService | server/src/routes/services.js:44-76 | A non-numeric id gives 400 "Invalid service id." An invalid price gives 400 even for an unknown id. An unknown id gives 404 "Service not found." Any error leaves the store unchanged. Returns 200 exactly when the id exists and the price is valid. Then only the fields the body defines change, and no other service changes. |
| Catalog.WithoutOrdersOf | server/src/routes/services.js:85 | When a delete cascades, exactly the orders of the deleted service are removed and the rest stay. With no referencing orders the ledger is unchanged. |
| Catalog.WithoutOrdersOfConcat | server/src/routes/services.js:85 | Removing a service's orders from two joined parts of the ledger is removing them from each part and joining the results, so the orders that stay keep their relative order. |
| Catalog.WithoutOrdersOfIncreasing | server/src/routes/services.js:85 | Removing orders keeps ids and createdAt strictly increasing along the ledger. |
| Catalog.DeleteService | server/src/routes/services.js:78-93 | A non-numeric id gives 400, an unknown id gives 404, and a referenced service under Restrict gives 500. All of these leave the store unchanged. Returns 204 with no body exactly when the id exists and the store allows it. Then exactly that service is removed, plus its orders under Cascade. |
| Catalog.PostThenList | server/src/routes/services.js:25-38 | After a successful create, the list starts with the new service and still holds every earlier one. |
| Catalog.RejectedPostNotListed | server/src/routes/services.js:25-28 | A create whose price is NaN or negative is rejected with 400, and the list is unchanged. |
| Catalog.DeleteThenList | server/src/routes/services.js:85-86 | After a 204 delete, the list holds no service with that id and still holds every other service. |
| Catalog.PutStoresEmptyTitle | server/src/routes/services.js:54 | A PUT with title `""` succeeds and stores the empty title. |
| Ledger.ValidateOrder | server/src/routes/orders.js:19-29 | A falsy name or email, or an undefined serviceId, gives exactly the "required" error. After that, a NaN serviceId gives "serviceId must be a number." Success keeps the name and email verbatim (no trimming, no format check). |
| Ledger.PostOrder | server/src/routes/orders.js:18-46 | Each of the three 400 messages is returned exactly under its condition, in check order. The third is "serviceId does not exist." for an unknown service. Returns 201 exactly when the fields are present and the service exists. On error nothing changes. On success exactly one order is appended, with the given fields, a serviceId that exists now, and an id above every existing one. The catalog is unchanged. |
| Ledger.JoinNewestFirst | server/src/routes/orders.js:8-11 | The ledger reversed, with each order paired with the current row of its service. |
| Ledger.GetOrders | server/src/routes/orders.js:6-16 | Returns 200 with every order, newest createdAt first, each joined with the current row of its service. |
| Ledger.UpdateShowsInOrderList | server/src/routes/orders.js:8-11 | After a service row is edited, orders placed earlier are listed with the edited row, not the row as it was when they were placed. |
| Ledger.OrderThenList | server/src/routes/orders.js:31-39 | Ordering an existing service with a valid name and email returns 201. The order list then starts with that order joined with that service. |
| Server.Step | server/src/app.js:25-26 | Each request, whichever route it takes, keeps the store invariant, including referential integrity of every order. |
| Server.Run | server/src/app.js:25-26 | Any sequence of requests keeps the store invariant. |
| Server.StepOrders | server/src/routes/orders.js:31-42 | After one request, each order in the ledger was already there, or was just appended by an order request whose service existed at that moment. |
| Server.LedgerHistory | server/src/routes/orders.js:31-42 | After any sequence of requests, every order was in the initial ledger or was created by one of the requests at a moment when its service existed. |
| Server.StepKeepsLedger | server/src/routes/orders.js:6-46 | Under Restrict, no request removes or edits an order: the old ledger is a prefix of the new one. |
| Server.LedgerOnlyGrows | server/src/routes/orders.js:6-46 | Under Restrict, the ledger only grows over any sequence of requests. |
| Server.CascadeDeleteShrinksLedger | server/src/routes/services.js:85-86 | Under Cascade, deleting a referenced service removes every order of that service, so the old ledger is no longer a prefix of the new one. |
| Store.Store.GetServices | server/src/routes/services.js:6-15 | The reply is the catalog list of the current tables. |
| Store.Store.PostService | server/src/routes/services.js:17-42 | The new tables and the reply are those of Catalog.PostService, and the invariant is kept. On success exactly one service with a non-negative price is added. The orders are untouched. |
| Store.Store.PutService | server/src/routes/services.js:44-76 | The new tables and the reply are those of Catalog.PutService, and the invariant is kept. |
| Store.Store.DeleteService | server/src/routes/services.js:78-93 | The new tables and the reply are those of Catalog.DeleteService, and the invariant is kept. |
| Store.Store.GetOrders | server/src/routes/orders.js:6-16 | The reply is the joined order list of the current tables. |
| Store.Store.PostOrder | server/src/routes/orders.js:18-46 | The new tables and the reply are those of Ledger.PostOrder, and the invariant is kept. On success exactly one order, whose service existed, is appended. On error the ledger is unchanged. The services never change. |
| JsText.TrimStart | client/src/App.jsx:75 | The result is a suffix of the input, everything dropped is white space, and the result does not start with white space. |
| JsText.TrimEnd | client/src/App.jsx:75 | The result is a prefix of the input, everything dropped is white space, and the result does not end with white space. |
| JsText.Trim | client/src/App.jsx:75-76 | The result is a contiguous slice of the input with only white space on either side, and it neither starts nor ends with white space. |
| JsText.TrimIdempotent | client/src/App.jsx:123-124 | Trimming twice is the same as trimming once. |
| JsText.TrimBlank | client/src/App.jsx:123-124 | A field of white space only trims to the empty string. |
| Client.Total | client/src/App.jsx:27-30 | The total of an empty cart is 0, and a one-item cart totals that item's price. |
| Client.TotalNonNegative | client/src/App.jsx:28 | A cart of non-negative prices has a non-negative total. |
| Client.TotalAppend | client/src/App.jsx:98-100 | Adding a service adds its price to the total. |
| Client.TotalConcat | client/src/App.jsx:28 | The total of two carts put together is the sum of their totals. |
| Client.TotalSplit | client/src/App.jsx:28 | The total with one item in the middle is the total without it plus its price. |
| Client.FilterIndex | client/src/App.jsx:103 | Filtering by position drops exactly the item at the index and keeps the others in order. An index outside the range drops nothing. |
| Client.Without | client/src/App.jsx:102-104 | Removing at a valid index gives the cart without exactly that element, one shorter, with order kept. An out-of-range index leaves the cart unchanged. |
| Client.TotalWithout | client/src/App.jsx:102-104 | Removing an item takes exactly its price off the total. |
| Client.OrderRequests | client/src/App.jsx:117-129 | Exactly one request per cart item, in cart order, each with the trimmed name, the trimmed email and that item's id. |
| Client.AnyFailed | client/src/App.jsx:131 | True exactly when some request was rejected or answered with a response that is not ok. |
| Client.OrderSubmission | client/src/App.jsx:106-143 | An empty cart sends no request, sets "Add at least one service before placing an order." and keeps the cart. Otherwise it sends the requests of OrderRequests. If all succeed, the cart and form are cleared with the success message. Any failure keeps the cart and form and sets the single failure message. |
| Client.NoPartialSuccess | client/src/App.jsx:131-139 | A checkout where some requests succeed ends exactly like one where all fail. |
| Client.RetryResendsEveryItem | client/src/App.jsx:131-139 | After a failed checkout, the next one sends the same requests for every item again. |
| Client.App.constructor | client/src/App.jsx:21-24 | The page starts with an empty cart, empty forms and no message. |
| Client.App.AddToCart | client/src/App.jsx:98-100 | The service is appended at the end, earlier items stay, and the total grows by its price. |
| Client.App.RemoveFromCart | client/src/App.jsx:102-104 | The cart becomes Without(cart, index), and a valid removal lowers the total by that item's price. |
| Client.App.SubmitOrder | client/src/App.jsx:106-143 | The requests sent and the new cart, form and message are those of OrderSubmission. |
| Client.App.SubmitService | client/src/App.jsx:68-96 | Sends the trimmed title, the trimmed description and the numeric price. The form is reset with the success message only when the request succeeds. Otherwise the form is kept and the failure message is set. |
| Checkout.Deliver | client/src/App.jsx:117-129 | The order route handles a checkout's requests and gives one result per request. The catalog is unchanged, the ledger only grows and the invariant is kept. |
| Checkout.DeliverOutcome | server/src/routes/orders.js:31-42 | With a non-empty name and email, a checkout request succeeds exactly when its service exists. The ledger grows by one order per success. |
| Checkout.MixedDelivery | server/src/routes/orders.js:31-43 | A checkout with one request for an existing service and one for a missing service creates at least one order, and the missing one fails. |
| Checkout.PartialSuccessReportedAsFailure | client/src/App.jsx:131-139 | If some cart services exist and some do not, orders are created, yet the page keeps the whole cart and shows only the failure message. |
| Checkout.NamelessDeliversNothing | server/src/routes/orders.js:22-24 | Order requests with an empty customer name all fail, and the store is unchanged. |
| Checkout.BlankNameOrdersNothing | client/src/App.jsx:123 | A customer name of white space only trims to "". The order route then refuses every request of the checkout, no order is written, and the page keeps the cart with the failure message. |

## Left out

- Text fields that are neither `undefined` nor strings are not modelled. A text field here is either undefined or a string.
  - On POST /api/services and POST /api/orders, a falsy value (`null`, `0`, `false`) fails the presence check and gets the "required" 400 without reaching the store. A truthy non-string (a number, an object) reaches the store.
  - On PUT, any defined value, `null` included, is passed to the store.
  - What the store answers to such values depends on the schema, which is not part of this model.
- `Number(...)` itself is not modelled. A numeric field is given by what the coercion yields.
  - A path id and a `serviceId` hold integers only. Fractional values such as `1.5` and `Infinity` are therefore excluded, not modelled.
  - In the source such values pass the NaN checks and reach the store, and the answer depends on the schema.
  - Prices are reals, so an infinite price is excluded too.
  - `""` and `null` coerce to 0 and are covered as the number 0.
- The integer width of ids is not modelled. A path id and a `serviceId` are unbounded integers here.
  - An id beyond the store's integer range, such as 3000000000 against a 32-bit key, is an unknown id in the model: PUT and DELETE answer 404, and order create answers 400 "serviceId does not exist.".
  - In the source such a value passes the NaN checks and reaches the store. The store's refusal is neither the not-found nor the foreign-key code, so the top-level handler answers 500, depending on the schema.
- Price precision is not modelled. The schema is not part of this model, so prices are stored as exact reals with no decimal rounding.
- Wall-clock time is not modelled. `createdAt` comes from a logical clock that advances on every insert, so timestamps never tie.
- Id gaps from failed inserts are not modelled. A rejected insert consumes no id here. Some databases would skip one.
- Store failures other than "not found", the foreign-key refusal on order create and the refused delete (connection loss, for example) are not modelled. In the source they become a 500.
- The store's relation rule for deleting a referenced service is not modelled. It is a parameter (Restrict or Cascade), not a fixed choice.
  - A rule that allows the delete but leaves the orders behind is excluded (for example, setting an optional `serviceId` to null).
  - Under such a rule, the ledger invariant that every order's service exists would fail, and so would the requirement of `Ledger.JoinNewestFirst` that every order has its service.
- The Express wiring in `server/src/app.js` is not modelled, apart from the 500 body: CORS, the JSON body parser, the health route, the root route and the 404 fallback.
- The concurrency of `Promise.all` is not modelled. A checkout's requests are handled one after another in cart order. Creating an order never changes the catalog, so the outcome of each request is the same in any order.
- In the client, `fetch` results are inputs to the methods, one per request. `Number(serviceForm.price)` is also an input, and JSON encoding (a `NaN` price is sent as `null`) is not modelled.
- React rendering, `formatPrice`, the `busy` and `status` flags, the health ping, `loadServices` and the client's service list are not modelled. The input-change handlers `handleServiceChange` and `handleOrderChange` are also out: they copy one input into a form field.
- `client/src/App.test.jsx` is not part of this model. It is a render smoke test.
- Client.App.SubmitService: the reply's effect on the client's service list is not stated, because `loadServices` is not modelled.
- Client.Total assumes each listed price arrives as a JSON number. If the schema stores prices as decimals serialised as strings, the sum at client/src/App.jsx:28 would concatenate text, and the model does not capture that.
