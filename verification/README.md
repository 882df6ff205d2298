# glow-market: order lifecycle and product ownership, in Dafny

A model of the marketplace backend's business rules. The Java code keeps
products and orders in two database tables behind Spring services. This
model keeps them as two pure stores:

- the product store is a map from product id to `Product`, plus the next
  identity value;
- the order store is a sequence of `Order`. Orders are never deleted and
  their ids are handed out in increasing order, so an order's id is its
  position.

Every service call is a pure function from a `State` to
`Result<State, Error>`. An `Err` stands for an exception the Java code
throws, or for the 400 response the reserve endpoint returns for a
quantity above the stock. A failed call leaves the state as it was.

Modules follow the source:

- `Products` and `Orders` model the two JPA entities and their mutators.
- `MarketState` holds the stores and the error taxonomy.
- `ProductService` and `OrderService` model the two services.
- `Controllers` models the three guards the HTTP layer adds in front of them:
  a SELLER-only, always-FOR_SALE listing; a quantity capped by the stock;
  `findById` before approval.
- `Lifecycle` strings every entry point into runs of atomic steps and proves
  facts about whole runs.

The central fact is `Lifecycle.ApprovalUnreachable`, stated per product.
`reserveProduct` requires FOR_SALE and never changes the product.
`approveSale` requires RESERVED. The only call that sets RESERVED is a
seller's own edit (`updateProduct` with status RESERVED). So a product for
which no such edit is accepted can never have an order approved, whatever is
done to other products and however many such requests are refused.
`Lifecycle.ManualReservedEnablesApproval` shows that the edit is exactly what
unlocks approval.

The model follows the Java code where the program's tests expect something
else:

- approval requires the product to be RESERVED. The approval test
  (`OrderServiceTest.java:85`) sets it up FOR_SALE.
- approval never decrements stock. The test (`OrderServiceTest.java:98`)
  expects `minusStock`.
- there is no InsufficientStock failure on approval
  (`OrderServiceTest.java:112`).

The product becomes SOLD_OUT when the order's quantity equals the product's
current stock (`OrderService.java:67`).

## Model

| member | source | states |
|---|---|---|
| `Products.UpdateDetails` | src/main/java/org/example/market/domain/Product.java:44-48 | name, price and stock take the given values; status and seller are kept |
| `Products.SetStatus` | src/main/java/org/example/market/domain/Product.java:49-51 | only the status changes, to the given one |
| `Products.MarkSoldOut` | src/main/java/org/example/market/domain/Product.java:52-54 | status becomes SOLD_OUT; name, price, seller and stock are kept |
| `Products.SoldOutIdempotent` | src/main/java/org/example/market/domain/Product.java:49-54 | `soldOut` is `setStatus(SOLD_OUT)`, and applying it twice equals applying it once |
| `Products.MinusStock` | src/main/java/org/example/market/domain/Product.java:55-57 | new stock plus the amount is the old stock; every other field is kept |
| `Products.MinusStockInverse` | src/main/java/org/example/market/domain/Product.java:55-57 | subtracting `n` then `-n` gives back the same product |
| `Products.MinusStockAdditive` | src/main/java/org/example/market/domain/Product.java:55-57 | two subtractions equal one subtraction of their sum |
| `Products.MinusStockBelowZero` | src/main/java/org/example/market/domain/Product.java:55-57 | with no lower-bound guard, the stock goes negative exactly when more than the stock is taken |
| `Products.MutatorsKeepSeller` | src/main/java/org/example/market/domain/Product.java:30-58 | none of the four mutators changes the seller |
| `Orders.SetCompleted` | src/main/java/org/example/market/domain/Orders.java:59-61 | status becomes COMPLETED; product, buyer, quantity and total price are kept |
| `Orders.SetCompletedIdempotent` | src/main/java/org/example/market/domain/Orders.java:59-61 | completing twice equals completing once; a completed order is a fixed point |
| `ProductService.Save` | src/main/java/org/example/market/service/ProductService.java:29-33 | the product is stored under a fresh id, and every previously stored product is kept |
| `ProductService.FindById` | src/main/java/org/example/market/service/ProductService.java:39-41 | present exactly when the id is stored, and then it is that product |
| `ProductService.FindBySeller` | src/main/java/org/example/market/service/ProductService.java:47-49 | an id is in the result iff it is stored with that seller; the values are the stored products |
| `ProductService.FindByStatus` | src/main/java/org/example/market/service/ProductService.java:43-45 | an id is in the result iff it is stored with that status; the values are the stored products |
| `ProductService.FindByStatusPartitions` | src/main/java/org/example/market/domain/Product.java:21-24 | the three status queries are pairwise disjoint and together cover the store |
| `ProductService.UpdateProduct` | src/main/java/org/example/market/service/ProductService.java:52-71 | unknown id gives ProductNotFound, then a foreign caller gives Unauthorized, and success happens iff neither applies. On success name, price and stock come from the request, and the status is replaced only if the request has one. Seller, other products and orders are kept |
| `ProductService.UpdateProductIdempotent` | src/main/java/org/example/market/service/ProductService.java:52-71 | repeating a successful update gives the same store |
| `ProductService.UpdateProductOverwrites` | src/main/java/org/example/market/service/ProductService.java:60-64 | the outcome does not depend on the old name, price or stock, so the update is not a partial patch |
| `ProductService.DeleteProduct` | src/main/java/org/example/market/service/ProductService.java:74-83 | unknown id gives ProductNotFound, then a foreign caller gives Unauthorized and the product stays. On success exactly that id is removed and all others are untouched |
| `ProductService.SaveThenFindById` | src/main/java/org/example/market/service/ProductService.java:29-41 | a saved product is found under the returned id, and lookups of every other id are unchanged |
| `ProductService.DeleteThenNotFound` | src/main/java/org/example/market/service/ProductService.java:74-83 | after a successful delete, lookup finds nothing, and deleting or updating the same id fails with ProductNotFound |
| `OrderService.FindById` | src/main/java/org/example/market/service/OrderService.java:30-32 | the stored order when the id exists, otherwise OrderNotFound |
| `OrderService.ReserveProduct` | src/main/java/org/example/market/service/OrderService.java:35-52 | the first failing guard decides the error, in this order: ProductNotFound, Unauthorized (buyer is the seller), IllegalState (not FOR_SALE), IllegalArgument (price disagreement). Failures save no order. Success appends exactly one RESERVED order with the given quantity and total price·quantity, and leaves the products unchanged |
| `OrderService.PriceAgreesIff` | src/main/java/org/example/market/service/OrderService.java:47-49 | listed·q = offered·q holds iff q = 0 or offered = listed, so at quantity 0 any price passes |
| `OrderService.ReserveSucceedsIff` | src/main/java/org/example/market/service/OrderService.java:35-52 | reservation succeeds iff the product exists, is someone else's, is FOR_SALE and the price is the listed one (or q = 0). The recorded total then equals listed price·quantity |
| `OrderService.ApproveSale` | src/main/java/org/example/market/service/OrderService.java:55-70 | errors in order: ProductNotFound, Unauthorized, IllegalState (not RESERVED). Success happens iff none applies. The order becomes COMPLETED and the product becomes SOLD_OUT iff quantity equals stock, otherwise it keeps its status. Stock and every other product and order are unchanged |
| `OrderService.ReserveThenFindById` | src/main/java/org/example/market/service/OrderService.java:30-51 | a successful reservation is found under the next order id as a RESERVED order with the given quantity and total price·quantity; every other id looks up as before |
| `OrderService.ApproveThenFindById` | src/main/java/org/example/market/service/OrderService.java:30-70 | after a successful approval, lookup finds the same order, now COMPLETED |
| `OrderService.BuyerOrderIds` | src/main/java/org/example/market/repository/OrderRepository.java:13 | exactly the ids of the buyer's orders, strictly increasing |
| `OrderService.GetOrdersByMember` | src/main/java/org/example/market/service/OrderService.java:72-85 | one response per order of the buyer, in id order. Each carries that order's id, current product name, total price, status and quantity |
| `OrderService.ListedExactlyBuyerOrders` | src/main/java/org/example/market/service/OrderService.java:72-85 | the list names only the buyer's orders, each exactly once, in increasing id order, and misses none |
| `Controllers.AddProduct` | src/main/java/org/example/market/controller/ProductController.java:30-43 | succeeds iff the caller is a SELLER, otherwise Unauthorized. The new product has exactly the given name, price and stock, status FOR_SALE and the caller as seller, and nothing else changes |
| `Controllers.AddThenFindBySeller` | src/main/java/org/example/market/controller/ProductController.java:30-68 | after a seller adds a product, that seller's listings are the earlier ones plus the new FOR_SALE product |
| `Controllers.ReserveRequest` | src/main/java/org/example/market/controller/OrderController.java:32-46 | unknown product, then quantity above stock, are refused before the service's guards. A successful reservation never asks for more than the stock |
| `Controllers.ApproveRequest` | src/main/java/org/example/market/controller/OrderController.java:48-58 | an unknown order id gives OrderNotFound; otherwise the result is the service's approval |
| `Lifecycle.Step` | src/main/java/org/example/market/service/OrderService.java:34-35 | each entry point is one transaction: a failed call leaves the state unchanged, a successful one commits its result; the stores stay well-formed and ids are never reused |
| `Lifecycle.ApproveNeedsReserved` | src/main/java/org/example/market/service/OrderService.java:63-65 | approval succeeds only on a stored order whose product is stored and RESERVED; a product that is not RESERVED gives IllegalState once it exists and the caller owns it |
| `Lifecycle.StepKeepsNotReserved` | src/main/java/org/example/market/service/OrderService.java:43-51 | a step that is not an accepted edit of product `pid` into RESERVED keeps `pid` out of RESERVED; refused requests change nothing |
| `Lifecycle.RunKeepsNotReserved` | src/main/java/org/example/market/service/OrderService.java:35-70 | a product that is not RESERVED stays out of RESERVED over any run in which no edit of it into RESERVED is accepted, whatever happens to other products |
| `Lifecycle.ApprovalUnreachable` | src/main/java/org/example/market/service/OrderService.java:35-70 | after any run in which no edit of product `pid` into RESERVED is accepted (refused ones are allowed), every approval of an order for `pid` fails, with IllegalState once product and owner check out |
| `Lifecycle.ManualReservedEnablesApproval` | src/main/java/org/example/market/service/ProductService.java:66-68 | in a concrete run, approval fails while the product is FOR_SALE. After the seller edits it to RESERVED, approval completes the order and sells the product out with stock untouched |
| `Lifecycle.RefusedReservedEditKeepsApprovalBlocked` | src/main/java/org/example/market/service/ProductService.java:56-58 | in a concrete run, a non-owner's request to edit the product into RESERVED is refused as Unauthorized, and the seller's approval still fails with IllegalState |
| `Lifecycle.StepOrders` | src/main/java/org/example/market/domain/Orders.java:45-61 | one step only appends orders (new ones RESERVED) and changes a recorded order at most by completing it |
| `Lifecycle.RunOrders` | src/main/java/org/example/market/domain/Orders.java:45-61 | over any run, product, buyer, quantity and total price of every order are fixed, and its status stays or becomes COMPLETED. Orders created during the run are never CANCELED |
| `Lifecycle.NeverCanceled` | src/main/java/org/example/market/domain/Orders.java:33-37 | no run moves any order to CANCELED |
| `Lifecycle.StepKeepsSeller` | src/main/java/org/example/market/domain/Product.java:30-32 | a product surviving a step keeps its seller, and no step revives an id already handed out |
| `Lifecycle.RunKeepsSeller` | src/main/java/org/example/market/domain/Product.java:30-58 | a product id handed out before a run that is present after it was present before, with the same seller |
| `Lifecycle.OrderFlowKeepsStock` | src/main/java/org/example/market/service/OrderService.java:35-70 | reservations and approvals keep the set of products, and leave each one unchanged or marked SOLD_OUT. Stock is never decremented |

## Left out

- HTTP plumbing is not modelled: ResponseEntity mapping, the response DTOs, logging, and the approve endpoint's `OrderCompleteResponse`.
- The "login required" check and the member lookup by username (UsernameNotFound) are left out. Authentication, JWT and password hashing belong to library code that is not part of this model.
- `MemberController` and member registration are not part of this model. A member is an opaque id; `Member.equals` is not shown and is modelled as id equality. The role is used only by the add-product guard.
- `ProductService.findAll` returns the whole product store and needs no member of its own.
- `getOrdersByProduct` is left out. The order controller calls it, but the order service does not define it, and the tests only expect it.
- The tests also expect behaviour the code does not implement: a `reserveProduct(Product, …)` overload, a stock decrement on approval, and an InsufficientStock failure. None of these is modelled.
- Persistence, `@Transactional` scoping and JPA dirty checking become one atomic step per call (`Lifecycle.Step`). A failed call leaves the state unchanged.
- Concurrent reservations are not modelled. The code does not serialise them.
- Integers are unbounded. The model does not cover Java `long` overflow in `price*quantity`, the `int` width of `stock`, the narrowing in `minusStock(Long)`, or `stock.intValue()` on registration.
- Nulls are not modelled, except for the optional status of an update request. A null name, price or stock, and the resulting unboxing failures, are left out.
- The foreign key from an order to its product is not modelled. In the database it would make deleting a product with orders fail. `OrderService.GetOrdersByMember` instead requires the buyer's orders to refer to stored products, because it reads their names.
- `OrderService.GetOrdersByMember` lists orders in increasing id order. The derived query `findByBuyer` has no ORDER BY, so the database's order is not modelled.
- Order ids are positions in the order store, starting at 0; the database's IDENTITY column starts at 1, so `OrderResponse.id` is one less than the Java response's id. Product ids start at 1, as in the database.
- `OrderService.ApproveSale` takes a stored order id (`oid < |orders|`). The Java method receives an order entity that the controller has already loaded, and `Controllers.ApproveRequest` models that lookup.
