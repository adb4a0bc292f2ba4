# Point-of-sale order lifecycle, modelled in Dafny

This project models the order core of a .NET point-of-sale backend. The backend keeps orders in
two stores: a Dapr key-value state store and a PostgreSQL database. Changes to orders travel
over a Dapr publish/subscribe bus.

- **`PosService`** (`pos_service.dfy`) is the coordinator.
  - It numbers, stamps and totals a new order, saves it in the state store under its order
    number and publishes it on `orderCreated`.
  - It updates an order's status in the state store and publishes `{ OrderNumber, Status }` on
    `orderStatusUpdated`.
  - It bridges to the relational side. `SaveOrderAsync` swallows errors, and
    `UpdateOrderAsync` always answers false.
  - The state store is a `map<string, Order>` and the bus is the `seq<Event>` published so far.
- **`OrdersRepository`** (`orders_repository.dfy`) works on the `orders` and `order_items`
  tables.
  - Its create and delete are transactional. The insert loop stamps every item with the new
    order id.
  - Its reads reassemble an order from its row and its item rows. Each item row is left-joined
    with `products`.
- **`ProductRepository`** (`product_repository.dfy`) runs single-row create, read, update and
  delete on the `products` table.
- **`OrdersController`** (`orders_controller.dfy`) maps the coordinator's answers to HTTP
  results and guards the two event subscribers. The update subscriber's guard is the create
  guard turned around: it accepts only orders whose id is at most 0.
- **`Models`** (`models.dfy`) holds the `Order`, `OrderItem` and `Product` records with their
  C# defaults. `OrderNumber` (`order_number.dfy`) holds the `ORD-yyyyMMdd-HHmmss-xxxx` format and
  a parser that inverts it.
- **`Tables`** (`tables.dfy`) holds the shared pieces of the database model:
  - the row types and the `Database` class, which holds the three tables and their SERIAL
    counters;
  - the pure queries (the item scan with its product join, the item delete);
  - `Fault`, the injected failure of a transaction statement.

Modelling conventions:

- Money (`decimal`) is an exact `real`.
- A SERIAL id is the table's counter. The counter starts at 1 and is not given back by a
  rollback, as PostgreSQL sequences behave. A statement that fails draws no value from it.
- A full table scan returns rows in ascending id. The source gives no ORDER BY.
- `GetByOrderNumberAsync` may return any row that matches.
- `DateTime.UtcNow` is a parameter. `CreateOrderAsync` reads the clock twice, so it takes two
  clock values. The text of `Guid.NewGuid()` is also a parameter.
- `Fault = Healthy | FailsAt(step)` makes statement `step` of a transaction raise.

Two behaviours of the code are worth knowing:

- The `orderStatusUpdated` subscriber never changes a row. Its guard rejects every payload with
  a positive id (Controllers/OrdersController.cs:69), and every order row has a positive id.
  The status event's payload carries no id, so it binds with id 0 and the update matches no
  row (`OrdersController.StatusEventMatchesNoRow`,
  `OrdersController.OrdersController.HandleOrderUpdateEvent`).
- Nothing keeps the order total non-negative. Item totals come from the caller unchecked. The
  total is non-negative only when no item total is negative (`PosService.SumTotalsNonNegative`).

## Model

| member | source | states |
|---|---|---|
| Models.NewOrder | Models/Order.cs:5-11 | A fresh order has id 0, an empty order number, no customer, total 0, status "pending", an empty item list and a `DateTime` in range. |
| Models.NewOrderItem | Models/Order.cs:16-22 | A fresh item has every numeric field at 0 and no product. |
| OrderNumber.Padded | Services/PosService.cs:43 | A zero-padded field of `width` decimal digits holds exactly `width` digit characters. |
| OrderNumber.PaddedRoundTrip | Services/PosService.cs:43 | Reading a padded field back as decimal gives the number it was made from. |
| OrderNumber.FormatOrderNumber | Services/PosService.cs:43 | An order number is 24 characters: "ORD-", 8 date digits, '-', 6 time digits, '-', then 4 lower-case hex characters. |
| OrderNumber.ParseFormatted | Services/PosService.cs:43 | Parsing a formatted order number gives back its date and time to the second and the GUID's first 4 characters. |
| OrderNumber.OrderNumberCollision | Services/PosService.cs:43 | Two order numbers are equal exactly when the clocks agree to the second and the GUID texts agree in their first 4 characters. |
| Tables.IdsBelow | Repositories/OrdersRepository.cs:24 | A table scan lists every key of the table below the bound, once each, in strictly ascending order. |
| Tables.ItemsSplitByOrder | Repositories/OrdersRepository.cs:112-115 | The rows `DELETE FROM order_items WHERE order_id` removes and the rows the item query selects for the same order are the same set: the two never share a row and together make up the whole table. |
| Tables.OrderItemsQuery | Repositories/OrdersRepository.cs:142-157 | Each item the query returns is a row of that order, joined with its product or with none, and the items come in id order. |
| Tables.OrderItemsQueryComplete | Repositories/OrdersRepository.cs:142-157 | Every item row of the order appears in the query's result, joined with its product. |
| Tables.StampOnlyOrderId | Repositories/OrdersRepository.cs:77-79 | The insert loop changes only an item's `OrderId`: putting back the old `OrderId` gives the original item, and each visited item carries the new order id. |
| Tables.NewItemRowsKeys | Repositories/OrdersRepository.cs:77-81 | The rows inserted for the items take exactly the ids `firstId` to `firstId + n - 1`. |
| Tables.NewItemRowsAt | Repositories/OrdersRepository.cs:77-81 | Item `j` is stored under id `firstId + j` with the order id stamped in. |
| ProductRepository.ProductRepository.GetAllAsync | Repositories/ProductRepository.cs:22-25 | The result holds exactly the product rows, in id order. |
| ProductRepository.ProductRepository.GetByIdAsync | Repositories/ProductRepository.cs:27-31 | Null exactly when no row has the id; otherwise that row. |
| ProductRepository.ProductRepository.CreateAsync | Repositories/ProductRepository.cs:33-39 | One row is added under a fresh id holding the given columns. That id is returned. Nothing else changes. |
| ProductRepository.ProductRepository.UpdateAsync | Repositories/ProductRepository.cs:41-52 | True exactly when the row existed. Only that row is overwritten, with all five columns. |
| ProductRepository.ProductRepository.DeleteAsync | Repositories/ProductRepository.cs:54-59 | True exactly when the row existed. Only that row is removed. The order tables are untouched. |
| OrdersRepository.NewItemIdsInOrder | Repositories/OrdersRepository.cs:77-81 | A scan of the inserted item rows finds their ids in insertion order. |
| OrdersRepository.SelectNewItemRows | Repositories/OrdersRepository.cs:77-81 | With no orphan rows, the item rows of a freshly inserted order are exactly the rows its insert loop added. |
| OrdersRepository.JoinNewItemRows | Repositories/OrdersRepository.cs:149-154 | Joining the inserted rows in id order gives the draft's items, each with its new id, the order id and its product. |
| OrdersRepository.AppendItemRow | Repositories/OrdersRepository.cs:77-81 | Each loop step adds one item row under the next id. |
| OrdersRepository.QueryFindsNewItemRows | Repositories/OrdersRepository.cs:142-157 | The item query for a freshly inserted order scans exactly its new rows, in id order. |
| OrdersRepository.CreatedItemsReadBack | Repositories/OrdersRepository.cs:62-91 | After a create, the item query returns the draft's items in list order, each with its new id, the order id and its product. |
| OrdersRepository.CreatedOrderReadBack | Repositories/OrdersRepository.cs:35-46 | Reading back a created order gives the order as submitted, with its new id, the server's creation time and its items as read back. |
| OrdersRepository.DeleteAbsentKeepsItems | Repositories/OrdersRepository.cs:105-124 | With no orphan rows, deleting an absent order deletes no item row. |
| OrdersRepository.OrdersRepository.LoadItems | Repositories/OrdersRepository.cs:27-30 | The loop replaces each order's items with the result of its item query and changes nothing else. |
| OrdersRepository.OrdersRepository.GetAllAsync | Repositories/OrdersRepository.cs:22-33 | Every order row appears exactly once, in id order, each order assembled with its items. |
| OrdersRepository.OrdersRepository.GetByIdAsync | Repositories/OrdersRepository.cs:35-46 | Null exactly when no row has the id. Otherwise the result's items are exactly that order's item rows, each with its product or none. |
| OrdersRepository.OrdersRepository.GetByOrderNumberAsync | Repositories/OrdersRepository.cs:48-60 | Null exactly when no row has the order number. Otherwise the result is some row with that number, assembled with its items. |
| OrdersRepository.OrdersRepository.CreateOrderItemAsync | Repositories/OrdersRepository.cs:159-166 | One item row is added under the next id, or, when the statement fails, nothing changes. |
| OrdersRepository.OrdersRepository.InsertOrderItems | Repositories/OrdersRepository.cs:76-81 | The loop inserts the items in order under consecutive ids, each stamped with the order id, up to the first failing insert. |
| OrdersRepository.OrdersRepository.CreateAsync | Repositories/OrdersRepository.cs:62-91 | Success exactly when no statement fails. On success there is one new order row under a fresh id and one item row per item, carrying that id. On failure both tables are as before. `order.Id` and the `OrderId` of the items already visited stay written either way. No dangling item row is created. |
| OrdersRepository.OrdersRepository.UpdateAsync | Repositories/OrdersRepository.cs:93-103 | True exactly when the row existed. Only its customer, total and status change. Item rows are untouched. |
| OrdersRepository.OrdersRepository.DeleteAsync | Repositories/OrdersRepository.cs:105-131 | On success the order's item rows and then its row are gone, and the result says whether the row existed. A failing statement leaves both tables as they were. |
| OrdersRepository.OrdersRepository.UpdateOrderStatusAsync | Repositories/OrdersRepository.cs:133-140 | True exactly when the row existed. Only its status changes. |
| PosService.SumTotalsAppend | Services/PosService.cs:47 | The order total of two item lists put together is the sum of their totals. |
| PosService.SumTotalsOnlyTotals | Services/PosService.cs:47 | The total depends on the items' `TotalPrice` only, never on quantity, unit price, id or product. |
| PosService.SumTotalsNonNegative | Services/PosService.cs:47 | With no negative item total, the order total is not negative. |
| PosService.TwoItemsTotal | Services/PosService.cs:47 | Items with totals 20 and 5 give 25. |
| PosService.StampedOrder | Services/PosService.cs:40-47 | A created order keeps its id, customer, status and items. Its total is the sum of the item totals, its creation time is the second clock reading, and its number parses back to the first clock reading and the GUID prefix. |
| PosService.PosService.GetProductsAsync | Services/PosService.cs:22-23 | The result holds exactly the product rows. |
| PosService.PosService.GetProductAsync | Services/PosService.cs:25-26 | Null exactly when no product has the id; otherwise that product. |
| PosService.PosService.CreateProductAsync | Services/PosService.cs:28-32 | The product is returned with the fresh id its new row got. The order tables and the state store are untouched. |
| PosService.PosService.GetOrderAsync | Services/PosService.cs:35-38 | Only the state store is read. The result is null exactly when the number is absent; otherwise it is the stored order, whose number is the key. |
| PosService.PosService.CreateOrderAsync | Services/PosService.cs:40-59 | Exactly one state-store key, the new number, is written, with the stamped order. Exactly one `orderCreated` event, carrying that order, is appended. The same order is returned. |
| PosService.PosService.UpdateOrderStatusAsync | Services/PosService.cs:61-74 | An absent number gives false with the store and the bus unchanged. Otherwise only the status changes under that key, one `orderStatusUpdated` event carrying just the number and status is appended, and the result is true. |
| PosService.PosService.SaveOrderAsync | Services/PosService.cs:76-98 | True exactly when the transactional create succeeds. A failure becomes false, and the tables are as before. |
| PosService.PosService.UpdateOrderAsync | Services/PosService.cs:100-107 | Always false. The order row with the order's id gets the new customer, total and status, if it exists. |
| OrdersController.ReceivedAsOrder | Services/PosService.cs:70-71 | A status payload binds to an order with id 0 and only the number and status set. A full payload binds to itself. |
| OrdersController.GuardsPartition | Controllers/OrdersController.cs:51-73 | The update guard accepts exactly the orders the create guard rejects. |
| OrdersController.IdlessOrderRejectedOnCreate | Controllers/OrdersController.cs:51-55 | The `orderCreated` event of an order posted without an id is always rejected. |
| OrdersController.StatusEventMatchesNoRow | Controllers/OrdersController.cs:69-76 | A status event passes the update guard, but its id names no order row. |
| OrdersController.OrdersController.GetOrder | Controllers/OrdersController.cs:22-27 | NotFound exactly when the state store lacks the number; otherwise Ok with the stored order. |
| OrdersController.OrdersController.CreateOrder | Controllers/OrdersController.cs:29-35 | Answers CreatedAtAction for GetOrder with the new number and the stamped order, which is saved and published. |
| OrdersController.OrdersController.UpdateOrderStatus | Controllers/OrdersController.cs:37-42 | NoContent exactly when the number was in the state store, after the status changed under that key and one `orderStatusUpdated` event with the number and status was appended; otherwise NotFound, with nothing changed. |
| OrdersController.OrdersController.HandleOrderCreateEvent | Controllers/OrdersController.cs:45-61 | Id at most 0: BadRequest and no write. Otherwise the order is saved once and the answer is Ok, whether or not the save succeeded. The products table never changes. |
| OrdersController.OrdersController.HandleOrderUpdateEvent | Controllers/OrdersController.cs:63-80 | Id above 0: BadRequest. Otherwise the answer is Ok. The order table never changes. |
| OrdersController.OrdersController.DeliverEvent | Controllers/OrdersController.cs:45-79 | An event on `orderCreated` or `orderStatusUpdated` of `pubsub` gets that handler's answer: Ok when its guard accepts the bound order, else BadRequest. An accepted create that does not fail adds the order row and its item rows; otherwise the tables stay as they were. A status event never changes the order or item tables. Products are never touched. Other events reach no handler and change nothing. |

## Left out

- Program.cs (dependency wiring, Dapr endpoints, Swagger), Controllers/ProductsController.cs and Repositories/IRepository.cs are not part of this model. They hold wiring, a thin HTTP adapter and signatures only.
- A posted order whose `items` is null is not modelled. A Dafny sequence cannot be null. `order.Items.Sum` (Services/PosService.cs:47) then raises before any write.
- The null payload is not modelled. Both handlers read `order.Id` for logging before their null check (Controllers/OrdersController.cs:49 and 67). A null payload therefore raises instead of getting BadRequest. The handlers take non-null orders only.
- Dapr internals are left out: serialisation, CloudEvents envelopes, at-least-once redelivery and the subscription handshake. A stored or published order is the value itself. Delivery of an event to the handler of its topic is modelled (`DeliverEvent`).
- A failing state-store write or event publish is not modelled. These calls always succeed here.
- Dapper's column mapping is left out. The code never turns on Dapper's `MatchNamesWithUnderscores`, and Program.cs is not part of this model. Without it, a read leaves every snake_case column at its default: an order's `OrderNumber`, `CustomerId`, `TotalAmount` and `CreatedAt`; an item's `OrderId`, `ProductId`, `UnitPrice` and `TotalPrice`; a product's `StockQuantity`. The read contracts (`GetAllAsync`, `GetByIdAsync`, `GetByOrderNumberAsync`, `CreatedOrderReadBack`, `ProductRepository.GetAllAsync`, `ProductRepository.GetByIdAsync`) assume each column lands in its property, which this code does not set up. They also assume that `splitOn: "id"` splits item and product at the product's id.
- The database's clock for `created_at` is the `Database.now` field. The insert leaves that column to the database.
- The order of rows in an unordered scan is left out. Scans are modelled as ascending by id.
- `SELECT ... FirstOrDefault` by order number may return any matching row.
- A failing `COMMIT`, and failures of the single-statement updates, reads and product statements, are left out. Only statements inside the two transactions can fail.
- Async/await and concurrency (last-write-wins races, per-request scoping) are left out. Each call is one sequential step.
- The `Console.WriteLine` logging is left out.
- OrdersRepository.OrdersRepository.CreateAsync: a statement that fails draws no SERIAL value in the model. A failing order insert leaves the order counter as it was, and a failure at item `k` leaves the item counter `k - 1` past its start. In PostgreSQL, an INSERT that fails on a constraint has already drawn its `nextval`.
- OrdersRepository.OrdersRepository.CreateAsync: ids are unbounded integers. The 32-bit `int` overflow of a SERIAL column is not modelled.
- PosService.SumTotals: `decimal` is modelled as an exact real. Its 28-digit precision and overflow are not modelled.
- PosService.PosService.SaveOrderAsync: the in-memory writes that the repository makes to the order are dropped. The handler discards the order afterwards anyway.
- OrderNumber.FormatOrderNumber: the date and time are written with the Gregorian calendar. The code formats with the current culture, and a culture with another calendar (Thai Buddhist-era years, for one) writes other digits. `ParseFormatted` holds under a Gregorian culture only.
- Models.DateTime covers calendar fields and ticks only. Time zones, `Kind` and the text format of `CreatedAt` are not modelled.
