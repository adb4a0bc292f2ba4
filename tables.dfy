/** The relational store both repositories share through one connection: the `orders`,
    `order_items` and `products` tables, their SERIAL id sequences, and the pure queries the
    repositories run against them. */
module Tables {
  import opened Wrappers
  import opened Models

  /** A row of `orders(id, order_number, customer_id, total_amount, status, created_at)`, keyed by id. */
  datatype OrderRow = OrderRow(orderNumber: string, customerId: Option<int>, totalAmount: Money, status: string, createdAt: DateTime)

  /** A row of `order_items(id, order_id, product_id, quantity, unit_price, total_price)`, keyed by id. */
  datatype ItemRow = ItemRow(orderId: int, productId: int, quantity: int, unitPrice: Money, totalPrice: Money)

  /** A transaction's failure point: `FailsAt(k)` makes the k-th statement run inside the
      transaction (counting from 0) raise; a step past the last statement never fires. */
  datatype Fault = Healthy | FailsAt(step: nat)

  predicate Fires(fault: Fault, statements: nat)
  {
    fault.FailsAt? && fault.step < statements
  }

  /** Every key of a table was drawn from its SERIAL sequence: at least 1, below the next value. */
  predicate SerialKeys<V>(table: map<int, V>, next: int)
  {
    1 <= next && forall k :: k in table ==> 1 <= k < next
  }

  /** The columns `INSERT INTO orders` writes; `created_at` takes the server's clock. */
  function OrderRowOf(o: Order, createdAt: DateTime): OrderRow
  {
    OrderRow(o.orderNumber, o.customerId, o.totalAmount, o.status, createdAt)
  }

  /** The columns `INSERT INTO order_items` writes. */
  function ItemRowOf(it: OrderItem): ItemRow
  {
    ItemRow(it.orderId, it.productId, it.quantity, it.unitPrice, it.totalPrice)
  }

  /** The keys of `table` in [0, n), ascending: the row order in which a scan is modelled. */
  function IdsBelow<V>(table: map<int, V>, n: int): (ids: seq<int>)
    ensures forall i :: 0 <= i < |ids| ==> ids[i] in table && 0 <= ids[i] < n
    ensures forall k :: k in table && 0 <= k < n ==> k in ids
    ensures forall i, j :: 0 <= i < j < |ids| ==> ids[i] < ids[j]
    decreases n
  {
    if n <= 0 then [] else IdsBelow(table, n - 1) + (if n - 1 in table then [n - 1] else [])
  }

  /** A scan below the smallest key finds nothing. */
  lemma {:induction false} IdsBelowNone<V>(table: map<int, V>, n: int)
    requires forall k :: k in table ==> n <= k
    ensures IdsBelow(table, n) == []
    decreases n
  {
    if n > 0 {
      IdsBelowNone(table, n - 1);
    }
  }

  /** `WHERE order_id = @OrderId` on the item table. */
  function ItemsOfOrder(items: map<int, ItemRow>, orderId: int): (sel: map<int, ItemRow>)
    ensures forall k :: k in sel <==> k in items && items[k].orderId == orderId
    ensures forall k :: k in sel ==> sel[k] == items[k]
  {
    map k | k in items && items[k].orderId == orderId :: items[k]
  }

  /** `DELETE FROM order_items WHERE order_id = @OrderId`. */
  function WithoutItemsOf(items: map<int, ItemRow>, orderId: int): (rest: map<int, ItemRow>)
    ensures forall k :: k in rest <==> k in items && items[k].orderId != orderId
    ensures forall k :: k in rest ==> rest[k] == items[k]
  {
    map k | k in items && items[k].orderId != orderId :: items[k]
  }

  /** The item delete and the item select split the table: every row is either deleted or
      selected, never both. */
  lemma ItemsSplitByOrder(items: map<int, ItemRow>, orderId: int)
    ensures ItemsOfOrder(items, orderId).Keys !! WithoutItemsOf(items, orderId).Keys
    ensures ItemsOfOrder(items, orderId) + WithoutItemsOf(items, orderId) == items
  {
    var sel, rest := ItemsOfOrder(items, orderId), WithoutItemsOf(items, orderId);
    assert (sel + rest).Keys == items.Keys;
  }

  /** `LEFT JOIN products p ON oi.product_id = p.id` for one item row. */
  function ProductOf(products: map<int, Product>, productId: int): Option<Product>
  {
    if productId in products then Some(products[productId]) else None
  }

  function JoinItem(id: int, row: ItemRow, products: map<int, Product>): OrderItem
  {
    OrderItem(id, row.orderId, row.productId, row.quantity, row.unitPrice, row.totalPrice, ProductOf(products, row.productId))
  }

  /** The query of OrdersRepository.GetOrderItemsAsync: the item rows of one order, each with
      its product or none (left join). Item ids below `bound` are scanned. */
  function OrderItemsQuery(items: map<int, ItemRow>, products: map<int, Product>, orderId: int, bound: int): (r: seq<OrderItem>)
    ensures forall i :: 0 <= i < |r| ==>
      && r[i].id in items && r[i].id < bound
      && items[r[i].id].orderId == orderId
      && r[i] == JoinItem(r[i].id, items[r[i].id], products)
    ensures forall i, j :: 0 <= i < j < |r| ==> r[i].id < r[j].id
  {
    var sel := ItemsOfOrder(items, orderId);
    JoinAll(IdsBelow(sel, bound), sel, products)
  }

  lemma OrderItemsQueryUnfold(items: map<int, ItemRow>, products: map<int, Product>, orderId: int, bound: int)
    ensures OrderItemsQuery(items, products, orderId, bound)
         == JoinAll(IdsBelow(ItemsOfOrder(items, orderId), bound), ItemsOfOrder(items, orderId), products)
  {
  }

  /** The rows under `ids`, in that order, each joined with its product. */
  function JoinAll(ids: seq<int>, rows: map<int, ItemRow>, products: map<int, Product>): (r: seq<OrderItem>)
    requires forall i :: 0 <= i < |ids| ==> ids[i] in rows
    ensures |r| == |ids| && forall i :: 0 <= i < |ids| ==> r[i] == JoinItem(ids[i], rows[ids[i]], products)
  {
    seq(|ids|, i requires 0 <= i < |ids| => JoinItem(ids[i], rows[ids[i]], products))
  }

  /** No item row of the order is missed by the query. */
  lemma OrderItemsQueryComplete(items: map<int, ItemRow>, products: map<int, Product>, orderId: int, bound: int, k: int)
    requires k in items && 0 <= k < bound && items[k].orderId == orderId
    ensures JoinItem(k, items[k], products) in OrderItemsQuery(items, products, orderId, bound)
  {
    var ids := IdsBelow(ItemsOfOrder(items, orderId), bound);
    assert OrderItemsQuery(items, products, orderId, bound)[IndexOf(ids, k)] == JoinItem(k, items[k], products);
  }

  /** The position of `x` in `s`. */
  function IndexOf(s: seq<int>, x: int): (i: nat)
    requires x in s
    ensures i < |s| && s[i] == x
  {
    if s[0] == x then 0 else 1 + IndexOf(s[1..], x)
  }

  /** An order row with the given items, as Dapper materialises `SELECT * FROM orders`. */
  function AssembleOrder(id: int, row: OrderRow, items: seq<OrderItem>): Order
  {
    Order(id, row.orderNumber, row.customerId, row.totalAmount, row.status, row.createdAt, items)
  }

  /** The integers lo, lo+1, ..., lo+count-1. */
  function Range(lo: int, count: nat): (r: seq<int>)
    ensures |r| == count && forall j :: 0 <= j < count ==> r[j] == lo + j
  {
    if count == 0 then [] else Range(lo, count - 1) + [lo + count - 1]
  }

  /** `items` with the first `count` stamped with `orderId`, as the insert loop leaves them. */
  function StampItems(items: seq<OrderItem>, orderId: int, count: nat): (r: seq<OrderItem>)
    requires count <= |items|
    ensures |r| == |items|
    ensures forall j :: 0 <= j < |r| ==> r[j] == if j < count then items[j].(orderId := orderId) else items[j]
  {
    seq(|items|, j requires 0 <= j < |items| => if j < count then items[j].(orderId := orderId) else items[j])
  }

  /** The insert loop touches nothing but `OrderId`: undoing the stamp gives back the item,
      and a stamped item belongs to the order. */
  lemma StampOnlyOrderId(items: seq<OrderItem>, orderId: int, count: nat, j: nat)
    requires count <= |items| && j < |items|
    ensures StampItems(items, orderId, count)[j].(orderId := items[j].orderId) == items[j]
    ensures j < count ==> StampItems(items, orderId, count)[j].orderId == orderId
  {
  }

  /** The item rows inserted for `items` under `orderId`, with ids drawn from `firstId` on. */
  function NewItemRows(firstId: int, orderId: int, items: seq<OrderItem>): map<int, ItemRow>
  {
    if items == [] then map[]
    else
      NewItemRows(firstId, orderId, items[..|items| - 1])
        [firstId + |items| - 1 := ItemRowOf(items[|items| - 1].(orderId := orderId))]
  }

  /** The inserted rows occupy exactly the ids firstId .. firstId+|items|-1. */
  lemma {:induction false} NewItemRowsKeys(firstId: int, orderId: int, items: seq<OrderItem>)
    ensures forall k :: k in NewItemRows(firstId, orderId, items) <==> firstId <= k < firstId + |items|
  {
    if items != [] {
      NewItemRowsKeys(firstId, orderId, items[..|items| - 1]);
    }
  }

  /** The row under id firstId+j holds the j-th item, stamped with the new order's id. */
  lemma {:induction false} NewItemRowsAt(firstId: int, orderId: int, items: seq<OrderItem>, j: nat)
    requires j < |items|
    ensures firstId + j in NewItemRows(firstId, orderId, items)
    ensures NewItemRows(firstId, orderId, items)[firstId + j] == ItemRowOf(items[j].(orderId := orderId))
  {
    var prefix := items[..|items| - 1];
    if j < |items| - 1 {
      NewItemRowsAt(firstId, orderId, prefix, j);
      assert prefix[j] == items[j];
    }
  }

  /** The relational database behind one connection. */
  class Database {
    var orders: map<int, OrderRow>
    var orderItems: map<int, ItemRow>
    var products: map<int, Product>
    /** The next values of the three SERIAL sequences; a rollback does not return drawn values. */
    var nextOrderId: int
    var nextItemId: int
    var nextProductId: int
    /** The server clock the `created_at` default reads. */
    var now: DateTime

    ghost predicate Valid()
      reads this
    {
      && SerialKeys(orders, nextOrderId)
      && SerialKeys(orderItems, nextItemId)
      && SerialKeys(products, nextProductId)
      && (forall k :: k in products ==> products[k].id == k)
    }

    /** Referential integrity of `order_items.order_id`; every operation preserves it. */
    ghost predicate ItemsReferenceOrders()
      reads this
    {
      forall k :: k in orderItems ==> orderItems[k].orderId in orders
    }

    constructor (now: DateTime)
      ensures Valid() && ItemsReferenceOrders()
      ensures orders == map[] && orderItems == map[] && products == map[]
      ensures nextOrderId == 1 && nextItemId == 1 && nextProductId == 1 && this.now == now
    {
      orders, orderItems, products := map[], map[], map[];
      nextOrderId, nextItemId, nextProductId := 1, 1, 1;
      this.now := now;
    }
  }
}
