/** Repositories/OrdersRepository.cs: orders and their line items in the `orders` and
    `order_items` tables, with transactional create and delete. */
module OrdersRepository {
  import opened Wrappers
  import opened Models
  import opened Tables

  /** The items a read returns for an order just inserted from `draft`: list order kept, each
      with the row id it was given, the new order's id and its product snapshot, if any. */
  function ReadBackItems(draft: seq<OrderItem>, firstId: int, orderId: int, products: map<int, Product>): seq<OrderItem>
  {
    seq(|draft|, j requires 0 <= j < |draft| =>
      draft[j].(id := firstId + j, orderId := orderId, product := ProductOf(products, draft[j].productId)))
  }

  /** Scanning the inserted rows finds their ids in order: firstId, firstId+1, ... */
  lemma {:induction false} NewItemIdsInOrder(firstId: int, orderId: int, draft: seq<OrderItem>, count: nat)
    requires 1 <= firstId && count <= |draft|
    ensures IdsBelow(NewItemRows(firstId, orderId, draft), firstId + count) == Range(firstId, count)
  {
    var rows := NewItemRows(firstId, orderId, draft);
    NewItemRowsKeys(firstId, orderId, draft);
    if count == 0 {
      IdsBelowNone(rows, firstId);
    } else {
      NewItemIdsInOrder(firstId, orderId, draft, count - 1);
      assert firstId + count - 1 in rows;
    }
  }

  /** Selecting the new order's id from the item table finds exactly the inserted rows. */
  lemma SelectNewItemRows(
    orders: map<int, OrderRow>, items: map<int, ItemRow>, firstId: int, orderId: int, draft: seq<OrderItem>)
    requires forall k :: k in items ==> items[k].orderId in orders
    requires orderId !in orders
    ensures ItemsOfOrder(items + NewItemRows(firstId, orderId, draft), orderId) == NewItemRows(firstId, orderId, draft)
  {
    var rows := NewItemRows(firstId, orderId, draft);
    NewItemRowsKeys(firstId, orderId, draft);
    forall k | k in rows
      ensures rows[k].orderId == orderId
    {
      NewItemRowsAt(firstId, orderId, draft, k - firstId);
    }
    var all := items + rows;
    var sel := ItemsOfOrder(all, orderId);
    forall k | k in all
      ensures k in sel <==> k in rows
    {
      if k !in rows {
        assert all[k] == items[k];
      }
    }
    assert sel.Keys == rows.Keys;
  }

  /** Joining the inserted rows, taken in id order, with the products gives ReadBackItems. */
  lemma JoinNewItemRows(firstId: int, orderId: int, draft: seq<OrderItem>, products: map<int, Product>)
    ensures forall i :: 0 <= i < |draft| ==> Range(firstId, |draft|)[i] in NewItemRows(firstId, orderId, draft)
    ensures JoinAll(Range(firstId, |draft|), NewItemRows(firstId, orderId, draft), products)
         == ReadBackItems(draft, firstId, orderId, products)
  {
    var rows := NewItemRows(firstId, orderId, draft);
    forall j | 0 <= j < |draft|
      ensures firstId + j in rows
      ensures rows[firstId + j] == ItemRowOf(draft[j].(orderId := orderId))
    {
      NewItemRowsAt(firstId, orderId, draft, j);
    }
  }

  /** Inserting the next item of the draft extends the inserted rows by one key. */
  lemma AppendItemRow(saved: map<int, ItemRow>, firstId: int, orderId: int, items: seq<OrderItem>, i: nat)
    requires i < |items|
    ensures saved + NewItemRows(firstId, orderId, items[..i + 1])
         == (saved + NewItemRows(firstId, orderId, items[..i]))[firstId + i := ItemRowOf(items[i].(orderId := orderId))]
  {
    assert items[..i + 1][..i] == items[..i];
  }

  /** The order-items query over the table with the new rows added scans exactly those rows,
      in id order. */
  lemma QueryFindsNewItemRows(
    orders: map<int, OrderRow>, items: map<int, ItemRow>, products: map<int, Product>,
    firstId: int, orderId: int, draft: seq<OrderItem>)
    requires 1 <= firstId
    requires forall k :: k in items ==> items[k].orderId in orders
    requires orderId !in orders
    ensures forall i :: 0 <= i < |draft| ==> Range(firstId, |draft|)[i] in NewItemRows(firstId, orderId, draft)
    ensures OrderItemsQuery(items + NewItemRows(firstId, orderId, draft), products, orderId, firstId + |draft|)
         == JoinAll(Range(firstId, |draft|), NewItemRows(firstId, orderId, draft), products)
  {
    SelectNewItemRows(orders, items, firstId, orderId, draft);
    NewItemIdsInOrder(firstId, orderId, draft, |draft|);
    OrderItemsQueryUnfold(items + NewItemRows(firstId, orderId, draft), products, orderId, firstId + |draft|);
  }

  /** After a successful insert of `draft` under the fresh id `orderId`, the order-items query
      returns exactly the draft's items, in list order, each joined with its product. */
  lemma CreatedItemsReadBack(
    orders: map<int, OrderRow>, items: map<int, ItemRow>, products: map<int, Product>,
    firstId: int, orderId: int, draft: seq<OrderItem>)
    requires SerialKeys(items, firstId)
    requires forall k :: k in items ==> items[k].orderId in orders
    requires orderId !in orders
    ensures OrderItemsQuery(items + NewItemRows(firstId, orderId, draft), products, orderId, firstId + |draft|)
         == ReadBackItems(draft, firstId, orderId, products)
  {
    QueryFindsNewItemRows(orders, items, products, firstId, orderId, draft);
    JoinNewItemRows(firstId, orderId, draft, products);
  }

  /** Reading back an order inserted by CreateAsync yields the order as given, with its new id,
      the server's creation time and its items as ReadBackItems describes. */
  lemma CreatedOrderReadBack(
    orders: map<int, OrderRow>, items: map<int, ItemRow>, products: map<int, Product>,
    firstId: int, orderId: int, order: Order, now: DateTime)
    requires SerialKeys(items, firstId)
    requires forall k :: k in items ==> items[k].orderId in orders
    requires orderId !in orders
    ensures AssembleOrder(orderId, orders[orderId := OrderRowOf(order, now)][orderId],
              OrderItemsQuery(items + NewItemRows(firstId, orderId, order.items), products, orderId, firstId + |order.items|))
         == order.(id := orderId, createdAt := now, items := ReadBackItems(order.items, firstId, orderId, products))
  {
    CreatedItemsReadBack(orders, items, products, firstId, orderId, order.items);
  }

  /** Without orphan item rows, deleting the items of an absent order deletes nothing. */
  lemma DeleteAbsentKeepsItems(orders: map<int, OrderRow>, items: map<int, ItemRow>, id: int)
    requires forall k :: k in items ==> items[k].orderId in orders
    requires id !in orders
    ensures WithoutItemsOf(items, id) == items
  {
    assert forall k :: k in items ==> items[k].orderId != id;
  }

  class OrdersRepository {
    const db: Database

    constructor (db: Database)
      ensures this.db == db
    {
      this.db := db;
    }

    /** GetOrderItemsAsync: the order's item rows left-joined with `products`. */
    function GetOrderItemsAsync(orderId: int): seq<OrderItem>
      reads db
    {
      OrderItemsQuery(db.orderItems, db.products, orderId, db.nextItemId)
    }

    /** The order with id `id` as a read reassembles it. */
    function Assembled(id: int): Order
      requires id in db.orders
      reads db
    {
      AssembleOrder(id, db.orders[id], GetOrderItemsAsync(id))
    }

    /** The loop of GetAllAsync: every order's `Items` is replaced by its item rows. */
    method LoadItems(orders: seq<Order>) returns (r: seq<Order>)
      ensures |r| == |orders|
      ensures forall i :: 0 <= i < |r| ==> r[i] == orders[i].(items := GetOrderItemsAsync(orders[i].id))
    {
      r := orders;
      for i := 0 to |r|
        invariant |r| == |orders|
        invariant forall j :: 0 <= j < i ==> r[j] == orders[j].(items := GetOrderItemsAsync(orders[j].id))
        invariant forall j :: i <= j < |r| ==> r[j] == orders[j]
      {
        r := r[i := r[i].(items := GetOrderItemsAsync(r[i].id))];
      }
    }

    /** `SELECT * FROM orders`, then each order's items loaded in turn. */
    method GetAllAsync() returns (r: seq<Order>)
      requires db.Valid()
      ensures forall i :: 0 <= i < |r| ==> r[i].id in db.orders && r[i] == Assembled(r[i].id)
      ensures forall k :: k in db.orders ==> exists i :: 0 <= i < |r| && r[i].id == k
      ensures forall i, j :: 0 <= i < j < |r| ==> r[i].id < r[j].id
    {
      var table := db.orders;
      var ids := IdsBelow(table, db.nextOrderId);
      var rows := seq(|ids|, i requires 0 <= i < |ids| => AssembleOrder(ids[i], table[ids[i]], []));
      r := LoadItems(rows);
      assert forall i :: 0 <= i < |r| ==> r[i].id == ids[i];
      forall k | k in table
        ensures exists i :: 0 <= i < |r| && r[i].id == k
      {
        assert r[IndexOf(ids, k)].id == k;
      }
    }

    /** `SELECT * FROM orders WHERE id = @Id`; null when no row matches, otherwise the row with
        every item row of that order, each paired with its product or none. */
    method GetByIdAsync(id: int) returns (r: Option<Order>)
      requires db.Valid()
      ensures r.None? <==> id !in db.orders
      ensures r.Some? ==> r.value == Assembled(id)
      ensures r.Some? ==> forall it :: it in r.value.items ==>
        it.orderId == id && it.id in db.orderItems && db.orderItems[it.id].orderId == id
        && it.product == ProductOf(db.products, db.orderItems[it.id].productId)
      ensures r.Some? ==> forall k :: k in db.orderItems && db.orderItems[k].orderId == id ==>
        JoinItem(k, db.orderItems[k], db.products) in r.value.items
    {
      if id in db.orders {
        r := Some(AssembleOrder(id, db.orders[id], GetOrderItemsAsync(id)));
        forall k | k in db.orderItems && db.orderItems[k].orderId == id
          ensures JoinItem(k, db.orderItems[k], db.products) in r.value.items
        {
          OrderItemsQueryComplete(db.orderItems, db.products, id, db.nextItemId, k);
        }
      } else {
        r := None;
      }
    }

    /** `SELECT * FROM orders WHERE order_number = @OrderNumber`, first row or null. No ORDER BY
        is given, so any matching row may come first. */
    method GetByOrderNumberAsync(orderNumber: string) returns (r: Option<Order>)
      requires db.Valid()
      ensures r.None? <==> forall k :: k in db.orders ==> db.orders[k].orderNumber != orderNumber
      ensures r.Some? ==> r.value.id in db.orders && r.value.orderNumber == orderNumber
      ensures r.Some? ==> r.value == Assembled(r.value.id)
    {
      if k :| k in db.orders && db.orders[k].orderNumber == orderNumber {
        r := Some(AssembleOrder(k, db.orders[k], GetOrderItemsAsync(k)));
      } else {
        r := None;
      }
    }

    /** CreateOrderItemAsync: one `INSERT INTO order_items` inside the open transaction. */
    method CreateOrderItemAsync(item: OrderItem, fails: bool) returns (inserted: bool)
      requires db.Valid()
      modifies db`orderItems, db`nextItemId
      ensures db.Valid()
      ensures inserted == !fails
      ensures inserted ==> db.orderItems == old(db.orderItems)[old(db.nextItemId) := ItemRowOf(item)]
      ensures inserted ==> db.nextItemId == old(db.nextItemId) + 1
      ensures !inserted ==> db.orderItems == old(db.orderItems) && db.nextItemId == old(db.nextItemId)
    {
      inserted := !fails;
      if inserted {
        db.orderItems := db.orderItems[db.nextItemId := ItemRowOf(item)];
        db.nextItemId := db.nextItemId + 1;
      }
    }

    /** The item loop of the transactional insert: each item is stamped with `orderId` and
        inserted in list order. Statement `i + 1` of the transaction is the insert of item `i`;
        when it raises, the items before it are in the table and the loop stops. */
    method InsertOrderItems(items: seq<OrderItem>, orderId: int, fault: Fault)
      returns (inserted: bool, stamped: seq<OrderItem>)
      requires db.Valid()
      requires fault != FailsAt(0)
      modifies db`orderItems, db`nextItemId
      ensures db.Valid()
      ensures inserted <==> !Fires(fault, 1 + |items|)
      ensures inserted ==>
        && db.orderItems == old(db.orderItems) + NewItemRows(old(db.nextItemId), orderId, items)
        && db.nextItemId == old(db.nextItemId) + |items|
        && stamped == StampItems(items, orderId, |items|)
      ensures !inserted ==>
        && db.orderItems == old(db.orderItems) + NewItemRows(old(db.nextItemId), orderId, items[..fault.step - 1])
        && db.nextItemId == old(db.nextItemId) + fault.step - 1
        && stamped == StampItems(items, orderId, fault.step)
      ensures orderId in db.orders && old(db.ItemsReferenceOrders()) ==> db.ItemsReferenceOrders()
    {
      var savedItems, firstItemId := db.orderItems, db.nextItemId;
      stamped := items;
      var i := 0;
      while i < |items|
        invariant 0 <= i <= |items|
        invariant !Fires(fault, i + 1)
        invariant db.Valid()
        invariant db.orderItems == savedItems + NewItemRows(firstItemId, orderId, items[..i])
        invariant db.nextItemId == firstItemId + i
        invariant stamped == StampItems(items, orderId, i)
        invariant orderId in db.orders && old(db.ItemsReferenceOrders()) ==> db.ItemsReferenceOrders()
      {
        stamped := stamped[i := stamped[i].(orderId := orderId)];
        inserted := CreateOrderItemAsync(stamped[i], fault == FailsAt(i + 1));
        if !inserted {
          return;
        }
        AppendItemRow(savedItems, firstItemId, orderId, items, i);
        i := i + 1;
      }
      assert items[..i] == items;
      inserted := true;
    }

    /** The transactional insert of one order row and one row per item. On success the new id
        is returned and every item row carries it; if any insert raises, both tables are
        rolled back and the error propagates. The in-memory writes (`order.Id`, each visited
        `item.OrderId`) are not undone: `written` is the order as the caller then holds it. */
    method CreateAsync(order: Order, fault: Fault) returns (r: Result<int>, written: Order)
      requires db.Valid()
      modifies db
      ensures db.Valid()
      ensures db.products == old(db.products) && db.nextProductId == old(db.nextProductId) && db.now == old(db.now)
      ensures r.Ok? <==> !Fires(fault, 1 + |order.items|)
      ensures r.Ok? ==>
        && r.value == old(db.nextOrderId) && r.value >= 1 && r.value !in old(db.orders)
        && db.orders == old(db.orders)[r.value := OrderRowOf(order, old(db.now))]
        && db.orderItems == old(db.orderItems) + NewItemRows(old(db.nextItemId), r.value, order.items)
        && db.nextItemId == old(db.nextItemId) + |order.items|
        && written == order.(id := r.value, items := StampItems(order.items, r.value, |order.items|))
      ensures r.Err? ==> db.orders == old(db.orders) && db.orderItems == old(db.orderItems)
      ensures r.Err? && fault.step == 0 ==> written == order && db.nextItemId == old(db.nextItemId)
      ensures r.Err? && fault.step > 0 ==>
        && written == order.(id := old(db.nextOrderId), items := StampItems(order.items, old(db.nextOrderId), fault.step))
        && db.nextItemId == old(db.nextItemId) + fault.step - 1
      ensures db.nextOrderId == old(db.nextOrderId) + (if fault == FailsAt(0) then 0 else 1)
      ensures old(db.ItemsReferenceOrders()) ==> db.ItemsReferenceOrders()
    {
      written := order;
      if fault == FailsAt(0) {
        r := Err("insert into orders failed");
        return;
      }
      var savedOrders, savedItems := db.orders, db.orderItems;
      var id := db.nextOrderId;
      db.orders := db.orders[id := OrderRowOf(order, db.now)];
      db.nextOrderId := id + 1;
      var inserted, stamped := InsertOrderItems(order.items, id, fault);
      written := order.(id := id, items := stamped);
      if !inserted {
        db.orders, db.orderItems := savedOrders, savedItems;
        r := Err("insert into order_items failed");
        return;
      }
      r := Ok(id);
    }

    /** `UPDATE orders SET customer_id, total_amount, status WHERE id = @Id`: order number,
        creation time and item rows stay as they were. */
    method UpdateAsync(order: Order) returns (updated: bool)
      requires db.Valid()
      modifies db`orders
      ensures db.Valid()
      ensures updated <==> order.id in old(db.orders)
      ensures db.orders == if updated
        then old(db.orders)[order.id := old(db.orders)[order.id].(
          customerId := order.customerId, totalAmount := order.totalAmount, status := order.status)]
        else old(db.orders)
      ensures old(db.ItemsReferenceOrders()) ==> db.ItemsReferenceOrders()
    {
      updated := order.id in db.orders;
      if updated {
        db.orders := db.orders[order.id := db.orders[order.id].(
          customerId := order.customerId, totalAmount := order.totalAmount, status := order.status)];
      }
    }

    /** The transactional delete: the order's item rows first, then the order row. The result
        says whether an order row was removed; a failing statement rolls both back and raises. */
    method DeleteAsync(id: int, fault: Fault) returns (r: Result<bool>)
      requires db.Valid()
      modifies db`orders, db`orderItems
      ensures db.Valid()
      ensures r.Ok? <==> !Fires(fault, 2)
      ensures r.Ok? ==>
        && r.value == (id in old(db.orders))
        && db.orders == old(db.orders) - {id}
        && db.orderItems == WithoutItemsOf(old(db.orderItems), id)
      ensures r.Err? ==> db.orders == old(db.orders) && db.orderItems == old(db.orderItems)
      ensures old(db.ItemsReferenceOrders()) ==> db.ItemsReferenceOrders()
    {
      var savedOrders, savedItems := db.orders, db.orderItems;
      if fault == FailsAt(0) {
        r := Err("delete from order_items failed");
        return;
      }
      db.orderItems := WithoutItemsOf(db.orderItems, id);
      if fault == FailsAt(1) {
        db.orders, db.orderItems := savedOrders, savedItems;
        r := Err("delete from orders failed");
        return;
      }
      var removed := id in db.orders;
      db.orders := db.orders - {id};
      r := Ok(removed);
    }

    /** `UPDATE orders SET status = @Status WHERE id = @OrderId`. */
    method UpdateOrderStatusAsync(orderId: int, status: string) returns (updated: bool)
      requires db.Valid()
      modifies db`orders
      ensures db.Valid()
      ensures updated <==> orderId in old(db.orders)
      ensures db.orders == if updated
        then old(db.orders)[orderId := old(db.orders)[orderId].(status := status)]
        else old(db.orders)
      ensures old(db.ItemsReferenceOrders()) ==> db.ItemsReferenceOrders()
    {
      updated := orderId in db.orders;
      if updated {
        db.orders := db.orders[orderId := db.orders[orderId].(status := status)];
      }
    }
  }
}
