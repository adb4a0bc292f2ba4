/**
 * The point-of-sale coordinator. Orders live in a key-value state store keyed by order
 * number and every change is announced on a publish/subscribe bus; the relational tables are
 * reached only through the two repositories. The state store is a map, the bus the sequence
 * of events published so far.
 */
module PosService {
  import opened Wrappers
  import opened Models
  import opened OrderNumber
  import opened Tables
  import OrdersRepository
  import ProductRepository

  /** Name of the state store component. */
  const StoreName := "statestore"
  /** Name of the pub/sub component. */
  const PubsubName := "pubsub"
  const OrderCreatedTopic := "orderCreated"
  const OrderStatusUpdatedTopic := "orderStatusUpdated"

  /** What an event carries: the whole order, or the anonymous `{ OrderNumber, Status }`. */
  datatype Payload = OrderPayload(order: Order) | StatusPayload(orderNumber: string, status: string)

  datatype Event = Event(pubsubName: string, topic: string, data: Payload)

  /** `Items.Sum(i => i.TotalPrice)`: the item totals added up in list order. */
  function SumTotals(items: seq<OrderItem>): Money
  {
    if items == [] then 0.0 else SumTotals(items[..|items| - 1]) + items[|items| - 1].totalPrice
  }

  /** The sum splits over concatenation. */
  lemma {:induction false} SumTotalsAppend(a: seq<OrderItem>, b: seq<OrderItem>)
    ensures SumTotals(a + b) == SumTotals(a) + SumTotals(b)
    decreases |b|
  {
    if b == [] {
      assert a + b == a;
    } else {
      var b' := b[..|b| - 1];
      assert (a + b)[..|a + b| - 1] == a + b';
      SumTotalsAppend(a, b');
    }
  }

  /** Only `TotalPrice` enters the sum: lists that agree on the item totals, whatever their
      quantities, unit prices, ids or products, have the same sum. */
  lemma {:induction false} SumTotalsOnlyTotals(a: seq<OrderItem>, b: seq<OrderItem>)
    requires |a| == |b|
    requires forall i :: 0 <= i < |a| ==> a[i].totalPrice == b[i].totalPrice
    ensures SumTotals(a) == SumTotals(b)
  {
    if a != [] {
      SumTotalsOnlyTotals(a[..|a| - 1], b[..|b| - 1]);
    }
  }

  /** With no negative item total the sum is not negative either. */
  lemma {:induction false} SumTotalsNonNegative(items: seq<OrderItem>)
    requires forall i :: 0 <= i < |items| ==> items[i].totalPrice >= 0.0
    ensures SumTotals(items) >= 0.0
  {
    if items != [] {
      SumTotalsNonNegative(items[..|items| - 1]);
    }
  }

  /** Two items priced 20 and 5 make a total of 25, whatever their quantities say. */
  lemma TwoItemsTotal(a: OrderItem, b: OrderItem)
    requires a.totalPrice == 20.0 && b.totalPrice == 5.0
    ensures SumTotals([a, b]) == 25.0
  {
    assert [a][..0] == [];
    assert SumTotals([a]) == 20.0;
    assert [a, b][..1] == [a];
  }

  /** The order as CreateOrderAsync leaves it: numbered from the first clock reading and the
      GUID, stamped with the second clock reading, totalled from its items. */
  function StampedOrder(order: Order, numberClock: DateTime, createdClock: DateTime, guid: string): (r: Order)
    requires ValidDateTime(numberClock) && IsGuidText(guid)
    ensures r.id == order.id && r.customerId == order.customerId && r.status == order.status
    ensures r.items == order.items && r.createdAt == createdClock
    ensures r.totalAmount == SumTotals(order.items)
    ensures ParseOrderNumber(r.orderNumber) == Some((StampOf(numberClock), guid[..4]))
  {
    ParseFormatted(numberClock, guid);
    order.(orderNumber := FormatOrderNumber(numberClock, guid), createdAt := createdClock,
           totalAmount := SumTotals(order.items))
  }

  /** Every order in the state store sits under its own order number. */
  predicate KeyedByNumber(store: map<string, Order>)
  {
    forall n :: n in store ==> store[n].orderNumber == n
  }

  class PosService {
    const ordersRepo: OrdersRepository.OrdersRepository
    const productRepo: ProductRepository.ProductRepository
    var stateStore: map<string, Order>
    var published: seq<Event>

    ghost predicate Valid()
      reads this, ordersRepo.db
    {
      && ordersRepo.db == productRepo.db
      && ordersRepo.db.Valid()
      && KeyedByNumber(stateStore)
    }

    constructor (ordersRepo: OrdersRepository.OrdersRepository, productRepo: ProductRepository.ProductRepository)
      requires ordersRepo.db == productRepo.db && ordersRepo.db.Valid()
      ensures Valid()
      ensures this.ordersRepo == ordersRepo && this.productRepo == productRepo
      ensures stateStore == map[] && published == []
    {
      this.ordersRepo := ordersRepo;
      this.productRepo := productRepo;
      stateStore := map[];
      published := [];
    }

    method GetProductsAsync() returns (r: seq<Product>)
      requires Valid()
      ensures forall p :: p in r <==> p in ordersRepo.db.products.Values
      ensures forall i, j :: 0 <= i < j < |r| ==> r[i].id < r[j].id
    {
      r := productRepo.GetAllAsync();
    }

    method GetProductAsync(id: int) returns (r: Option<Product>)
      requires Valid()
      ensures r.None? <==> id !in ordersRepo.db.products
      ensures r.Some? ==> r.value == ordersRepo.db.products[id] && r.value.id == id
    {
      r := productRepo.GetByIdAsync(id);
    }

    /** The product is inserted and returned with the id the table assigned. */
    method CreateProductAsync(product: Product) returns (created: Product)
      requires Valid()
      modifies ordersRepo.db
      ensures Valid()
      ensures created == product.(id := old(ordersRepo.db.nextProductId)) && created.id !in old(ordersRepo.db.products)
      ensures ordersRepo.db.products == old(ordersRepo.db.products)[created.id := created]
      ensures ordersRepo.db.orders == old(ordersRepo.db.orders) && ordersRepo.db.orderItems == old(ordersRepo.db.orderItems)
      ensures unchanged(this)
    {
      var id := productRepo.CreateAsync(product);
      created := product.(id := id);
    }

    /** A state-store read: the order saved under `orderNumber`, or none. */
    method GetOrderAsync(orderNumber: string) returns (r: Option<Order>)
      requires Valid()
      ensures r.None? <==> orderNumber !in stateStore
      ensures r.Some? ==> r.value == stateStore[orderNumber] && r.value.orderNumber == orderNumber
    {
      r := if orderNumber in stateStore then Some(stateStore[orderNumber]) else None;
    }

    /** Numbers, stamps and totals the order, saves it under its number and publishes it on
        `orderCreated`. The clocks are the two separate reads of the current time and `guid`
        the text of a fresh GUID. */
    method CreateOrderAsync(order: Order, numberClock: DateTime, createdClock: DateTime, guid: string)
      returns (created: Order)
      requires Valid()
      requires ValidDateTime(numberClock) && IsGuidText(guid)
      modifies this`stateStore, this`published
      ensures Valid()
      ensures created == StampedOrder(order, numberClock, createdClock, guid)
      ensures stateStore == old(stateStore)[created.orderNumber := created]
      ensures published == old(published) + [Event(PubsubName, OrderCreatedTopic, OrderPayload(created))]
    {
      created := order.(orderNumber := FormatOrderNumber(numberClock, guid));
      created := created.(createdAt := createdClock);
      created := created.(totalAmount := SumTotals(created.items));
      stateStore := stateStore[created.orderNumber := created];
      published := published + [Event(PubsubName, OrderCreatedTopic, OrderPayload(created))];
    }

    /** Read-modify-write of the stored order's status, announced on `orderStatusUpdated`
        with only the number and the new status. An unknown number changes nothing. */
    method UpdateOrderStatusAsync(orderNumber: string, status: string) returns (ok: bool)
      requires Valid()
      modifies this`stateStore, this`published
      ensures Valid()
      ensures ok <==> orderNumber in old(stateStore)
      ensures !ok ==> stateStore == old(stateStore) && published == old(published)
      ensures ok ==>
        && stateStore == old(stateStore)[orderNumber := old(stateStore)[orderNumber].(status := status)]
        && published == old(published) + [Event(PubsubName, OrderStatusUpdatedTopic, StatusPayload(orderNumber, status))]
    {
      var order := GetOrderAsync(orderNumber);
      if order.None? {
        return false;
      }
      var updated := order.value.(status := status);
      stateStore := stateStore[orderNumber := updated];
      published := published + [Event(PubsubName, OrderStatusUpdatedTopic, StatusPayload(orderNumber, status))];
      ok := true;
    }

    /** Writes the order to the relational tables. A failing insert is caught and reported as
        false; the transaction has then left both tables as they were. */
    method SaveOrderAsync(order: Order, fault: Fault) returns (ok: bool)
      requires Valid()
      modifies ordersRepo.db
      ensures Valid()
      ensures ok <==> !Fires(fault, 1 + |order.items|)
      ensures ok ==>
        && ordersRepo.db.orders == old(ordersRepo.db.orders)[old(ordersRepo.db.nextOrderId) := OrderRowOf(order, old(ordersRepo.db.now))]
        && ordersRepo.db.orderItems == old(ordersRepo.db.orderItems) + NewItemRows(old(ordersRepo.db.nextItemId), old(ordersRepo.db.nextOrderId), order.items)
      ensures !ok ==> ordersRepo.db.orders == old(ordersRepo.db.orders) && ordersRepo.db.orderItems == old(ordersRepo.db.orderItems)
      ensures ordersRepo.db.products == old(ordersRepo.db.products)
      ensures old(ordersRepo.db.ItemsReferenceOrders()) ==> ordersRepo.db.ItemsReferenceOrders()
      ensures unchanged(this)
    {
      var result, _ := ordersRepo.CreateAsync(order, fault);
      ok := result.Ok? && result.value > 0;
    }

    /** Updates the order row with id `order.Id` and reports false whatever happened. */
    method UpdateOrderAsync(order: Order) returns (ok: bool)
      requires Valid()
      modifies ordersRepo.db`orders
      ensures Valid()
      ensures !ok
      ensures ordersRepo.db.orders == if order.id in old(ordersRepo.db.orders)
        then old(ordersRepo.db.orders)[order.id := old(ordersRepo.db.orders)[order.id].(
          customerId := order.customerId, totalAmount := order.totalAmount, status := order.status)]
        else old(ordersRepo.db.orders)
      ensures old(ordersRepo.db.ItemsReferenceOrders()) ==> ordersRepo.db.ItemsReferenceOrders()
    {
      var _ := ordersRepo.UpdateAsync(order);
      ok := false;
    }
  }
}
