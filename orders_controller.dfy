/**
 * The HTTP and event endpoints for orders. Each action asks the coordinator and maps its
 * answer to a status code; the two event handlers guard the payload's id and then forward it
 * to the relational side.
 */
module OrdersController {
  import Wrappers
  import opened Models
  import opened OrderNumber
  import opened Tables
  import PosService

  /** The responses the actions produce. `Ok(None)` is a bare 200, `Ok(Some(o))` a 200
      with a body; `CreatedAtAction` is a 201 pointing at the named action for the order number. */
  datatype ActionResult =
    | Ok(body: Wrappers.Option<Order>)
    | NotFound
    | NoContent
    | BadRequest(message: string)
    | CreatedAtAction(actionName: string, orderNumber: string, value: Order)

  const InvalidOrderMessage := "Invalid order data"

  /** The create handler's guard: an order is accepted only with a positive id. */
  predicate AcceptsCreateEvent(order: Order)
  {
    order.id > 0
  }

  /** The update handler's guard, which turns the create guard around: only an order whose id
      is zero or negative is accepted. */
  predicate AcceptsUpdateEvent(order: Order)
  {
    order.id <= 0
  }

  /** An event payload bound to the handler's `Order` parameter. A status payload has only
      `OrderNumber` and `Status`, so every other property keeps its default. */
  function ReceivedAsOrder(data: PosService.Payload): (o: Order)
    ensures data.OrderPayload? ==> o == data.order
    ensures data.StatusPayload? ==>
      && o.id == 0 && o.orderNumber == data.orderNumber && o.status == data.status
      && o.customerId == Wrappers.None && o.totalAmount == 0.0 && o.items == []
  {
    match data
    case OrderPayload(order) => order
    case StatusPayload(orderNumber, status) => NewOrder().(orderNumber := orderNumber, status := status)
  }

  /** The two guards split every order between them: an order is accepted by exactly one
      handler. */
  lemma GuardsPartition(order: Order)
    ensures AcceptsUpdateEvent(order) <==> !AcceptsCreateEvent(order)
  {
  }

  /** An order created over HTTP without an id keeps id 0, so its `orderCreated` event is
      always turned away by the create guard. */
  lemma IdlessOrderRejectedOnCreate(order: Order, numberClock: DateTime, createdClock: DateTime, guid: string)
    requires ValidDateTime(numberClock) && IsGuidText(guid)
    requires order.id <= 0
    ensures !AcceptsCreateEvent(ReceivedAsOrder(PosService.OrderPayload(
      PosService.StampedOrder(order, numberClock, createdClock, guid))))
  {
  }

  /** A status event passes the update guard, but its id 0 names no SERIAL row, so the update
      it triggers finds nothing to change. */
  lemma StatusEventMatchesNoRow(orderNumber: string, status: string, orders: map<int, OrderRow>, next: int)
    requires SerialKeys(orders, next)
    ensures AcceptsUpdateEvent(ReceivedAsOrder(PosService.StatusPayload(orderNumber, status)))
    ensures ReceivedAsOrder(PosService.StatusPayload(orderNumber, status)).id !in orders
  {
  }

  class OrdersController {
    const posService: PosService.PosService

    constructor (posService: PosService.PosService)
      ensures this.posService == posService
    {
      this.posService := posService;
    }

    /** GET by order number: 404 when the state store has no such order, else 200 with it. */
    method GetOrder(orderNumber: string) returns (r: ActionResult)
      requires posService.Valid()
      ensures r.NotFound? <==> orderNumber !in posService.stateStore
      ensures !r.NotFound? ==> r == Ok(Wrappers.Some(posService.stateStore[orderNumber]))
      ensures r.Ok? ==> r.body.value.orderNumber == orderNumber
    {
      var order := posService.GetOrderAsync(orderNumber);
      r := if order.None? then NotFound else Ok(order);
    }

    /** POST: the coordinator numbers, saves and publishes the order; the answer is 201
        pointing at GetOrder for the new number. */
    method CreateOrder(order: Order, numberClock: DateTime, createdClock: DateTime, guid: string)
      returns (r: ActionResult)
      requires posService.Valid()
      requires ValidDateTime(numberClock) && IsGuidText(guid)
      modifies posService`stateStore, posService`published
      ensures posService.Valid()
      ensures r.CreatedAtAction? && r.actionName == "GetOrder" && r.orderNumber == r.value.orderNumber
      ensures r.value == PosService.StampedOrder(order, numberClock, createdClock, guid)
      ensures posService.stateStore == old(posService.stateStore)[r.orderNumber := r.value]
      ensures posService.published == old(posService.published)
        + [PosService.Event(PosService.PubsubName, PosService.OrderCreatedTopic, PosService.OrderPayload(r.value))]
    {
      var created := posService.CreateOrderAsync(order, numberClock, createdClock, guid);
      r := CreatedAtAction("GetOrder", created.orderNumber, created);
    }

    /** PATCH status: 204 when the order was found and updated, 404 otherwise. */
    method UpdateOrderStatus(orderNumber: string, status: string) returns (r: ActionResult)
      requires posService.Valid()
      modifies posService`stateStore, posService`published
      ensures posService.Valid()
      ensures r == NoContent || r == NotFound
      ensures r == NoContent <==> orderNumber in old(posService.stateStore)
      ensures r == NotFound ==> posService.stateStore == old(posService.stateStore) && posService.published == old(posService.published)
      ensures r == NoContent ==>
        && posService.stateStore == old(posService.stateStore)[orderNumber := old(posService.stateStore)[orderNumber].(status := status)]
        && posService.published == old(posService.published)
           + [PosService.Event(PosService.PubsubName, PosService.OrderStatusUpdatedTopic, PosService.StatusPayload(orderNumber, status))]
    {
      var success := posService.UpdateOrderStatusAsync(orderNumber, status);
      r := if success then NoContent else NotFound;
    }

    /** The `orderCreated` subscriber. An order without a positive id is refused and nothing
        is written; otherwise it is saved to the tables and acknowledged whether or not the
        save succeeded. */
    method HandleOrderCreateEvent(order: Order, fault: Fault) returns (r: ActionResult)
      requires posService.Valid()
      modifies posService.ordersRepo.db
      ensures posService.Valid()
      ensures !AcceptsCreateEvent(order) ==> r == BadRequest(InvalidOrderMessage) && unchanged(posService.ordersRepo.db)
      ensures AcceptsCreateEvent(order) ==> r == Ok(Wrappers.None)
      ensures AcceptsCreateEvent(order) && !Fires(fault, 1 + |order.items|) ==>
        && posService.ordersRepo.db.orders
           == old(posService.ordersRepo.db.orders)[old(posService.ordersRepo.db.nextOrderId) := OrderRowOf(order, old(posService.ordersRepo.db.now))]
        && posService.ordersRepo.db.orderItems
           == old(posService.ordersRepo.db.orderItems) + NewItemRows(old(posService.ordersRepo.db.nextItemId), old(posService.ordersRepo.db.nextOrderId), order.items)
      ensures Fires(fault, 1 + |order.items|) ==>
        posService.ordersRepo.db.orders == old(posService.ordersRepo.db.orders)
        && posService.ordersRepo.db.orderItems == old(posService.ordersRepo.db.orderItems)
      ensures posService.ordersRepo.db.products == old(posService.ordersRepo.db.products)
      ensures old(posService.ordersRepo.db.ItemsReferenceOrders()) ==> posService.ordersRepo.db.ItemsReferenceOrders()
    {
      if !AcceptsCreateEvent(order) {
        return BadRequest(InvalidOrderMessage);
      }
      var _ := posService.SaveOrderAsync(order, fault);
      r := Ok(Wrappers.None);
    }

    /** The `orderStatusUpdated` subscriber. An order with a positive id is refused; any other
        is passed to the relational update and acknowledged. Since every order row has a
        positive id, the orders the guard lets through never change a row. */
    method HandleOrderUpdateEvent(order: Order) returns (r: ActionResult)
      requires posService.Valid()
      modifies posService.ordersRepo.db`orders
      ensures posService.Valid()
      ensures !AcceptsUpdateEvent(order) ==> r == BadRequest(InvalidOrderMessage)
      ensures AcceptsUpdateEvent(order) ==> r == Ok(Wrappers.None)
      ensures posService.ordersRepo.db.orders == old(posService.ordersRepo.db.orders)
    {
      if !AcceptsUpdateEvent(order) {
        return BadRequest(InvalidOrderMessage);
      }
      var _ := posService.UpdateOrderAsync(order);
      r := Ok(Wrappers.None);
    }

    /** Delivery of a published event to the handler subscribed to its topic (the `Topic`
        attributes of the two handlers), the payload bound to an `Order`. The answer is that
        handler's answer; an event on no subscribed topic reaches no handler. A status event
        never changes the relational tables. */
    method DeliverEvent(event: PosService.Event, fault: Fault) returns (r: Wrappers.Option<ActionResult>)
      requires posService.Valid()
      modifies posService.ordersRepo.db
      ensures posService.Valid()
      ensures r.None? <==> (event.pubsubName != PosService.PubsubName
        || (event.topic != PosService.OrderCreatedTopic && event.topic != PosService.OrderStatusUpdatedTopic))
      ensures r.None? ==> unchanged(posService.ordersRepo.db)
      ensures event.pubsubName == PosService.PubsubName && event.topic == PosService.OrderCreatedTopic ==>
        r == Wrappers.Some(if AcceptsCreateEvent(ReceivedAsOrder(event.data)) then Ok(Wrappers.None) else BadRequest(InvalidOrderMessage))
      ensures event.pubsubName == PosService.PubsubName && event.topic == PosService.OrderStatusUpdatedTopic ==>
        r == Wrappers.Some(if AcceptsUpdateEvent(ReceivedAsOrder(event.data)) then Ok(Wrappers.None) else BadRequest(InvalidOrderMessage))
      ensures event.pubsubName == PosService.PubsubName && event.topic == PosService.OrderCreatedTopic ==>
        var order := ReceivedAsOrder(event.data);
        if AcceptsCreateEvent(order) && !Fires(fault, 1 + |order.items|) then
          && posService.ordersRepo.db.orders
             == old(posService.ordersRepo.db.orders)[old(posService.ordersRepo.db.nextOrderId) := OrderRowOf(order, old(posService.ordersRepo.db.now))]
          && posService.ordersRepo.db.orderItems
             == old(posService.ordersRepo.db.orderItems) + NewItemRows(old(posService.ordersRepo.db.nextItemId), old(posService.ordersRepo.db.nextOrderId), order.items)
        else
          && posService.ordersRepo.db.orders == old(posService.ordersRepo.db.orders)
          && posService.ordersRepo.db.orderItems == old(posService.ordersRepo.db.orderItems)
      ensures event.data.StatusPayload? || event.topic == PosService.OrderStatusUpdatedTopic ==>
        posService.ordersRepo.db.orders == old(posService.ordersRepo.db.orders)
        && posService.ordersRepo.db.orderItems == old(posService.ordersRepo.db.orderItems)
      ensures posService.ordersRepo.db.products == old(posService.ordersRepo.db.products)
    {
      if event.pubsubName != PosService.PubsubName {
        return Wrappers.None;
      }
      var order := ReceivedAsOrder(event.data);
      if event.topic == PosService.OrderCreatedTopic {
        var response := HandleOrderCreateEvent(order, fault);
        r := Wrappers.Some(response);
      } else if event.topic == PosService.OrderStatusUpdatedTopic {
        var response := HandleOrderUpdateEvent(order);
        r := Wrappers.Some(response);
      } else {
        r := Wrappers.None;
      }
    }
  }
}
