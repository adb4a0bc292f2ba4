/** The records of Models/Order.cs and the product record that the `products` table stores. */
module Models {
  import opened Wrappers

  /** C# `decimal` is exact base-10 arithmetic; an exact rational stands for it. */
  type Money = real

  /** A UTC `DateTime`, field by field; `ticks` are the 100 ns units inside the second. */
  datatype DateTime = DateTime(year: int, month: int, day: int, hour: int, minute: int, second: int, ticks: int)

  predicate IsLeapYear(year: int)
  {
    year % 4 == 0 && (year % 100 != 0 || year % 400 == 0)
  }

  function DaysInMonth(year: int, month: int): (days: int)
    requires 1 <= month <= 12
    ensures 28 <= days <= 31
  {
    if month == 2 then (if IsLeapYear(year) then 29 else 28)
    else if month == 4 || month == 6 || month == 9 || month == 11 then 30
    else 31
  }

  /** The range `DateTime` admits: years 1 to 9999 and the usual calendar. */
  predicate ValidDateTime(t: DateTime)
  {
    && 1 <= t.year <= 9999
    && 1 <= t.month <= 12
    && 1 <= t.day <= DaysInMonth(t.year, t.month)
    && 0 <= t.hour < 24
    && 0 <= t.minute < 60
    && 0 <= t.second < 60
    && 0 <= t.ticks < 10_000_000
  }

  /** `default(DateTime)`, i.e. `DateTime.MinValue`: 0001-01-01 00:00:00. */
  const MinValue := DateTime(1, 1, 1, 0, 0, 0, 0)

  /** A catalog entry: a row of `products(id, sku, name, description, price, stock_quantity)`. */
  datatype Product = Product(id: int, sku: string, name: string, description: string, price: Money, stockQuantity: int)

  /** A line item. It refers to its order by `orderId` and to its product by `productId`;
      `product` is the optional snapshot a read joins in. Nothing ties `totalPrice` to
      `quantity * unitPrice`. */
  datatype OrderItem = OrderItem(
    id: int,
    orderId: int,
    productId: int,
    quantity: int,
    unitPrice: Money,
    totalPrice: Money,
    product: Option<Product>)

  /** An order: relational `id`, coordinator-assigned `orderNumber`, optional customer, and its
      items as an ordered list. */
  datatype Order = Order(
    id: int,
    orderNumber: string,
    customerId: Option<int>,
    totalAmount: Money,
    status: string,
    createdAt: DateTime,
    items: seq<OrderItem>)

  const PendingStatus := "pending"

  /** `new Order()`: the property initialisers and C# defaults. */
  function NewOrder(): (o: Order)
    ensures o.id == 0 && o.orderNumber == [] && o.customerId == None
    ensures o.totalAmount == 0.0 && o.status == PendingStatus && o.items == []
    ensures ValidDateTime(o.createdAt)
  {
    Order(0, "", None, 0.0, PendingStatus, MinValue, [])
  }

  /** `new OrderItem()`: every field at its C# default, no product snapshot. */
  function NewOrderItem(): (it: OrderItem)
    ensures it.id == 0 && it.orderId == 0 && it.productId == 0 && it.quantity == 0
    ensures it.unitPrice == 0.0 && it.totalPrice == 0.0 && it.product == None
  {
    OrderItem(0, 0, 0, 0, 0.0, 0.0, None)
  }
}
