/** Order records as `POST /orders` in `src/supabase/functions/server/index.tsx`
    builds them, and the line items the cart page sends. */
module Orders {

  /** A line item `{ bookId, title, quantity, price }` as the client sends it. */
  datatype OrderItem = OrderItem(bookId: string, title: string, quantity: int, price: int)

  /** The stored order; `id` and `createdAt` come from the clock. */
  datatype Order = Order(
    id: string,
    userId: string,
    items: seq<OrderItem>,
    total: int,
    shippingAddress: string,
    status: string,
    createdAt: string)

  /** The only status an order is ever given. */
  const Pending := "pending"

  /** Sum of price times quantity over the line items. */
  function ItemsTotal(items: seq<OrderItem>): int
  {
    if items == [] then 0 else ItemsTotal(items[..|items| - 1]) + items[|items| - 1].price * items[|items| - 1].quantity
  }

  /** The order's total agrees with its line items (the server does not check this). */
  ghost predicate TotalMatchesItems(o: Order)
  {
    o.total == ItemsTotal(o.items)
  }
}
