/** The checkout logic of `src/pages/Cart.tsx`: the rows shown, the subtotal,
    the order request built by `handleCheckout`, and the quantity guard. */
module CartPage {
  import opened Options
  import opened Books
  import opened Orders
  import Carts

  /** A cart entry joined with the book fetched for it (`CartItemWithBook`). */
  datatype CartRow = CartRow(bookId: string, quantity: int, book: Book)

  /** The line item `handleCheckout` builds for one row. */
  function LineItem(row: CartRow): OrderItem
  {
    OrderItem(row.bookId, row.book.title, row.quantity, row.book.price)
  }

  /** `cartItems.map(...)`: one line item per row, in row order. */
  function LineItems(rows: seq<CartRow>): (r: seq<OrderItem>)
    ensures |r| == |rows|
    ensures forall i :: 0 <= i < |rows| ==>
      r[i].bookId == rows[i].bookId && r[i].title == rows[i].book.title &&
      r[i].quantity == rows[i].quantity && r[i].price == rows[i].book.price
  {
    if rows == [] then [] else LineItems(rows[..|rows| - 1]) + [LineItem(rows[|rows| - 1])]
  }

  /** `cartItems.reduce((sum, item) => sum + item.book.price * item.quantity, 0)`. */
  function Subtotal(rows: seq<CartRow>): (r: int)
    ensures (forall i :: 0 <= i < |rows| ==> rows[i].book.price >= 0 && rows[i].quantity >= 0) ==> r >= 0
  {
    if rows == [] then 0
    else Subtotal(rows[..|rows| - 1]) + rows[|rows| - 1].book.price * rows[|rows| - 1].quantity
  }

  /** The subtotal of no rows is zero. */
  lemma SubtotalEmpty()
    ensures Subtotal([]) == 0
  {
  }

  /** The subtotal is the sum of the line items' price times quantity. */
  lemma {:induction false} SubtotalMatchesItems(rows: seq<CartRow>)
    ensures Subtotal(rows) == ItemsTotal(LineItems(rows))
  {
    if rows != [] {
      var init := rows[..|rows| - 1];
      SubtotalMatchesItems(init);
      assert LineItems(rows)[..|rows| - 1] == LineItems(init);
    }
  }

  /** Where every order is shipped. */
  const DefaultAddress := "Default Address"

  /** The body of the `POST /orders` request. */
  datatype OrderRequest = OrderRequest(items: seq<OrderItem>, total: int, shippingAddress: string)

  /** `handleCheckout`: nothing for an empty cart, otherwise the order request. */
  function Checkout(rows: seq<CartRow>): (r: Option<OrderRequest>)
    ensures r.None? <==> rows == []
    ensures r.Some? ==> r.value.items == LineItems(rows)
    ensures r.Some? ==> r.value.total == Subtotal(rows)
    ensures r.Some? ==> r.value.total == ItemsTotal(r.value.items)
    ensures r.Some? ==> r.value.shippingAddress == DefaultAddress
  {
    if |rows| == 0 then None
    else
      SubtotalMatchesItems(rows);
      Some(OrderRequest(LineItems(rows), Subtotal(rows), DefaultAddress))
  }

  /** An order the server stores from this page's request has a total that matches its items. */
  lemma CheckoutOrderIsConsistent(rows: seq<CartRow>, id: string, uid: string, createdAt: string)
    requires rows != []
    ensures var req := Checkout(rows).value;
      TotalMatchesItems(Order(id, uid, req.items, req.total, req.shippingAddress, Pending, createdAt))
  {
  }

  /** The `PUT /cart/:bookId` request `handleUpdateQuantity` sends, if it sends one. */
  datatype UpdateRequest = UpdateRequest(bookId: string, quantity: int)

  /** `handleUpdateQuantity`: a new quantity below one is ignored. */
  function QuantityUpdate(bookId: string, newQuantity: int): (r: Option<UpdateRequest>)
    ensures r.Some? <==> newQuantity >= 1
    ensures r.Some? ==> r.value == UpdateRequest(bookId, newQuantity)
  {
    if newQuantity < 1 then None else Some(UpdateRequest(bookId, newQuantity))
  }

  /** Pressing "-" on a row at quantity one sends nothing. */
  lemma MinusAtOneIgnored(row: CartRow)
    requires row.quantity <= 1
    ensures QuantityUpdate(row.bookId, row.quantity - 1).None?
  {
  }

  /** Updates that pass the guard keep every cart quantity at one or more. */
  lemma GuardedUpdateKeepsPositive(cart: seq<Carts.CartItem>, bookId: string, newQuantity: int)
    requires Carts.PositiveQuantities(cart)
    requires QuantityUpdate(bookId, newQuantity).Some?
    ensures Carts.PositiveQuantities(Carts.UpdateItem(cart, bookId, QuantityUpdate(bookId, newQuantity).value.quantity))
  {
    Carts.UpdateKeepsPositive(cart, bookId, newQuantity);
  }
}
