/** The quantity picker, stock label and add-to-cart button of `src/pages/BookDetail.tsx`. */
module BookDetail {
  import opened Text

  /** The "-" button: `Math.max(1, quantity - 1)`. */
  function Decremented(q: int): (r: int)
    ensures r >= 1
    ensures q > 1 ==> r == q - 1
    ensures q <= 1 ==> r == 1
  {
    if q - 1 > 1 then q - 1 else 1
  }

  /** The "+" button: `Math.min(book.stock, quantity + 1)`. */
  function Incremented(q: int, stock: int): (r: int)
    ensures r <= stock
    ensures q < stock ==> r == q + 1
    ensures q >= stock ==> r == stock
  {
    if q + 1 < stock then q + 1 else stock
  }

  datatype Press = Minus | Plus

  function Step(q: int, stock: int, p: Press): int
  {
    match p
    case Minus => Decremented(q)
    case Plus => Incremented(q, stock)
  }

  /** The quantity after a run of presses, from the initial 1. */
  function QuantityAfter(stock: int, presses: seq<Press>): int
  {
    if presses == [] then 1
    else Step(QuantityAfter(stock, presses[..|presses| - 1]), stock, presses[|presses| - 1])
  }

  /** For a book in stock the picker never leaves 1 to `stock`, whatever is pressed. */
  lemma {:induction false} QuantityStaysInStock(stock: int, presses: seq<Press>)
    requires stock >= 1
    ensures 1 <= QuantityAfter(stock, presses) <= stock
  {
    if presses != [] {
      QuantityStaysInStock(stock, presses[..|presses| - 1]);
    }
  }

  /** For a book out of stock "+" drops the quantity to 0, while the add button is disabled. */
  lemma OutOfStockPlusGivesZero()
    ensures QuantityAfter(0, [Plus]) == 0
    ensures AddDisabled(0)
  {
    assert [Plus][..0] == [];
  }

  /** "Add to Cart" is disabled exactly when the stock is zero. */
  predicate AddDisabled(stock: int)
    ensures AddDisabled(stock) ==> StockLabel(stock) == "Out of stock"
  {
    stock == 0
  }

  /** The stock line under the price. */
  function StockLabel(stock: int): (r: string)
    ensures stock <= 0 ==> r == "Out of stock"
    ensures stock > 0 ==> exists n :: (|n| >= 1 && n[0] != '0' && (forall i :: 0 <= i < |n| ==> IsDigit(n[i])) &&
                                       r == n + " in stock" && DigitsValue(n) == stock)
  {
    if stock > 0 then
      var n := NatToString(stock);
      assert DigitsValue(n) == stock;
      n + " in stock"
    else "Out of stock"
  }

  /** The label says "Out of stock" exactly when nothing is in stock. */
  lemma StockLabelOutOfStock(stock: int)
    ensures StockLabel(stock) == "Out of stock" <==> stock <= 0
  {
    if stock > 0 {
      var n := NatToString(stock);
      assert StockLabel(stock)[0] == n[0] && IsDigit(n[0]);
      assert !IsDigit("Out of stock"[0]);
    }
  }

  /** What pressing "Add to Cart" leads to. */
  datatype AddOutcome = LoginRequired | AddRequest(bookId: string, quantity: int)

  /** `handleAddToCart`: without a user nothing is added; otherwise the book and the picked quantity. */
  function AddToCart(loggedIn: bool, bookId: string, quantity: int): (r: AddOutcome)
    ensures r.LoginRequired? <==> !loggedIn
    ensures r.AddRequest? ==> r.bookId == bookId && r.quantity == quantity
  {
    if !loggedIn then LoginRequired else AddRequest(bookId, quantity)
  }

  /** A signed-in user adding a book in stock asks for between 1 and `stock` copies. */
  lemma AddedQuantityWithinStock(stock: int, presses: seq<Press>, bookId: string)
    requires stock >= 1
    ensures var r := AddToCart(true, bookId, QuantityAfter(stock, presses));
      r.AddRequest? && 1 <= r.quantity <= stock
  {
    QuantityStaysInStock(stock, presses);
  }

  /** The page's `quantity` state for one book. */
  class QuantityPicker {
    var quantity: int
    const stock: int

    ghost predicate Valid()
      reads this
    {
      stock >= 1 ==> 1 <= quantity <= stock
    }

    /** `useState(1)`. */
    constructor (stock: int)
      ensures this.stock == stock && quantity == 1 && Valid()
    {
      this.stock := stock;
      quantity := 1;
    }

    method Decrement()
      modifies this
      ensures quantity == Decremented(old(quantity))
      ensures old(Valid()) ==> Valid()
    {
      quantity := Decremented(quantity);
    }

    method Increment()
      modifies this
      ensures quantity == Incremented(old(quantity), stock)
      ensures old(Valid()) ==> Valid()
    {
      quantity := Incremented(quantity, stock);
    }
  }
}
