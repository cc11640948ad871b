/** The cart array the server keeps under `cart:<uid>` and the three ways the
    cart routes of `src/supabase/functions/server/index.tsx` rewrite it. */
module Carts {
  import opened Options
  import Seqs

  /** One `{ bookId, quantity }` entry. */
  datatype CartItem = CartItem(bookId: string, quantity: int)

  /** Some entry of the cart is for `id`. */
  predicate HasItem(cart: seq<CartItem>, id: string)
  {
    exists k :: 0 <= k < |cart| && cart[k].bookId == id
  }

  /** `i` is the entry `cart.find(item => item.bookId === id)` returns. */
  ghost predicate IsFirst(cart: seq<CartItem>, id: string, i: int)
  {
    0 <= i < |cart| && cart[i].bookId == id && forall k :: 0 <= k < i ==> cart[k].bookId != id
  }

  /** The invariant the cart routes are meant to keep: one entry per book. */
  ghost predicate UniqueIds(cart: seq<CartItem>)
  {
    forall i, j :: 0 <= i < j < |cart| ==> cart[i].bookId != cart[j].bookId
  }

  /** Position of the entry `find` returns, if any. */
  function FindIndex(cart: seq<CartItem>, id: string): (r: Option<nat>)
    ensures r.None? <==> !HasItem(cart, id)
    ensures r.Some? ==> IsFirst(cart, id, r.value)
  {
    if cart == [] then None
    else if cart[0].bookId == id then Some(0)
    else
      var r := FindIndex(cart[1..], id);
      assert forall k :: 1 <= k < |cart| ==> cart[k] == cart[1..][k - 1];
      match r
      case None => None
      case Some(i) => Some(i + 1)
  }

  /** `cart.find(item => item.bookId === bookId)`: scan the entries from the front. */
  method FindEntry(cart: seq<CartItem>, id: string) returns (found: Option<nat>)
    ensures found.None? <==> !HasItem(cart, id)
    ensures found.Some? ==> IsFirst(cart, id, found.value)
    ensures found == FindIndex(cart, id)
  {
    var k := 0;
    while k < |cart|
      invariant 0 <= k <= |cart|
      invariant forall j :: 0 <= j < k ==> cart[j].bookId != id
    {
      if cart[k].bookId == id {
        FirstIsUnique(cart, id, k, FindIndex(cart, id).value);
        return Some(k);
      }
      k := k + 1;
    }
    return None;
  }

  /** The first entry for `id` is unique. */
  lemma FirstIsUnique(cart: seq<CartItem>, id: string, i: int, j: int)
    requires IsFirst(cart, id, i) && IsFirst(cart, id, j)
    ensures i == j
  {
  }

  /** `POST /cart`: grow the existing entry in place, or append a new one. */
  function AddItem(cart: seq<CartItem>, id: string, quantity: int): (r: seq<CartItem>)
    ensures !HasItem(cart, id) ==> r == cart + [CartItem(id, quantity)]
    ensures forall i :: IsFirst(cart, id, i) ==> r == cart[i := CartItem(id, cart[i].quantity + quantity)]
  {
    match FindIndex(cart, id)
    case None => cart + [CartItem(id, quantity)]
    case Some(i) => cart[i := cart[i].(quantity := cart[i].quantity + quantity)]
  }

  /** `PUT /cart/:bookId`: set the quantity of the existing entry; no entry, no change. */
  function UpdateItem(cart: seq<CartItem>, id: string, quantity: int): (r: seq<CartItem>)
    ensures !HasItem(cart, id) ==> r == cart
    ensures forall i :: IsFirst(cart, id, i) ==> r == cart[i := CartItem(id, quantity)]
  {
    match FindIndex(cart, id)
    case None => cart
    case Some(i) => cart[i := cart[i].(quantity := quantity)]
  }

  /** Growing the found entry in place, as the add route does, is `AddItem`. */
  lemma AddItemAtFirst(cart: seq<CartItem>, id: string, quantity: int, i: nat)
    requires IsFirst(cart, id, i)
    ensures AddItem(cart, id, quantity) == cart[i := cart[i].(quantity := cart[i].quantity + quantity)]
  {
  }

  /** Overwriting the found entry's quantity in place, as the update route does, is `UpdateItem`. */
  lemma UpdateItemAtFirst(cart: seq<CartItem>, id: string, quantity: int, i: nat)
    requires IsFirst(cart, id, i)
    ensures UpdateItem(cart, id, quantity) == cart[i := cart[i].(quantity := quantity)]
  {
  }

  /** The add route's edit: find the entry, then grow it in place or push a new one. */
  method AddEntry(cart: seq<CartItem>, id: string, quantity: int) returns (r: seq<CartItem>)
    ensures r == AddItem(cart, id, quantity)
  {
    var found := FindEntry(cart, id);
    if found.Some? {
      var i := found.value;
      AddItemAtFirst(cart, id, quantity, i);
      r := cart[i := cart[i].(quantity := cart[i].quantity + quantity)];
    } else {
      r := cart + [CartItem(id, quantity)];
    }
  }

  /** The filter callback of `DELETE /cart/:bookId`: keep entries for other books. */
  function OtherBook(id: string): CartItem -> bool
  {
    (x: CartItem) => x.bookId != id
  }

  /** `DELETE /cart/:bookId`: `cart.filter(item => item.bookId !== id)`. */
  function RemoveItem(cart: seq<CartItem>, id: string): (r: seq<CartItem>)
    ensures !HasItem(r, id)
    ensures forall x :: x in r ==> x in cart
    ensures forall x :: x in cart && x.bookId != id ==> x in r
    ensures forall x {:trigger multiset(r)[x]} :: x in cart && x.bookId != id ==> multiset(r)[x] == multiset(cart)[x]
  {
    var r := Seqs.Filter(cart, OtherBook(id));
    assert forall k :: 0 <= k < |r| ==> r[k] in r;
    r
  }

  /** Removal keeps the remaining entries in their original order. */
  lemma RemoveKeepsOrder(cart: seq<CartItem>, id: string)
    ensures Seqs.IsSubsequence(RemoveItem(cart, id), cart)
  {
    Seqs.FilterIsSubsequence(cart, OtherBook(id));
  }

  /** Removing a book that is not in the cart changes nothing. */
  lemma RemoveAbsent(cart: seq<CartItem>, id: string)
    requires !HasItem(cart, id)
    ensures RemoveItem(cart, id) == cart
  {
    forall x | x in cart ensures x.bookId != id {
      var k :| 0 <= k < |cart| && cart[k] == x;
    }
    Seqs.FilterKeepsAll(cart, OtherBook(id));
  }

  /** Removal is idempotent. */
  lemma RemoveIdempotent(cart: seq<CartItem>, id: string)
    ensures RemoveItem(RemoveItem(cart, id), id) == RemoveItem(cart, id)
  {
    Seqs.FilterIdempotent(cart, OtherBook(id));
  }

  /** Removing the book from a cart that holds nothing else empties it. */
  lemma RemoveOnlyBook(cart: seq<CartItem>, id: string)
    requires forall k :: 0 <= k < |cart| ==> cart[k].bookId == id
    ensures RemoveItem(cart, id) == []
  {
    forall x | x in cart ensures x.bookId == id {
      var k :| 0 <= k < |cart| && cart[k] == x;
    }
    Seqs.FilterKeepsNone(cart, OtherBook(id));
  }

  /** Replacing one entry by another for the same book leaves the cart without that book unchanged. */
  lemma {:induction false} RemoveAfterReplace(cart: seq<CartItem>, id: string, i: int, x: CartItem)
    requires 0 <= i < |cart| && cart[i].bookId == id && x.bookId == id
    ensures RemoveItem(cart[i := x], id) == RemoveItem(cart, id)
    decreases |cart|
  {
    if i > 0 {
      assert cart[i := x][1..] == cart[1..][i - 1 := x];
      RemoveAfterReplace(cart[1..], id, i - 1, x);
    } else {
      assert cart[i := x][1..] == cart[1..];
    }
  }

  /** Appending an entry for a book leaves the cart without that book unchanged. */
  lemma RemoveAfterAppend(cart: seq<CartItem>, x: CartItem)
    ensures RemoveItem(cart + [x], x.bookId) == RemoveItem(cart, x.bookId)
  {
    var p := OtherBook(x.bookId);
    Seqs.FilterConcat(cart, [x], p);
    assert !p(x);
    assert [x][1..] == [];
    assert Seqs.Filter([x], p) == Seqs.Filter([], p);
  }

  /** Add changes only the entry for its own book: with that book removed, the cart is as before. */
  lemma AddTouchesOnlyItsBook(cart: seq<CartItem>, id: string, quantity: int)
    ensures RemoveItem(AddItem(cart, id, quantity), id) == RemoveItem(cart, id)
  {
    var r := AddItem(cart, id, quantity);
    var f := FindIndex(cart, id);
    if f.None? {
      assert r == cart + [CartItem(id, quantity)];
      RemoveAfterAppend(cart, CartItem(id, quantity));
    } else {
      var i := f.value;
      assert r == cart[i := CartItem(id, cart[i].quantity + quantity)];
      RemoveAfterReplace(cart, id, i, CartItem(id, cart[i].quantity + quantity));
    }
  }

  /** Update changes only the entry for its own book. */
  lemma UpdateTouchesOnlyItsBook(cart: seq<CartItem>, id: string, quantity: int)
    ensures RemoveItem(UpdateItem(cart, id, quantity), id) == RemoveItem(cart, id)
  {
    match FindIndex(cart, id)
    case None =>
    case Some(i) =>
      RemoveAfterReplace(cart, id, i, CartItem(id, quantity));
  }

  /** Add keeps one entry per book. */
  lemma AddKeepsUnique(cart: seq<CartItem>, id: string, quantity: int)
    requires UniqueIds(cart)
    ensures UniqueIds(AddItem(cart, id, quantity))
  {
    var r := AddItem(cart, id, quantity);
    if !HasItem(cart, id) {
      assert forall i :: 0 <= i < |cart| ==> r[i] == cart[i];
    }
  }

  /** Update keeps one entry per book. */
  lemma UpdateKeepsUnique(cart: seq<CartItem>, id: string, quantity: int)
    requires UniqueIds(cart)
    ensures UniqueIds(UpdateItem(cart, id, quantity))
  {
  }

  /** Removal keeps one entry per book. */
  lemma {:induction false} RemoveKeepsUnique(cart: seq<CartItem>, id: string)
    requires UniqueIds(cart)
    ensures UniqueIds(RemoveItem(cart, id))
    decreases |cart|
  {
    if cart != [] {
      RemoveKeepsUnique(cart[1..], id);
      var tail := RemoveItem(cart[1..], id);
      forall x | x in tail ensures x.bookId != cart[0].bookId {
        var k :| 0 <= k < |cart[1..]| && cart[1..][k] == x;
        assert cart[k + 1] == x;
      }
      var r := RemoveItem(cart, id);
      if cart[0].bookId != id {
        assert r == [cart[0]] + tail;
      } else {
        assert r == tail;
      }
    }
  }

  /** Sum of the quantities of the entries for `id`. */
  function QuantityOf(cart: seq<CartItem>, id: string): int
  {
    if cart == [] then 0
    else (if cart[0].bookId == id then cart[0].quantity else 0) + QuantityOf(cart[1..], id)
  }

  /** Number of entries for `id`. */
  function CountOf(cart: seq<CartItem>, id: string): nat
  {
    if cart == [] then 0
    else (if cart[0].bookId == id then 1 else 0) + CountOf(cart[1..], id)
  }

  lemma {:induction false} AppendTotals(cart: seq<CartItem>, x: CartItem, id: string)
    ensures QuantityOf(cart + [x], id) == QuantityOf(cart, id) + (if x.bookId == id then x.quantity else 0)
    ensures CountOf(cart + [x], id) == CountOf(cart, id) + (if x.bookId == id then 1 else 0)
    decreases |cart|
  {
    if cart == [] {
      assert [] + [x] == [x];
    } else {
      assert (cart + [x])[1..] == cart[1..] + [x];
      AppendTotals(cart[1..], x, id);
    }
  }

  lemma {:induction false} ReplaceTotals(cart: seq<CartItem>, i: int, x: CartItem, id: string)
    requires 0 <= i < |cart| && cart[i].bookId == x.bookId
    ensures QuantityOf(cart[i := x], id) == QuantityOf(cart, id) + (if x.bookId == id then x.quantity - cart[i].quantity else 0)
    ensures CountOf(cart[i := x], id) == CountOf(cart, id)
    decreases |cart|
  {
    if i > 0 {
      assert cart[i := x][1..] == cart[1..][i - 1 := x];
      ReplaceTotals(cart[1..], i - 1, x, id);
    } else {
      assert cart[i := x][1..] == cart[1..];
    }
  }

  lemma {:induction false} AbsentTotals(cart: seq<CartItem>, id: string)
    requires !HasItem(cart, id)
    ensures QuantityOf(cart, id) == 0 && CountOf(cart, id) == 0
    decreases |cart|
  {
    if cart != [] {
      assert cart[0].bookId != id;
      AbsentTotals(cart[1..], id);
    }
  }

  /** Each add of `q` for a book raises that book's total by exactly `q` and keeps its entry count at one. */
  lemma {:induction false} AddRaisesQuantity(cart: seq<CartItem>, id: string, q: int)
    requires CountOf(cart, id) <= 1
    ensures QuantityOf(AddItem(cart, id, q), id) == QuantityOf(cart, id) + q
    ensures CountOf(AddItem(cart, id, q), id) == 1
  {
    var f := FindIndex(cart, id);
    if f.None? {
      AbsentTotals(cart, id);
      AddNewTotals(cart, id, q);
    } else {
      AddExistingTotals(cart, id, q, f.value);
    }
  }

  lemma AddNewTotals(cart: seq<CartItem>, id: string, q: int)
    requires !HasItem(cart, id)
    ensures QuantityOf(AddItem(cart, id, q), id) == q
    ensures CountOf(AddItem(cart, id, q), id) == 1
  {
    assert AddItem(cart, id, q) == cart + [CartItem(id, q)];
    AbsentTotals(cart, id);
    AppendTotals(cart, CartItem(id, q), id);
  }

  lemma AddExistingTotals(cart: seq<CartItem>, id: string, q: int, i: nat)
    requires IsFirst(cart, id, i) && CountOf(cart, id) <= 1
    ensures QuantityOf(AddItem(cart, id, q), id) == QuantityOf(cart, id) + q
    ensures CountOf(AddItem(cart, id, q), id) == 1
  {
    var x := CartItem(id, cart[i].quantity + q);
    assert AddItem(cart, id, q) == cart[i := x];
    ReplaceTotals(cart, i, x, id);
    NoCountNoItem(cart, id, i);
  }

  lemma {:induction false} NoCountNoItem(cart: seq<CartItem>, id: string, i: int)
    requires 0 <= i < |cart| && cart[i].bookId == id
    ensures CountOf(cart, id) >= 1
    decreases |cart|
  {
    if i > 0 {
      NoCountNoItem(cart[1..], id, i - 1);
    }
  }

  /** A run of adds for one book. */
  function AddAll(cart: seq<CartItem>, id: string, qs: seq<int>): seq<CartItem>
    decreases |qs|
  {
    if qs == [] then cart else AddAll(AddItem(cart, id, qs[0]), id, qs[1..])
  }

  function Sum(qs: seq<int>): int
  {
    if qs == [] then 0 else qs[0] + Sum(qs[1..])
  }

  /** Adds of one book, starting with no entry for it, leave exactly one entry whose
      quantity is the sum of the added quantities, and no entry for another book changes. */
  lemma {:induction false} RepeatedAdds(cart: seq<CartItem>, id: string, qs: seq<int>)
    requires !HasItem(cart, id) && qs != []
    ensures CountOf(AddAll(cart, id, qs), id) == 1
    ensures QuantityOf(AddAll(cart, id, qs), id) == Sum(qs)
    ensures RemoveItem(AddAll(cart, id, qs), id) == RemoveItem(cart, id)
  {
    AbsentTotals(cart, id);
    AddRunTotals(cart, id, qs);
  }

  lemma {:induction false} AddRunTotals(cart: seq<CartItem>, id: string, qs: seq<int>)
    requires CountOf(cart, id) <= 1 && (qs == [] ==> CountOf(cart, id) == 1)
    ensures CountOf(AddAll(cart, id, qs), id) == 1
    ensures QuantityOf(AddAll(cart, id, qs), id) == QuantityOf(cart, id) + Sum(qs)
    ensures RemoveItem(AddAll(cart, id, qs), id) == RemoveItem(cart, id)
    decreases |qs|
  {
    if qs != [] {
      var next := AddItem(cart, id, qs[0]);
      AddRaisesQuantity(cart, id, qs[0]);
      AddTouchesOnlyItsBook(cart, id, qs[0]);
      AddRunTotals(next, id, qs[1..]);
    }
  }

  /** add("3", 2) then add("3", 1) on an empty cart gives [{ bookId: "3", quantity: 3 }]. */
  lemma AddSameBookTwice()
    ensures AddItem(AddItem([], "3", 2), "3", 1) == [CartItem("3", 3)]
  {
    var c := AddItem([], "3", 2);
    assert c == [CartItem("3", 2)];
    assert IsFirst(c, "3", 0);
  }

  /** The quantity is not validated: zero or negative amounts are stored as given. */
  lemma AddStoresUncheckedQuantity(cart: seq<CartItem>, id: string, q: int)
    requires !HasItem(cart, id) && q <= 0
    ensures CartItem(id, q) in AddItem(cart, id, q)
  {
    assert AddItem(cart, id, q)[|cart|] == CartItem(id, q);
  }

  /** The cart badge count: `cart.reduce((sum, item) => sum + item.quantity, 0)`. */
  function ItemCount(cart: seq<CartItem>): (r: int)
    ensures PositiveQuantities(cart) ==> r >= |cart|
  {
    if cart == [] then 0 else cart[0].quantity + ItemCount(cart[1..])
  }

  lemma {:induction false} ItemCountReplace(cart: seq<CartItem>, i: int, x: CartItem)
    requires 0 <= i < |cart|
    ensures ItemCount(cart[i := x]) == ItemCount(cart) - cart[i].quantity + x.quantity
    decreases |cart|
  {
    if i > 0 {
      assert cart[i := x][1..] == cart[1..][i - 1 := x];
      ItemCountReplace(cart[1..], i - 1, x);
    }
  }

  lemma {:induction false} ItemCountAppend(cart: seq<CartItem>, x: CartItem)
    ensures ItemCount(cart + [x]) == ItemCount(cart) + x.quantity
    decreases |cart|
  {
    if cart == [] {
      assert [] + [x] == [x];
    } else {
      assert (cart + [x])[1..] == cart[1..] + [x];
      ItemCountAppend(cart[1..], x);
    }
  }

  /** Adding `q` copies of a book raises the badge count by exactly `q`. */
  lemma {:induction false} AddRaisesItemCount(cart: seq<CartItem>, id: string, q: int)
    ensures ItemCount(AddItem(cart, id, q)) == ItemCount(cart) + q
  {
    var f := FindIndex(cart, id);
    if f.None? {
      assert AddItem(cart, id, q) == cart + [CartItem(id, q)];
      ItemCountAppend(cart, CartItem(id, q));
    } else {
      var i := f.value;
      var x := CartItem(id, cart[i].quantity + q);
      assert AddItem(cart, id, q) == cart[i := x];
      ItemCountReplace(cart, i, x);
    }
  }

  /** Every entry has a quantity of at least one. */
  ghost predicate PositiveQuantities(cart: seq<CartItem>)
  {
    forall k :: 0 <= k < |cart| ==> cart[k].quantity >= 1
  }

  /** An update with a quantity of at least one keeps every quantity positive. */
  lemma UpdateKeepsPositive(cart: seq<CartItem>, id: string, quantity: int)
    requires PositiveQuantities(cart) && quantity >= 1
    ensures PositiveQuantities(UpdateItem(cart, id, quantity))
  {
  }

  /** Removal keeps every quantity positive. */
  lemma RemoveKeepsPositive(cart: seq<CartItem>, id: string)
    requires PositiveQuantities(cart)
    ensures PositiveQuantities(RemoveItem(cart, id))
  {
    var r := RemoveItem(cart, id);
    forall k | 0 <= k < |r| ensures r[k].quantity >= 1 {
      assert r[k] in cart;
    }
  }
}
