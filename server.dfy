/** The route handlers of `src/supabase/functions/server/index.tsx` over the
    key-value store. The store is one map from keys to whole values, read and
    written in full; HTTP routing, CORS and logging are not modelled. */
module Server {
  import opened Options
  import opened Text
  import opened Books
  import opened Carts
  import opened Orders

  /** The values the handlers keep in the store. */
  datatype Value =
    | BookList(books: seq<Book>)
    | Flag(on: bool)
    | CartValue(items: seq<CartItem>)
    | OrderList(orders: seq<Order>)

  const BooksKey := "books"
  const InitFlagKey := "books_initialized"

  function CartKey(uid: string): string { "cart:" + uid }

  function OrdersKey(uid: string): string { "orders:" + uid }

  /** The keys of different kinds, or of different users, never collide. */
  lemma KeysDistinct()
    ensures forall u, v :: CartKey(u) != OrdersKey(v)
    ensures forall u :: CartKey(u) != BooksKey && CartKey(u) != InitFlagKey
    ensures forall u :: OrdersKey(u) != BooksKey && OrdersKey(u) != InitFlagKey
    ensures forall u, v :: CartKey(u) == CartKey(v) ==> u == v
    ensures forall u, v :: OrdersKey(u) == OrdersKey(v) ==> u == v
    ensures BooksKey != InitFlagKey
  {
    forall u, v ensures CartKey(u) != OrdersKey(v) {
      assert CartKey(u)[0] != OrdersKey(v)[0];
    }
    forall u ensures CartKey(u) != BooksKey && CartKey(u) != InitFlagKey {
      assert CartKey(u)[0] == 'c';
    }
    forall u ensures OrdersKey(u) != BooksKey && OrdersKey(u) != InitFlagKey {
      assert OrdersKey(u)[0] == 'o';
    }
    forall u, v | CartKey(u) == CartKey(v) ensures u == v {
      assert CartKey(u)[5..] == u && CartKey(v)[5..] == v;
    }
    forall u, v | OrdersKey(u) == OrdersKey(v) ensures u == v {
      assert OrdersKey(u)[7..] == u && OrdersKey(v)[7..] == v;
    }
  }

  /** Each key the handlers use holds a value of the kind they expect, and every
      stored cart has at most one entry per book. */
  ghost predicate WellFormed(kv: map<string, Value>)
  {
    && (BooksKey in kv ==> kv[BooksKey].BookList?)
    && (InitFlagKey in kv ==> kv[InitFlagKey].Flag?)
    && (forall u :: CartKey(u) in kv ==> kv[CartKey(u)].CartValue? && UniqueIds(kv[CartKey(u)].items))
    && (forall u :: OrdersKey(u) in kv ==> kv[OrdersKey(u)].OrderList?)
  }

  /** Writing a cart with one entry per book under a user's cart key keeps the store well formed. */
  lemma PutCartKeepsWellFormed(kv: map<string, Value>, uid: string, cart: seq<CartItem>)
    requires WellFormed(kv) && UniqueIds(cart)
    ensures WellFormed(kv[CartKey(uid) := CartValue(cart)])
  {
    KeysDistinct();
  }

  /** Writing an order history under a user's orders key keeps the store well formed. */
  lemma PutOrdersKeepsWellFormed(kv: map<string, Value>, uid: string, orders: seq<Order>)
    requires WellFormed(kv)
    ensures WellFormed(kv[OrdersKey(uid) := OrderList(orders)])
  {
    KeysDistinct();
  }

  /** The error replies. */
  datatype Failure = Unauthorized | BookNotFound

  datatype Reply<T> = Ok(value: T) | Err(failure: Failure)

  /** The replies of `GET /init-books`. */
  datatype InitReply = AlreadyInitialized | InitializedNow(count: nat)

  /** `user?.id` is truthy: a user came back and its id is not empty. */
  predicate Authorized(user: Option<string>)
  {
    user.Some? && user.value != ""
  }

  class Store {
    var kv: map<string, Value>

    ghost predicate Valid()
      reads this
    {
      WellFormed(kv)
    }

    constructor ()
      ensures Valid() && kv == map[]
    {
      kv := map[];
    }

    /** `await kv.get('books') || []`. */
    function Catalog(): (r: seq<Book>)
      reads this
      requires Valid()
      ensures BooksKey !in kv ==> r == []
      ensures BooksKey in kv ==> kv[BooksKey] == BookList(r)
    {
      if BooksKey in kv then kv[BooksKey].books else []
    }

    /** `await kv.get(`cart:${uid}`) || []`. */
    function CartOf(uid: string): (r: seq<CartItem>)
      reads this
      requires Valid()
      ensures CartKey(uid) !in kv ==> r == []
      ensures CartKey(uid) in kv ==> kv[CartKey(uid)] == CartValue(r)
      ensures UniqueIds(r)
    {
      if CartKey(uid) in kv then kv[CartKey(uid)].items else []
    }

    /** `await kv.get(`orders:${uid}`) || []`. */
    function OrdersOf(uid: string): (r: seq<Order>)
      reads this
      requires Valid()
      ensures OrdersKey(uid) !in kv ==> r == []
      ensures OrdersKey(uid) in kv ==> kv[OrdersKey(uid)] == OrderList(r)
    {
      if OrdersKey(uid) in kv then kv[OrdersKey(uid)].orders else []
    }

    /** The `books_initialized` flag is set (truthy). */
    predicate Initialized()
      reads this
    {
      InitFlagKey in kv && kv[InitFlagKey].Flag? && kv[InitFlagKey].on
    }

    /** Every stored cart holds one entry per book. */
    lemma CartsUnique(uid: string)
      requires Valid()
      ensures UniqueIds(CartOf(uid))
    {
    }

    /** `GET /init-books`: seed the catalog once, guarded by the flag. */
    method InitBooks() returns (r: InitReply)
      requires Valid()
      modifies this
      ensures Valid()
      ensures old(Initialized()) ==> r == AlreadyInitialized && kv == old(kv)
      ensures !old(Initialized()) ==> r == InitializedNow(22)
      ensures !old(Initialized()) ==> kv == old(kv)[BooksKey := BookList(SeedBooks)][InitFlagKey := Flag(true)]
      ensures Initialized()
    {
      if Initialized() {
        return AlreadyInitialized;
      }
      KeysDistinct();
      SeedIdsInOrder();
      kv := kv[BooksKey := BookList(SeedBooks)];
      kv := kv[InitFlagKey := Flag(true)];
      r := InitializedNow(|SeedBooks|);
    }

    /** `GET /books`: the whole catalog, or nothing before seeding. */
    method GetBooks() returns (books: seq<Book>)
      requires Valid()
      ensures BooksKey !in kv ==> books == []
      ensures BooksKey in kv ==> BookList(books) == kv[BooksKey]
    {
      books := Catalog();
    }

    /** `GET /books/:id`: the first catalog book with that id, or "Book not found". */
    method GetBook(id: string) returns (r: Reply<Book>)
      requires Valid()
      ensures r.Err? <==> forall k :: 0 <= k < |Catalog()| ==> Catalog()[k].id != id
      ensures r.Err? ==> r.failure == BookNotFound
      ensures r.Ok? ==> exists i :: IsFirstWithId(Catalog(), id, i) && Catalog()[i] == r.value
    {
      var books := Catalog();
      var found := FindBook(books, id);
      if found.None? {
        return Err(BookNotFound);
      }
      r := Ok(found.value);
    }

    /** `GET /search?q=`. */
    method SearchBooks(q: Option<string>) returns (results: seq<Book>)
      requires Valid()
      ensures forall b :: b in results ==> b in Catalog() && Matches(b, SearchQuery(q))
      ensures forall b :: b in Catalog() && Matches(b, SearchQuery(q)) ==> b in results
      ensures Seqs.IsSubsequence(results, Catalog())
      ensures results == Search(Catalog(), q)
    {
      var books := Catalog();
      results := Search(books, q);
      SearchKeepsOrder(books, q);
    }

    /** `GET /cart`. */
    method GetCart(user: Option<string>) returns (r: Reply<seq<CartItem>>)
      requires Valid()
      ensures !Authorized(user) ==> r == Err(Unauthorized)
      ensures Authorized(user) ==> r.Ok? && r.value == CartOf(user.value)
      ensures r.Ok? ==> UniqueIds(r.value)
    {
      if !Authorized(user) {
        return Err(Unauthorized);
      }
      r := Ok(CartOf(user.value));
    }

    /** `POST /cart`: find the entry for the book and grow it in place, or push a new one. */
    method AddToCart(user: Option<string>, bookId: string, quantity: int) returns (r: Reply<seq<CartItem>>)
      requires Valid()
      modifies this
      ensures Valid()
      ensures !Authorized(user) ==> r == Err(Unauthorized) && kv == old(kv)
      ensures Authorized(user) ==> r.Ok? && r.value == AddItem(old(CartOf(user.value)), bookId, quantity)
      ensures Authorized(user) ==> kv == old(kv)[CartKey(user.value) := CartValue(r.value)]
    {
      if !Authorized(user) {
        return Err(Unauthorized);
      }
      var uid := user.value;
      var before := CartOf(uid);
      var cart := AddEntry(before, bookId, quantity);
      AddKeepsUnique(before, bookId, quantity);
      PutCartKeepsWellFormed(kv, uid, cart);
      kv := kv[CartKey(uid) := CartValue(cart)];
      r := Ok(cart);
    }

    /** `PUT /cart/:bookId`: set the quantity of the entry if there is one; write only then. */
    method UpdateCartItem(user: Option<string>, bookId: string, quantity: int) returns (r: Reply<seq<CartItem>>)
      requires Valid()
      modifies this
      ensures Valid()
      ensures !Authorized(user) ==> r == Err(Unauthorized) && kv == old(kv)
      ensures Authorized(user) ==> r.Ok? && r.value == UpdateItem(old(CartOf(user.value)), bookId, quantity)
      ensures Authorized(user) && HasItem(old(CartOf(user.value)), bookId) ==>
                kv == old(kv)[CartKey(user.value) := CartValue(r.value)]
      ensures Authorized(user) && !HasItem(old(CartOf(user.value)), bookId) ==>
                kv == old(kv) && r.value == old(CartOf(user.value))
    {
      if !Authorized(user) {
        return Err(Unauthorized);
      }
      var uid := user.value;
      var cart := CartOf(uid);
      ghost var before := cart;
      var found := FindEntry(cart, bookId);
      if found.Some? {
        var i := found.value;
        UpdateItemAtFirst(before, bookId, quantity, i);
        cart := cart[i := cart[i].(quantity := quantity)];
        UpdateKeepsUnique(before, bookId, quantity);
        PutCartKeepsWellFormed(kv, uid, cart);
        kv := kv[CartKey(uid) := CartValue(cart)];
      }
      r := Ok(cart);
    }

    /** `DELETE /cart/:bookId`: filter the book out and write the result back. */
    method RemoveFromCart(user: Option<string>, bookId: string) returns (r: Reply<seq<CartItem>>)
      requires Valid()
      modifies this
      ensures Valid()
      ensures !Authorized(user) ==> r == Err(Unauthorized) && kv == old(kv)
      ensures Authorized(user) ==> r.Ok? && r.value == RemoveItem(old(CartOf(user.value)), bookId)
      ensures Authorized(user) ==> kv == old(kv)[CartKey(user.value) := CartValue(r.value)]
    {
      if !Authorized(user) {
        return Err(Unauthorized);
      }
      var uid := user.value;
      var cart := CartOf(uid);
      var updated := RemoveItem(cart, bookId);
      RemoveKeepsUnique(cart, bookId);
      PutCartKeepsWellFormed(kv, uid, updated);
      kv := kv[CartKey(uid) := CartValue(updated)];
      r := Ok(updated);
    }

    /** `POST /orders`: append a pending order built from the request, then clear the cart.
        `now` stands for `Date.now()` and `createdAt` for the ISO timestamp. */
    method CreateOrder(user: Option<string>, items: seq<OrderItem>, total: int, shippingAddress: string,
                       now: nat, createdAt: string) returns (r: Reply<Order>)
      requires Valid()
      modifies this
      ensures Valid()
      ensures !Authorized(user) ==> r == Err(Unauthorized) && kv == old(kv)
      ensures Authorized(user) ==> r.Ok?
      ensures r.Ok? ==> r.value == Order("order-" + NatToString(now), user.value, items, total, shippingAddress, Pending, createdAt)
      ensures Authorized(user) ==>
                kv == old(kv)[OrdersKey(user.value) := OrderList(old(OrdersOf(user.value)) + [r.value])]
                             [CartKey(user.value) := CartValue([])]
      ensures Authorized(user) ==> CartOf(user.value) == [] && OrdersOf(user.value) == old(OrdersOf(user.value)) + [r.value]
    {
      if !Authorized(user) {
        return Err(Unauthorized);
      }
      var uid := user.value;
      var orders := OrdersOf(uid);
      var order := Order("order-" + NatToString(now), uid, items, total, shippingAddress, Pending, createdAt);
      orders := orders + [order];
      PutOrdersKeepsWellFormed(kv, uid, orders);
      kv := kv[OrdersKey(uid) := OrderList(orders)];
      PutCartKeepsWellFormed(kv, uid, []);
      kv := kv[CartKey(uid) := CartValue([])];
      KeysDistinct();
      r := Ok(order);
    }

    /** `GET /orders`. */
    method GetOrders(user: Option<string>) returns (r: Reply<seq<Order>>)
      requires Valid()
      ensures !Authorized(user) ==> r == Err(Unauthorized)
      ensures Authorized(user) ==> r.Ok? && r.value == OrdersOf(user.value)
    {
      if !Authorized(user) {
        return Err(Unauthorized);
      }
      r := Ok(OrdersOf(user.value));
    }
  }
}
