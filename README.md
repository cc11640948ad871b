# Bookshop storefront and shop server, modelled in Dafny

The Bookshop is a small online bookstore. A server keeps everything in one
key-value store:

- the catalog is under `books`;
- a one-time seeding flag is under `books_initialized`;
- each user's cart is under `cart:<user>`;
- each user's order list is under `orders:<user>`.

The server answers these routes:

- `init-books` seeds 22 records once;
- `books` and `books/:id` list the catalog and look up one book;
- `search` does a case-insensitive substring match on title, author and genre;
- `cart` has GET, POST (add), PUT (set quantity) and DELETE (remove) routes;
- `orders` has POST (record an order and empty the cart) and GET.

The browser pages work on the data these routes return:

- the home page shows six sections of at most four books each;
- the catalog page filters by genre and sorts by title, price or rating;
- the cart page computes line items and a subtotal and sends the order;
- the book page has a quantity picker bounded by stock;
- a hero carousel has four slides.

This project models that core:

- `Server.Store` is a class over the store map.
- Every route is a method. It states the reply and the whole new map.
- It also keeps the store's invariant: each key holds a value of the right kind, and each cart holds each book at most once.
- The cart edits are specification functions in `Carts`. The add and update routes find the entry with a loop (`Carts.FindEntry`), change the entry at that position and write the cart back to the map. Their contracts equate the new cart with the `Carts` functions.
- The pages are pure functions over the fetched data, proved against independent properties: sortedness plus permutation, prefix, subsequence, inverse, and bounds.
- The carousel and the quantity picker are small classes, because the component state changes in place.

Modules, one per file:

- `Options`, `Text` (ASCII lowercase, substring search, decimal digits), `Seqs` (filter, take, distinct);
- `Books` (record, seed data, lookup, search), `Carts`, `Orders`, `Server`;
- `CartPage`, `AllProducts`, `Home`, `HeroCarousel`, `BookDetail`.

Modelling conventions:

- Prices are whole naira.
- Ratings are in tenths of a star: 4.7 is `47`.
- Integers are unbounded.
- The signed-in user is an `Option<string>` parameter. `None` or an empty id means the token did not resolve to a user.
- The clock reading that names an order (`order-<ms>`) is a parameter. So is the creation time stamp.

## Model

| member | source | states |
|---|---|---|
| Books.SeedIdsInOrder | src/supabase/functions/server/index.tsx:25-290 | the seed catalog has 22 records whose ids are "1" to "22" in order |
| Books.SeedIdsUnique | src/supabase/functions/server/index.tsx:25-290 | no two seed records share an id |
| Books.FindBook | src/supabase/functions/server/index.tsx:317-322 | `books.find` by id: None exactly when no record has the id, otherwise the first record with it |
| Books.FindBookDistinct | src/supabase/functions/server/index.tsx:317-322 | in a catalog with distinct ids, looking up a record's id returns that record |
| Books.SeedLookup | src/supabase/functions/server/index.tsx:317-322 | after seeding, looking up id k+1 returns the k-th seed record |
| Books.SearchQuery | src/supabase/functions/server/index.tsx:334 | a missing `q` becomes the empty query; a present one is lower-cased |
| Books.Search | src/supabase/functions/server/index.tsx:334-341 | a book is in the result exactly when it is in the catalog and its lower-cased title, author or genre contains the query; a matching book keeps its multiplicity |
| Books.SearchKeepsOrder | src/supabase/functions/server/index.tsx:337-341 | search results keep catalog order |
| Books.SearchEmptyQuery | src/supabase/functions/server/index.tsx:334-341 | a missing or empty query returns the whole catalog |
| Books.SearchIgnoresQueryCase | src/supabase/functions/server/index.tsx:334 | a query and its lower-cased form give the same results |
| Books.SearchFindsTitle | src/supabase/functions/server/index.tsx:337-341 | searching for a book's own title finds that book |
| Text.LowerChar | src/supabase/functions/server/index.tsx:334-340 | `toLowerCase` on one character: the result is never upper case; A-Z map to a-z and everything else is unchanged |
| Text.Lower | src/supabase/functions/server/index.tsx:334-340 | `toLowerCase` keeps the length and lowers each character |
| Text.LowerIdempotent | src/supabase/functions/server/index.tsx:334-340 | lowering twice is lowering once |
| Text.Includes | src/supabase/functions/server/index.tsx:338-340 | `includes` holds exactly when the query occurs at some position |
| Text.IncludesEmpty | src/supabase/functions/server/index.tsx:334-340 | the empty query occurs in every string |
| Text.IncludesSelf | src/supabase/functions/server/index.tsx:338 | every string contains itself |
| Text.NatToString | src/supabase/functions/server/index.tsx:485 | decimal rendering of a number: at least one digit, no leading zero, and it reads back as the number |
| Text.NatToStringInjective | src/supabase/functions/server/index.tsx:485 | different clock readings give different order ids |
| Seqs.Filter | src/supabase/functions/server/index.tsx:337 | `Array.filter`: an element is kept exactly when it satisfies the predicate, with its multiplicity, and the result is no longer than the input |
| Seqs.FilterIsSubsequence | src/supabase/functions/server/index.tsx:337 | filtering keeps the original order |
| Seqs.FilterKeepsAll | src/supabase/functions/server/index.tsx:337-341 | a predicate true for every element keeps the whole sequence |
| Seqs.FilterKeepsNone | src/supabase/functions/server/index.tsx:461 | generic `filter` law, used for removal: a predicate false for every element gives the empty sequence |
| Seqs.FilterConcat | src/supabase/functions/server/index.tsx:461 | filtering distributes over concatenation |
| Seqs.FilterIdempotent | src/supabase/functions/server/index.tsx:461 | generic `filter` law, used for removal: filtering twice with one predicate is filtering once |
| Seqs.Take | src/pages/Home.tsx:116 | `slice(0, n)`: a prefix of length n, or the whole sequence when it is shorter |
| Seqs.Distinct | src/pages/AllProducts.tsx:107 | `Array.from(new Set(...))` has the same elements as its input, each once |
| Seqs.IndexOfExtend | src/pages/AllProducts.tsx:107 | appending an element does not move the first occurrence of an element already present |
| Seqs.DistinctFirstOccurrenceOrder | src/pages/AllProducts.tsx:107 | the distinct elements come in the order of their first occurrence |
| Carts.FindIndex | src/supabase/functions/server/index.tsx:406 | `cart.find` by book id: None exactly when the book is absent, otherwise its first position |
| Carts.FindEntry | src/supabase/functions/server/index.tsx:406 | the loop behind `cart.find`: None exactly when the book is absent, otherwise the book's first position, the same answer as `Carts.FindIndex` |
| Carts.FirstIsUnique | src/supabase/functions/server/index.tsx:406 | the first position of a book is unique |
| Carts.AddItem | src/supabase/functions/server/index.tsx:406-411 | adding a book not in the cart appends it; otherwise its first entry grows by the quantity |
| Carts.AddEntry | src/supabase/functions/server/index.tsx:406-411 | the route's find-then-edit in place (grow the found entry, or push a new one) yields exactly `AddItem` of the cart |
| Carts.UpdateItem | src/supabase/functions/server/index.tsx:435-439 | setting a quantity for a book not in the cart leaves the cart as it is; otherwise its first entry gets the new quantity |
| Carts.RemoveItem | src/supabase/functions/server/index.tsx:461 | after removal the book is absent, and every other entry is still there with its multiplicity |
| Carts.RemoveKeepsOrder | src/supabase/functions/server/index.tsx:461 | removal keeps the order of the remaining entries |
| Carts.RemoveAbsent | src/supabase/functions/server/index.tsx:461 | removing a book that is not in the cart changes nothing |
| Carts.RemoveIdempotent | src/supabase/functions/server/index.tsx:461 | removing twice is removing once |
| Carts.RemoveOnlyBook | src/supabase/functions/server/index.tsx:461 | removing the book from a cart holding only that book leaves the empty cart |
| Carts.RemoveAfterReplace | src/supabase/functions/server/index.tsx:437 | overwriting an entry of a book, then removing that book, is the same as removing it |
| Carts.RemoveAfterAppend | src/supabase/functions/server/index.tsx:410 | appending an entry of a book, then removing that book, is the same as removing it |
| Carts.AddTouchesOnlyItsBook | src/supabase/functions/server/index.tsx:406-411 | adding changes no entry of any other book |
| Carts.UpdateTouchesOnlyItsBook | src/supabase/functions/server/index.tsx:435-439 | setting a quantity changes no entry of any other book |
| Carts.AddKeepsUnique | src/supabase/functions/server/index.tsx:406-411 | adding keeps each book in the cart at most once |
| Carts.UpdateKeepsUnique | src/supabase/functions/server/index.tsx:435-439 | setting a quantity keeps each book in the cart at most once |
| Carts.RemoveKeepsUnique | src/supabase/functions/server/index.tsx:461 | removing keeps each book in the cart at most once |
| Carts.AppendTotals | src/supabase/functions/server/index.tsx:410 | appending an entry raises the book's total quantity and entry count by that entry alone |
| Carts.ReplaceTotals | src/supabase/functions/server/index.tsx:408 | overwriting an entry changes the book's total quantity by the difference and keeps the entry count |
| Carts.AbsentTotals | src/supabase/functions/server/index.tsx:406 | a book not in the cart has total quantity 0 and no entries |
| Carts.AddRaisesQuantity | src/supabase/functions/server/index.tsx:406-411 | with at most one entry for the book, adding q raises its total by q and leaves exactly one entry |
| Carts.NoCountNoItem | src/supabase/functions/server/index.tsx:406 | a book at any position has at least one entry |
| Carts.RepeatedAdds | src/supabase/functions/server/index.tsx:406-411 | a run of adds of a new book leaves one entry whose quantity is the sum of the adds, and other books untouched |
| Carts.AddRunTotals | src/supabase/functions/server/index.tsx:406-411 | a run of adds to a cart with at most one entry for the book adds the sum to it, with one entry left |
| Carts.AddSameBookTwice | src/supabase/functions/server/index.tsx:406-411 | adding book "3" twice, 2 then 1, gives one entry of quantity 3 |
| Carts.AddStoresUncheckedQuantity | src/supabase/functions/server/index.tsx:403-411 | the server does not check the quantity: a zero or negative quantity is stored as given |
| Carts.ItemCount | src/components/Navbar.tsx:13 | the navbar badge, the sum of the quantities: with every quantity at least one it is at least the number of entries |
| Carts.ItemCountReplace | src/components/Navbar.tsx:13 | the navbar badge changes by the difference when an entry is overwritten |
| Carts.ItemCountAppend | src/components/Navbar.tsx:13 | the navbar badge rises by an appended entry's quantity |
| Carts.AddRaisesItemCount | src/components/Navbar.tsx:13 | every add raises the navbar badge by exactly the added quantity |
| Carts.UpdateKeepsPositive | src/supabase/functions/server/index.tsx:435-439 | setting a quantity of at least 1 keeps all quantities at least 1 |
| Carts.RemoveKeepsPositive | src/supabase/functions/server/index.tsx:461 | removal keeps all quantities at least 1 |
| Server.KeysDistinct | src/supabase/functions/server/index.tsx:385 | cart keys, order keys and the two catalog keys never collide, and different users get different keys |
| Server.PutCartKeepsWellFormed | src/supabase/functions/server/index.tsx:413 | storing a cart that holds each book once keeps the store well formed |
| Server.PutOrdersKeepsWellFormed | src/supabase/functions/server/index.tsx:495 | storing an order list keeps the store well formed |
| Server.Store.constructor | src/supabase/functions/server/index.tsx:20-23 | a fresh store is empty and well formed |
| Server.Store.CartsUnique | src/supabase/functions/server/index.tsx:385 | every stored cart holds each book at most once |
| Server.Authorized | src/supabase/functions/server/index.tsx:381 | `user?.id` is truthy: a user came back and its id is not the empty string |
| Server.Store.Catalog | src/supabase/functions/server/index.tsx:305 | the books key read with `[]` as fallback: the empty catalog when the key is missing, otherwise exactly the stored book list |
| Server.Store.CartOf | src/supabase/functions/server/index.tsx:385 | the cart key read with `[]` as fallback: the empty cart when the key is missing, otherwise exactly the stored cart, which holds each book at most once |
| Server.Store.OrdersOf | src/supabase/functions/server/index.tsx:517 | the orders key read with `[]` as fallback: no orders when the key is missing, otherwise exactly the stored order list |
| Server.Store.InitBooks | src/supabase/functions/server/index.tsx:18-296 | once seeded, nothing changes and the reply says so; otherwise the 22 records and the flag are stored and the count 22 returned |
| Server.Store.GetBooks | src/supabase/functions/server/index.tsx:303-307 | the stored catalog, or empty before seeding |
| Server.Store.GetBook | src/supabase/functions/server/index.tsx:314-324 | "Book not found" exactly when no record has the id, otherwise the first record with it |
| Server.Store.SearchBooks | src/supabase/functions/server/index.tsx:332-343 | the reply is `Books.Search` of the stored catalog: exactly the catalog books matching the lower-cased query, each as often as in the catalog, in catalog order |
| Server.Store.GetCart | src/supabase/functions/server/index.tsx:376-387 | Unauthorized without a user, otherwise the user's cart (empty if none), which holds each book once |
| Server.Store.AddToCart | src/supabase/functions/server/index.tsx:394-415 | Unauthorized without a user, changing nothing; otherwise the cart becomes `AddItem` of the old cart and only that key changes |
| Server.Store.UpdateCartItem | src/supabase/functions/server/index.tsx:422-442 | Unauthorized without a user; otherwise `UpdateItem` of the old cart, and the store is written only when the book is in the cart |
| Server.Store.RemoveFromCart | src/supabase/functions/server/index.tsx:449-464 | Unauthorized without a user; otherwise `RemoveItem` of the old cart, stored under the user's cart key |
| Server.Store.CreateOrder | src/supabase/functions/server/index.tsx:472-500 | Unauthorized without a user; otherwise a pending order `order-<now>` with the request's items, total and address is appended to the user's orders and the cart becomes empty |
| Server.Store.GetOrders | src/supabase/functions/server/index.tsx:508-518 | Unauthorized without a user, otherwise the user's orders (empty if none) |
| CartPage.LineItems | src/pages/Cart.tsx:90-95 | one line item per cart row, in order, with book id, title, quantity and price |
| CartPage.SubtotalEmpty | src/pages/Cart.tsx:130-133 | an empty cart has subtotal 0 |
| CartPage.SubtotalMatchesItems | src/pages/Cart.tsx:97-100 | the subtotal equals the sum of price times quantity over the line items sent |
| CartPage.Subtotal | src/pages/Cart.tsx:130-133 | the sum of price times quantity over the rows; never negative when prices and quantities are not |
| CartPage.Checkout | src/pages/Cart.tsx:86-114 | an empty cart sends nothing; otherwise the request has the line items, a total equal to the subtotal and to the line items' sum, and the address "Default Address" |
| CartPage.CheckoutOrderIsConsistent | src/pages/Cart.tsx:86-114 | an order stored from the page's request has a total that matches its items |
| CartPage.QuantityUpdate | src/pages/Cart.tsx:67-71 | an update is sent exactly when the new quantity is at least 1, and carries that quantity |
| CartPage.MinusAtOneIgnored | src/pages/Cart.tsx:198 | "-" on a row at quantity 1 sends nothing |
| CartPage.GuardedUpdateKeepsPositive | src/pages/Cart.tsx:67-71 | updates that pass the guard keep every cart quantity at least 1 |
| AllProducts.GenreFilter | src/pages/AllProducts.tsx:66-71 | "All" keeps every book; any other genre keeps exactly the books of that genre, each with its multiplicity |
| AllProducts.Compare | src/pages/AllProducts.tsx:74-87 | the comparator's sign per sort key: titles compare equal only when equal, "price-low" puts the cheaper first, "price-high" the dearer, "rating" the better rated, and an unknown key is 0 |
| AllProducts.Genres | src/pages/AllProducts.tsx:107 | the genre list starts with "All" and lists every catalog book's genre |
| AllProducts.GenreFilterKeepsOrder | src/pages/AllProducts.tsx:66-71 | the genre step keeps catalog order |
| AllProducts.LexCompare | src/pages/AllProducts.tsx:77 | the title comparison returns -1, 0 or 1, and 0 exactly for equal titles |
| AllProducts.LexCompareFlip | src/pages/AllProducts.tsx:77 | swapping the titles negates the comparison |
| AllProducts.LexCompareTransitive | src/pages/AllProducts.tsx:77 | the title comparison is transitive |
| AllProducts.CompareTotal | src/pages/AllProducts.tsx:74-87 | for every sort key, any two books are ordered one way or the other |
| AllProducts.CompareTransitive | src/pages/AllProducts.tsx:74-87 | for every sort key, the order is transitive |
| AllProducts.Insert | src/pages/AllProducts.tsx:74 | inserting adds exactly that book |
| AllProducts.Sort | src/pages/AllProducts.tsx:74 | the sort is a permutation of its input |
| AllProducts.InsertSorted | src/pages/AllProducts.tsx:74-87 | inserting into a sorted list keeps it sorted |
| AllProducts.SortSorted | src/pages/AllProducts.tsx:74-87 | the sort's output is ordered by the comparator |
| AllProducts.InsertKeepsGroup | src/pages/AllProducts.tsx:74-87 | for a group of books that may stay in any order, insertion puts the new book before every member, so the group keeps its order |
| AllProducts.SortKeepsGroup | src/pages/AllProducts.tsx:74-87 | the sort keeps the input order within every such group |
| AllProducts.SortIsStable | src/pages/AllProducts.tsx:74-87 | stability: for every book `k`, the books that tie with `k` under the comparator come out in their input order |
| AllProducts.SortKeepsSortedInput | src/pages/AllProducts.tsx:74-87 | a stable sort leaves an already ordered list unchanged |
| AllProducts.FilterAndSortBooks | src/pages/AllProducts.tsx:65-90 | the shown list is a permutation of the genre step's result, ordered by the chosen key |
| AllProducts.ShowingCount | src/pages/AllProducts.tsx:175 | "Showing N" counts exactly the books that passed the genre filter |
| AllProducts.PriceLowAscending | src/pages/AllProducts.tsx:78-79 | 'price-low' lists prices in non-decreasing order |
| AllProducts.PriceHighDescending | src/pages/AllProducts.tsx:80-81 | 'price-high' lists prices in non-increasing order |
| AllProducts.RatingDescending | src/pages/AllProducts.tsx:82-83 | 'rating' lists ratings in non-increasing order |
| AllProducts.UnknownSortKeepsOrder | src/pages/AllProducts.tsx:84-85 | an unknown sort key keeps the filtered order |
| AllProducts.GenresOf | src/pages/AllProducts.tsx:107 | the genre of every book, in catalog order |
| AllProducts.GenresSpec | src/pages/AllProducts.tsx:107 | the genre menu is "All" followed by every catalog genre exactly once, in order of first appearance |
| Home.SectionBooks | src/pages/Home.tsx:87-92 | a section holds exactly the catalog books that pass its filter, each with its multiplicity |
| Home.Belongs | src/pages/Home.tsx:87-92 | the section filters: rating at least 4.7 (47 tenths), more than 600 reviews, or exactly the section's genre |
| Home.Shown | src/pages/Home.tsx:116-181 | a section shows at most four books, all passing its filter, and all of them when fewer than four pass |
| Home.ShownIsPrefixOfFilter | src/pages/Home.tsx:116-181 | the books shown are the first min(4, n) of the filter, and the filter keeps catalog order |
| Home.GenreSectionIsExact | src/pages/Home.tsx:89-92 | a genre section shows only books of exactly its genre |
| Home.MysteryHeadingDiffersFromGenre | src/pages/Home.tsx:92 | the "Mystery & Thriller" section filters on the genre "Mystery" alone |
| HeroCarousel.JsRem | src/components/HeroCarousel.tsx:40 | JavaScript's remainder: Euclidean for non-negative operands, sign of the dividend otherwise |
| HeroCarousel.NextSteps | src/components/HeroCarousel.tsx:50-52 | "next" stays in range, moves forward by one and wraps from 3 to 0 |
| HeroCarousel.NextIndex | src/components/HeroCarousel.tsx:51 | from index -1 up the truncating remainder agrees with the mathematical one, and an index in range stays in range |
| HeroCarousel.PrevIndex | src/components/HeroCarousel.tsx:55 | from index -3 up it is the mathematical remainder of `i - 1`, and an index in range stays in range |
| HeroCarousel.PrevSteps | src/components/HeroCarousel.tsx:54-56 | "previous" stays in range, moves back by one and wraps from 0 to 3 |
| HeroCarousel.NextPrevInverse | src/components/HeroCarousel.tsx:50-56 | on a shown slide, "previous" undoes "next" and "next" undoes "previous" |
| HeroCarousel.NextFourTimes | src/components/HeroCarousel.tsx:39-41 | four timer ticks come back to the same slide |
| HeroCarousel.PrevFromBelowRangeStaysOut | src/components/HeroCarousel.tsx:55 | below the range the truncating remainder does not bring the index back |
| HeroCarousel.ActiveDots | src/components/HeroCarousel.tsx:64-65 | on a slide in range exactly one slide and dot is active; out of range none is |
| HeroCarousel.Carousel.constructor | src/components/HeroCarousel.tsx:9 | the carousel starts on slide 0 |
| HeroCarousel.Carousel.GoToSlide | src/components/HeroCarousel.tsx:46-48 | the current slide becomes the given index; an index 0 to 3, as the dots pass, keeps it in range |
| HeroCarousel.Carousel.NextSlide | src/components/HeroCarousel.tsx:50-52 | the current slide becomes the next index, staying in range |
| HeroCarousel.Carousel.PrevSlide | src/components/HeroCarousel.tsx:54-56 | the current slide becomes the previous index, staying in range |
| HeroCarousel.Carousel.Tick | src/components/HeroCarousel.tsx:38-41 | each timer firing has the same effect as "next" |
| BookDetail.Decremented | src/pages/BookDetail.tsx:157 | "-" never goes below 1 and otherwise steps down by one |
| BookDetail.Incremented | src/pages/BookDetail.tsx:164 | "+" never goes above the stock and otherwise steps up by one |
| BookDetail.QuantityStaysInStock | src/pages/BookDetail.tsx:157-164 | for a book in stock, any run of presses from 1 keeps the quantity between 1 and the stock |
| BookDetail.OutOfStockPlusGivesZero | src/pages/BookDetail.tsx:164-173 | for a book out of stock, "+" drops the quantity to 0 while "Add to Cart" is disabled |
| BookDetail.StockLabel | src/pages/BookDetail.tsx:150 | "Out of stock" when none is in stock, otherwise the stock written in decimal, without a leading zero, followed by " in stock" |
| BookDetail.AddDisabled | src/pages/BookDetail.tsx:173 | the button is disabled at zero stock, when the label reads "Out of stock" |
| BookDetail.StockLabelOutOfStock | src/pages/BookDetail.tsx:150 | the label says "Out of stock" exactly when the stock is not positive |
| BookDetail.AddToCart | src/pages/BookDetail.tsx:63-71 | without a user nothing is added and login is asked for; otherwise the book's id and the picked quantity are sent |
| BookDetail.AddedQuantityWithinStock | src/pages/BookDetail.tsx:63-71 | a signed-in user adding a book in stock asks for between 1 and stock copies |
| BookDetail.QuantityPicker.constructor | src/pages/BookDetail.tsx:29 | the picker starts at quantity 1 |
| BookDetail.QuantityPicker.Decrement | src/pages/BookDetail.tsx:157 | the quantity becomes `Decremented` of the old one and stays within stock |
| BookDetail.QuantityPicker.Increment | src/pages/BookDetail.tsx:164 | the quantity becomes `Incremented` of the old one and stays within stock |

## Left out

- Sign-up and token checking through the auth service are not modelled. The user id the token resolves to is a parameter.
- The key-value store's own implementation, the HTTP framework, CORS, logging and the `500` error replies on exceptions are not modelled. The store is the `kv` map field.
- The clock is not modelled. `Date.now()` and `new Date().toISOString()` are the `now` and `createdAt` parameters of `CreateOrder`.
- Concurrent requests are not modelled. Each method runs alone on the store.
- The network calls and toasts of `src/contexts/CartContext.tsx`, the loading states, and navigation are not modelled. The page models take the fetched data as arguments.
- The debounced search box of `src/pages/Search.tsx` is not modelled. It only forwards the query to the search route, which is modelled.
- Malformed JSON request bodies are not modelled; neither are values of the wrong JSON type. Quantities, prices and totals are integers.
- Prices, totals and ratings are not floating point. Ratings are tenths held as integers, so there is no rounding and no limit on integer size.
- `toLocaleString` price formatting and the images are view details and are not modelled.
- Text.LowerChar: lowers ASCII A-Z only. JavaScript's `toLowerCase` also maps non-ASCII upper-case letters.
- Text.Lower: lowers ASCII A-Z only, character by character through `Text.LowerChar`, with the same gap.
- AllProducts.LexCompare: compares titles by character code. It stands in for `localeCompare`, whose collation depends on the locale. The sort properties proved only need a total order.
- AllProducts.Sort: is an insertion sort whose stability is proved (`AllProducts.SortIsStable`). `Array.prototype.sort` is required to be stable, so for this total preorder the output is the same; the algorithm the engine uses is not modelled.
- Server.Store.CreateOrder: the order id is `order-` followed by the clock reading as a parameter. Two orders in the same millisecond would share an id; the model does not rule that out.
- Server.Store.CreateOrder: does not check the client's total against the items, just as the server does not. Agreement is proved for requests built by the cart page (`CartPage.CheckoutOrderIsConsistent`).
