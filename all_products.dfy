/** `filterAndSortBooks` and the genre list of `src/pages/AllProducts.tsx`. */
module AllProducts {
  import opened Books
  import Seqs

  /** The genre choice that keeps every book. */
  const AllGenres := "All"

  function OfGenre(genre: string): Book -> bool
  {
    (b: Book) => b.genre == genre
  }

  /** The genre step: every book for "All", else the books of exactly that genre. */
  function GenreFilter(books: seq<Book>, selectedGenre: string): (r: seq<Book>)
    ensures selectedGenre == AllGenres ==> r == books
    ensures selectedGenre != AllGenres ==> forall b :: b in r ==> b in books && b.genre == selectedGenre
    ensures selectedGenre != AllGenres ==> forall b :: b in books && b.genre == selectedGenre ==> b in r
    ensures selectedGenre != AllGenres ==> forall b {:trigger multiset(r)[b]} :: b in books ==>
      multiset(r)[b] == if b.genre == selectedGenre then multiset(books)[b] else 0
  {
    if selectedGenre != AllGenres then Seqs.Filter(books, OfGenre(selectedGenre)) else books
  }

  /** The genre step keeps catalog order. */
  lemma GenreFilterKeepsOrder(books: seq<Book>, selectedGenre: string)
    ensures Seqs.IsSubsequence(GenreFilter(books, selectedGenre), books)
  {
    if selectedGenre != AllGenres {
      Seqs.FilterIsSubsequence(books, OfGenre(selectedGenre));
    } else {
      Seqs.FilterKeepsAll(books, (b: Book) => true);
      Seqs.FilterIsSubsequence(books, (b: Book) => true);
    }
  }

  /** `a.localeCompare(b)`, modelled as code-unit lexicographic order. */
  function LexCompare(a: string, b: string): (r: int)
    ensures -1 <= r <= 1
    ensures r == 0 <==> a == b
  {
    if a == [] && b == [] then 0
    else if a == [] then -1
    else if b == [] then 1
    else if a[0] < b[0] then -1
    else if a[0] > b[0] then 1
    else
      var r := LexCompare(a[1..], b[1..]);
      assert a == [a[0]] + a[1..] && b == [b[0]] + b[1..];
      r
  }

  lemma {:induction false} LexCompareFlip(a: string, b: string)
    ensures LexCompare(a, b) == -LexCompare(b, a)
  {
    if a != [] && b != [] && a[0] == b[0] {
      LexCompareFlip(a[1..], b[1..]);
    }
  }

  lemma {:induction false} LexCompareTransitive(a: string, b: string, c: string)
    requires LexCompare(a, b) <= 0 && LexCompare(b, c) <= 0
    ensures LexCompare(a, c) <= 0
  {
    if a != [] && b != [] && c != [] && a[0] == b[0] && b[0] == c[0] {
      LexCompareTransitive(a[1..], b[1..], c[1..]);
    }
  }

  /** The comparator of the `sortBy` switch; an unknown key compares everything as equal. */
  function Compare(sortBy: string, a: Book, b: Book): (r: int)
    ensures sortBy == "title" ==> (r == 0 <==> a.title == b.title)
    ensures sortBy == "price-low" ==> (r <= 0 <==> a.price <= b.price)
    ensures sortBy == "price-high" ==> (r <= 0 <==> a.price >= b.price)
    ensures sortBy == "rating" ==> (r <= 0 <==> a.rating >= b.rating)
    ensures sortBy !in {"title", "price-low", "price-high", "rating"} ==> r == 0
  {
    if sortBy == "title" then LexCompare(a.title, b.title)
    else if sortBy == "price-low" then a.price - b.price
    else if sortBy == "price-high" then b.price - a.price
    else if sortBy == "rating" then b.rating - a.rating
    else 0
  }

  /** `a` may stay before `b`. */
  predicate InOrder(sortBy: string, a: Book, b: Book)
  {
    Compare(sortBy, a, b) <= 0
  }

  lemma CompareTotal(sortBy: string, a: Book, b: Book)
    ensures InOrder(sortBy, a, b) || InOrder(sortBy, b, a)
  {
    LexCompareFlip(a.title, b.title);
  }

  lemma CompareTransitive(sortBy: string, a: Book, b: Book, c: Book)
    requires InOrder(sortBy, a, b) && InOrder(sortBy, b, c)
    ensures InOrder(sortBy, a, c)
  {
    if sortBy == "title" {
      LexCompareTransitive(a.title, b.title, c.title);
    }
  }

  ghost predicate Sorted(sortBy: string, s: seq<Book>)
  {
    forall i, j :: 0 <= i < j < |s| ==> InOrder(sortBy, s[i], s[j])
  }

  /** Put `x` before the first element it may precede. */
  function Insert(sortBy: string, x: Book, s: seq<Book>): (r: seq<Book>)
    ensures multiset(r) == multiset(s) + multiset{x}
  {
    if s == [] then [x]
    else if InOrder(sortBy, x, s[0]) then [x] + s
    else
      assert s == [s[0]] + s[1..];
      [s[0]] + Insert(sortBy, x, s[1..])
  }

  /** A stable sort (JavaScript's `Array.prototype.sort`), as insertion sort. */
  function Sort(sortBy: string, s: seq<Book>): (r: seq<Book>)
    ensures multiset(r) == multiset(s)
  {
    if s == [] then []
    else
      assert s == [s[0]] + s[1..];
      Insert(sortBy, s[0], Sort(sortBy, s[1..]))
  }

  /** A lower bound of `x` and of every element of `s` is a lower bound of the insertion. */
  lemma InsertLowerBound(sortBy: string, y: Book, x: Book, s: seq<Book>)
    requires InOrder(sortBy, y, x)
    requires forall k :: 0 <= k < |s| ==> InOrder(sortBy, y, s[k])
    ensures forall k :: 0 <= k < |Insert(sortBy, x, s)| ==> InOrder(sortBy, y, Insert(sortBy, x, s)[k])
  {
    var t := Insert(sortBy, x, s);
    forall k | 0 <= k < |t| ensures InOrder(sortBy, y, t[k]) {
      assert t[k] in multiset(t);
      if t[k] != x {
        assert t[k] in multiset(s);
        var j :| 0 <= j < |s| && s[j] == t[k];
      }
    }
  }

  lemma {:induction false} InsertSorted(sortBy: string, x: Book, s: seq<Book>)
    requires Sorted(sortBy, s)
    ensures Sorted(sortBy, Insert(sortBy, x, s))
  {
    if s == [] {
    } else if InOrder(sortBy, x, s[0]) {
      forall j | 0 < j < |s| ensures InOrder(sortBy, x, s[j]) {
        CompareTransitive(sortBy, x, s[0], s[j]);
      }
    } else {
      CompareTotal(sortBy, x, s[0]);
      var tail := s[1..];
      assert Sorted(sortBy, tail);
      InsertSorted(sortBy, x, tail);
      InsertLowerBound(sortBy, s[0], x, tail);
      var t := Insert(sortBy, x, tail);
      var r := [s[0]] + t;
      assert Insert(sortBy, x, s) == r;
      forall i, j | 0 <= i < j < |r| ensures InOrder(sortBy, r[i], r[j]) {
        if i > 0 {
          assert r[i] == t[i - 1] && r[j] == t[j - 1];
        }
      }
    }
  }

  /** The sort's output is ordered by the comparator. */
  lemma {:induction false} SortSorted(sortBy: string, s: seq<Book>)
    ensures Sorted(sortBy, Sort(sortBy, s))
  {
    if s != [] {
      SortSorted(sortBy, s[1..]);
      InsertSorted(sortBy, s[0], Sort(sortBy, s[1..]));
    }
  }

  /** `a` and `b` tie under the comparator: the sort may not reorder them. */
  predicate Ties(sortBy: string, a: Book, b: Book)
  {
    Compare(sortBy, a, b) == 0
  }

  function TiesWith(sortBy: string, k: Book): Book -> bool
  {
    (b: Book) => Ties(sortBy, k, b)
  }

  /** Two books that tie with the same book may stay in either order. */
  lemma TiesInOrder(sortBy: string, k: Book, x: Book, e: Book)
    requires Ties(sortBy, k, x) && Ties(sortBy, k, e)
    ensures InOrder(sortBy, x, e)
  {
  }

  /** Books of a group `p` whose members may stay in any order: `Insert` puts `x`
      before every member of the group, so the group keeps its order, `x` first
      among them if it belongs to it. */
  lemma {:induction false} InsertKeepsGroup(sortBy: string, p: Book -> bool, x: Book, t: seq<Book>)
    requires forall a, b :: p(a) && p(b) ==> InOrder(sortBy, a, b)
    ensures Seqs.Filter(Insert(sortBy, x, t), p) == (if p(x) then [x] else []) + Seqs.Filter(t, p)
  {
    if t == [] {
      assert Insert(sortBy, x, t) == [x] + [];
      Seqs.FilterCons(x, [], p);
    } else if InOrder(sortBy, x, t[0]) {
      assert Insert(sortBy, x, t) == [x] + t;
      Seqs.FilterCons(x, t, p);
    } else {
      var tail := t[1..];
      assert t == [t[0]] + tail;
      var rest := Insert(sortBy, x, tail);
      assert Insert(sortBy, x, t) == [t[0]] + rest;
      if p(x) {
        assert !p(t[0]);
      }
      InsertKeepsGroup(sortBy, p, x, tail);
      Seqs.FilterCons(t[0], rest, p);
      Seqs.FilterCons(t[0], tail, p);
    }
  }

  /** The sort keeps the input order within such a group. */
  lemma {:induction false} SortKeepsGroup(sortBy: string, p: Book -> bool, s: seq<Book>)
    requires forall a, b :: p(a) && p(b) ==> InOrder(sortBy, a, b)
    ensures Seqs.Filter(Sort(sortBy, s), p) == Seqs.Filter(s, p)
  {
    if s != [] {
      SortKeepsGroup(sortBy, p, s[1..]);
      InsertKeepsGroup(sortBy, p, s[0], Sort(sortBy, s[1..]));
      assert s == [s[0]] + s[1..];
      Seqs.FilterCons(s[0], s[1..], p);
    }
  }

  /** Stability: the books that tie with any `k` come out in their input order. */
  lemma SortIsStable(sortBy: string, k: Book, s: seq<Book>)
    ensures Seqs.Filter(Sort(sortBy, s), TiesWith(sortBy, k)) == Seqs.Filter(s, TiesWith(sortBy, k))
  {
    var p := TiesWith(sortBy, k);
    forall a, b | p(a) && p(b) ensures InOrder(sortBy, a, b) {
      TiesInOrder(sortBy, k, a, b);
    }
    SortKeepsGroup(sortBy, p, s);
  }

  /** Stability: input that is already in order comes out unchanged. */
  lemma {:induction false} SortKeepsSortedInput(sortBy: string, s: seq<Book>)
    requires Sorted(sortBy, s)
    ensures Sort(sortBy, s) == s
  {
    if s != [] {
      assert Sorted(sortBy, s[1..]);
      SortKeepsSortedInput(sortBy, s[1..]);
      assert s == [s[0]] + s[1..];
    }
  }

  /** `filterAndSortBooks`: the genre step, then a sort of a copy. */
  function FilterAndSortBooks(books: seq<Book>, selectedGenre: string, sortBy: string): (r: seq<Book>)
    ensures multiset(r) == multiset(GenreFilter(books, selectedGenre))
    ensures Sorted(sortBy, r)
  {
    SortSorted(sortBy, GenreFilter(books, selectedGenre));
    Sort(sortBy, GenreFilter(books, selectedGenre))
  }

  /** "Showing N books": the count shown is the number of books that passed the genre step. */
  lemma ShowingCount(books: seq<Book>, selectedGenre: string, sortBy: string)
    ensures |FilterAndSortBooks(books, selectedGenre, sortBy)| == |GenreFilter(books, selectedGenre)|
  {
    var r := FilterAndSortBooks(books, selectedGenre, sortBy);
    assert |multiset(r)| == |multiset(GenreFilter(books, selectedGenre))|;
  }

  /** 'price-low' lists prices from low to high. */
  lemma PriceLowAscending(books: seq<Book>, selectedGenre: string)
    ensures var r := FilterAndSortBooks(books, selectedGenre, "price-low");
      forall i, j :: 0 <= i < j < |r| ==> r[i].price <= r[j].price
  {
    var r := FilterAndSortBooks(books, selectedGenre, "price-low");
    assert forall i, j :: 0 <= i < j < |r| ==> InOrder("price-low", r[i], r[j]);
  }

  /** 'price-high' lists prices from high to low. */
  lemma PriceHighDescending(books: seq<Book>, selectedGenre: string)
    ensures var r := FilterAndSortBooks(books, selectedGenre, "price-high");
      forall i, j :: 0 <= i < j < |r| ==> r[i].price >= r[j].price
  {
    var r := FilterAndSortBooks(books, selectedGenre, "price-high");
    assert forall i, j :: 0 <= i < j < |r| ==> InOrder("price-high", r[i], r[j]);
  }

  /** 'rating' lists ratings from high to low. */
  lemma RatingDescending(books: seq<Book>, selectedGenre: string)
    ensures var r := FilterAndSortBooks(books, selectedGenre, "rating");
      forall i, j :: 0 <= i < j < |r| ==> r[i].rating >= r[j].rating
  {
    var r := FilterAndSortBooks(books, selectedGenre, "rating");
    assert forall i, j :: 0 <= i < j < |r| ==> InOrder("rating", r[i], r[j]);
  }

  /** An unrecognised sort key keeps the filtered order. */
  lemma UnknownSortKeepsOrder(books: seq<Book>, selectedGenre: string, sortBy: string)
    requires sortBy !in {"title", "price-low", "price-high", "rating"}
    ensures FilterAndSortBooks(books, selectedGenre, sortBy) == GenreFilter(books, selectedGenre)
  {
    SortKeepsSortedInput(sortBy, GenreFilter(books, selectedGenre));
  }

  /** `books.map(book => book.genre)`. */
  function GenresOf(books: seq<Book>): (r: seq<string>)
    ensures |r| == |books| && forall i :: 0 <= i < |books| ==> r[i] == books[i].genre
  {
    if books == [] then [] else [books[0].genre] + GenresOf(books[1..])
  }

  /** `['All', ...Array.from(new Set(books.map(book => book.genre)))]`. */
  function Genres(books: seq<Book>): (r: seq<string>)
    ensures |r| >= 1 && r[0] == AllGenres
    ensures forall b :: b in books ==> b.genre in r
  {
    [AllGenres] + Seqs.Distinct(GenresOf(books))
  }

  /** After "All", the genre list holds exactly the catalog's genres. */
  lemma GenresCoverCatalog(books: seq<Book>)
    ensures var r := Genres(books);
      && (forall g :: g in r[1..] ==> exists b :: b in books && b.genre == g)
      && (forall b :: b in books ==> b.genre in r[1..])
  {
    var gs := GenresOf(books);
    var d := Seqs.Distinct(gs);
    assert Genres(books)[1..] == d;
    forall g | g in d ensures exists b :: b in books && b.genre == g {
      var k :| 0 <= k < |gs| && gs[k] == g;
      assert books[k] in books;
    }
    forall b | b in books ensures b.genre in d {
      var k :| 0 <= k < |books| && books[k] == b;
      assert gs[k] == b.genre;
    }
  }

  /** After "All", each genre appears once, in order of first appearance in the catalog. */
  lemma GenresDistinctInOrder(books: seq<Book>)
    ensures var r := Genres(books);
      && (forall i, j :: 1 <= i < j < |r| ==> r[i] != r[j])
      && (forall i, j :: 1 <= i < j < |r| ==>
            Seqs.IndexOf(GenresOf(books), r[i]) < Seqs.IndexOf(GenresOf(books), r[j]))
  {
    var gs := GenresOf(books);
    var d := Seqs.Distinct(gs);
    var r := Genres(books);
    assert r == [AllGenres] + d;
    assert forall i :: 1 <= i < |r| ==> r[i] == d[i - 1];
    Seqs.DistinctFirstOccurrenceOrder(gs);
  }

  /** The genre list is "All", then each catalog genre once, in order of first appearance. */
  lemma GenresSpec(books: seq<Book>)
    ensures var r := Genres(books);
      && r[0] == AllGenres
      && (forall g :: g in r[1..] ==> exists b :: b in books && b.genre == g)
      && (forall b :: b in books ==> b.genre in r[1..])
      && (forall i, j :: 1 <= i < j < |r| ==> r[i] != r[j])
      && (forall i, j :: 1 <= i < j < |r| ==>
            Seqs.IndexOf(GenresOf(books), r[i]) < Seqs.IndexOf(GenresOf(books), r[j]))
  {
    GenresCoverCatalog(books);
    GenresDistinctInOrder(books);
  }
}
