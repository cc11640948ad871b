/** The catalog half of the server (`src/supabase/functions/server/index.tsx`):
    the book record, the fixed seed list, `GET /books/:id` and `GET /search`. */
module Books {
  import opened Options
  import opened Text
  import Seqs

  /** A catalog record. `rating` is held in tenths (4.7 is 47): every seeded
      rating has one decimal place, so this is exact for the catalog. */
  datatype Book = Book(
    id: string,
    title: string,
    author: string,
    genre: string,
    price: int,
    description: string,
    image: string,
    stock: int,
    rating: int,
    reviews: int)

  /** The 22 records `GET /init-books` writes under `books`. */
  const SeedBooks: seq<Book> := [
      Book("1", "The Great Gatsby", "F. Scott Fitzgerald", "Fiction", 2500,
           "A classic novel set in the Jazz Age that explores themes of decadence, idealism, resistance to change, and excess. The story primarily concerns the young and mysterious millionaire Jay Gatsby and his quixotic passion for the beautiful Daisy Buchanan.",
           "https://images.unsplash.com/photo-1544947950-fa07a98d237f?w=400",
           15, 45, 328),
      Book("2", "To Kill a Mockingbird", "Harper Lee", "Fiction", 3000,
           "A gripping tale of racial inequality and childhood innocence. The unforgettable novel of a childhood in a sleepy Southern town and the crisis of conscience that rocked it.",
           "https://images.unsplash.com/photo-1512820790803-83ca734da794?w=400",
           20, 48, 456),
      Book("3", "The Lord of the Rings", "J.R.R. Tolkien", "Fantasy", 4500,
           "An epic high-fantasy novel that follows the hobbit Frodo Baggins as he and the Fellowship embark on a quest to destroy the One Ring and ensure the destruction of its maker, the Dark Lord Sauron.",
           "https://images.unsplash.com/photo-1621351183012-e2f9972dd9bf?w=400",
           12, 49, 892),
      Book("4", "1984", "George Orwell", "Science Fiction", 2800,
           "A dystopian social science fiction novel that follows the life of Winston Smith, a low-ranking member of \"the Party,\" who is frustrated by the omnipresent eyes of the party.",
           "https://images.unsplash.com/photo-1495446815901-a7297e633e8d?w=400",
           18, 47, 672),
      Book("5", "Pride and Prejudice", "Jane Austen", "Romance", 2200,
           "A romantic novel of manners that follows the character development of Elizabeth Bennet, the protagonist of the book, who learns about the repercussions of hasty judgments.",
           "https://images.unsplash.com/photo-1543002588-bfa74002ed7e?w=400",
           25, 46, 534),
      Book("6", "The Hobbit", "J.R.R. Tolkien", "Fantasy", 3200,
           "A fantasy novel that follows the quest of home-loving Bilbo Baggins, the hobbit, to win a share of the treasure guarded by Smaug the dragon.",
           "https://images.unsplash.com/photo-1589998059171-988d887df646?w=400",
           22, 48, 721),
      Book("7", "Harry Potter and the Sorcerer's Stone", "J.K. Rowling", "Fantasy", 3500,
           "The first novel in the Harry Potter series follows Harry Potter, a young wizard who discovers his magical heritage on his eleventh birthday.",
           "https://images.unsplash.com/photo-1551029506-0807df4e2031?w=400",
           30, 49, 1024),
      Book("8", "The Catcher in the Rye", "J.D. Salinger", "Fiction", 2400,
           "A story about a few days in the life of a troubled teenager, Holden Caulfield, who has been expelled from prep school and is wandering around New York City.",
           "https://images.unsplash.com/photo-1524995997946-a1c2e315a42f?w=400",
           16, 43, 389),
      Book("9", "The Chronicles of Narnia", "C.S. Lewis", "Fantasy", 4000,
           "A series of seven fantasy novels that narrate the history of the magical land of Narnia and the adventures of various children who play central roles.",
           "https://images.unsplash.com/photo-1481627834876-b7833e8f5570?w=400",
           14, 47, 645),
      Book("10", "Brave New World", "Aldous Huxley", "Science Fiction", 2600,
           "A dystopian novel set in a futuristic World State, whose citizens are environmentally engineered into an intelligence-based social hierarchy.",
           "https://images.unsplash.com/photo-1497633762265-9d179a990aa6?w=400",
           19, 44, 412),
      Book("11", "The Alchemist", "Paulo Coelho", "Fiction", 1500,
           "A philosophical book that tells the story of Santiago, an Andalusian shepherd boy who yearns to travel in search of a worldly treasure.",
           "https://images.unsplash.com/photo-1519682337058-a94d519337bc?w=400",
           28, 46, 567),
      Book("12", "Dune", "Frank Herbert", "Science Fiction", 3800,
           "A science fiction novel set in the distant future amidst a huge interstellar empire, telling the story of young Paul Atreides.",
           "https://images.unsplash.com/photo-1553729459-efe14ef6055d?w=400",
           17, 48, 789),
      Book("13", "The Book Thief", "Markus Zusak", "Historical Fiction", 3100,
           "Set in Nazi Germany, it tells the story of Liesel Meminger, a young girl living with her foster family who steals books to share with others.",
           "https://images.unsplash.com/photo-1474932430478-367dbb6832c1?w=400",
           21, 47, 623),
      Book("14", "The Hunger Games", "Suzanne Collins", "Science Fiction", 2900,
           "A dystopian novel about a young girl who volunteers to participate in a televised death match in order to save her sister.",
           "https://images.unsplash.com/photo-1512820790803-83ca734da794?w=400",
           24, 45, 891),
      Book("15", "The Fault in Our Stars", "John Green", "Romance", 2300,
           "A touching story about two teenage cancer patients who fall in love after meeting at a support group.",
           "https://images.unsplash.com/photo-1509021436665-8f07dbf5bf1d?w=400",
           26, 44, 734),
      Book("16", "The Da Vinci Code", "Dan Brown", "Mystery", 3300,
           "A mystery thriller novel that follows symbologist Robert Langdon as he investigates a murder in the Louvre Museum.",
           "https://images.unsplash.com/photo-1526243741027-444d633d7365?w=400",
           20, 42, 512),
      Book("17", "The Girl with the Dragon Tattoo", "Stieg Larsson", "Mystery", 3400,
           "A psychological thriller about a journalist and a computer hacker who investigate a 40-year-old disappearance.",
           "https://images.unsplash.com/photo-1485322551133-3a4c27a9d925?w=400",
           18, 45, 678),
      Book("18", "The Kite Runner", "Khaled Hosseini", "Historical Fiction", 2700,
           "A powerful story of friendship set against the backdrop of tumultuous events in Afghanistan.",
           "https://images.unsplash.com/photo-1512820790803-83ca734da794?w=400",
           23, 46, 589),
      Book("19", "The Help", "Kathryn Stockett", "Historical Fiction", 2800,
           "Set in Mississippi during the 1960s, the story follows three women who dare to cross boundaries.",
           "https://images.unsplash.com/photo-1544947950-fa07a98d237f?w=400",
           19, 47, 612),
      Book("20", "Gone Girl", "Gillian Flynn", "Mystery", 3200,
           "A psychological thriller about a woman who goes missing on her fifth wedding anniversary.",
           "https://images.unsplash.com/photo-1543002588-bfa74002ed7e?w=400",
           22, 43, 701),
      Book("21", "The Handmaid's Tale", "Margaret Atwood", "Science Fiction", 2900,
           "A dystopian novel set in a totalitarian society where women have been stripped of all their rights.",
           "https://images.unsplash.com/photo-1512820790803-83ca734da794?w=400",
           17, 46, 534),
      Book("22", "The Road", "Cormac McCarthy", "Science Fiction", 2500,
           "A post-apocalyptic novel following a father and son as they journey through a devastated landscape.",
           "https://images.unsplash.com/photo-1518051870910-a46e30d9db16?w=400",
           15, 44, 445)
    ]

  /** The seeded ids, in catalog order. */
  const SeedIdOrder: seq<string> := ["1", "2", "3", "4", "5", "6", "7", "8", "9", "10", "11", "12",
    "13", "14", "15", "16", "17", "18", "19", "20", "21", "22"]

  /** The seed holds 22 books, carrying the ids "1" to "22" in order. */
  lemma SeedIdsInOrder()
    ensures |SeedBooks| == 22
    ensures forall i :: 0 <= i < 22 ==> SeedBooks[i].id == SeedIdOrder[i]
  {
  }

  /** No two seeded books share an id. */
  lemma SeedIdsUnique()
    ensures forall i, j :: 0 <= i < j < |SeedBooks| ==> SeedBooks[i].id != SeedBooks[j].id
  {
    SeedIdsInOrder();
    SeedIdOrderDistinct();
  }

  lemma SeedIdOrderDistinct()
    ensures forall i, j :: 0 <= i < j < |SeedIdOrder| ==> SeedIdOrder[i] != SeedIdOrder[j]
  {
  }

  /** `i` is the first position of `books` holding `id`. */
  ghost predicate IsFirstWithId(books: seq<Book>, id: string, i: int)
  {
    0 <= i < |books| && books[i].id == id && forall k :: 0 <= k < i ==> books[k].id != id
  }

  /** `books.find(b => b.id === id)`; `None` is the "Book not found" reply. */
  function FindBook(books: seq<Book>, id: string): (r: Option<Book>)
    ensures r.None? <==> forall k :: 0 <= k < |books| ==> books[k].id != id
    ensures r.Some? ==> exists i :: IsFirstWithId(books, id, i) && books[i] == r.value
  {
    if books == [] then None
    else if books[0].id == id then
      assert IsFirstWithId(books, id, 0);
      Some(books[0])
    else
      var r := FindBook(books[1..], id);
      assert forall i :: IsFirstWithId(books[1..], id, i) ==> IsFirstWithId(books, id, i + 1);
      assert forall k :: 1 <= k < |books| ==> books[k] == books[1..][k - 1];
      r
  }

  /** In a catalog whose ids are distinct, looking up a record's id finds that record. */
  lemma {:induction false} FindBookDistinct(books: seq<Book>, k: nat)
    requires k < |books|
    requires forall i, j :: 0 <= i < j < |books| ==> books[i].id != books[j].id
    ensures FindBook(books, books[k].id) == Some(books[k])
  {
    if k > 0 {
      assert books[0].id != books[k].id;
      assert books[1..][k - 1] == books[k];
      FindBookDistinct(books[1..], k - 1);
    }
  }

  /** Looking up a seeded id finds exactly that record. */
  lemma SeedLookup(k: nat)
    requires k < 22
    ensures FindBook(SeedBooks, SeedIdOrder[k]) == Some(SeedBooks[k])
  {
    SeedIdsInOrder();
    SeedIdsUnique();
    FindBookDistinct(SeedBooks, k);
  }

  /** The search text: `c.req.query('q')?.toLowerCase() || ''`. */
  function SearchQuery(q: Option<string>): (r: string)
    ensures q.None? ==> r == ""
    ensures q.Some? ==> r == Lower(q.value)
  {
    match q
    case None => ""
    case Some(s) => Lower(s)
  }

  /** A lower-cased query matches a book whose lower-cased title, author or genre contains it. */
  predicate Matches(b: Book, query: string)
  {
    Includes(Lower(b.title), query) || Includes(Lower(b.author), query) || Includes(Lower(b.genre), query)
  }

  /** `GET /search?q=`: the books that match, in catalog order. */
  function Search(books: seq<Book>, q: Option<string>): (r: seq<Book>)
    ensures forall b :: b in r ==> b in books && Matches(b, SearchQuery(q))
    ensures forall b :: b in books && Matches(b, SearchQuery(q)) ==> b in r
    ensures forall b {:trigger multiset(r)[b]} :: b in books ==> multiset(r)[b] == if Matches(b, SearchQuery(q)) then multiset(books)[b] else 0
  {
    var query := SearchQuery(q);
    Seqs.Filter(books, b => Matches(b, query))
  }

  /** Search results keep catalog order. */
  lemma SearchKeepsOrder(books: seq<Book>, q: Option<string>)
    ensures Seqs.IsSubsequence(Search(books, q), books)
  {
    var query := SearchQuery(q);
    Seqs.FilterIsSubsequence(books, b => Matches(b, query));
  }

  /** A missing or empty query returns the whole catalog. */
  lemma SearchEmptyQuery(books: seq<Book>, q: Option<string>)
    requires q.None? || q.value == ""
    ensures Search(books, q) == books
  {
    var query := SearchQuery(q);
    assert query == "";
    forall b | b in books ensures Matches(b, query) {
      IncludesEmpty(Lower(b.title));
    }
    Seqs.FilterKeepsAll(books, b => Matches(b, query));
  }

  /** Search ignores the case of the query. */
  lemma SearchIgnoresQueryCase(books: seq<Book>, q: string)
    ensures Search(books, Some(q)) == Search(books, Some(Lower(q)))
  {
    LowerIdempotent(q);
  }

  /** A book is found by its own title, whatever the case of the query. */
  lemma SearchFindsTitle(books: seq<Book>, b: Book)
    requires b in books
    ensures b in Search(books, Some(b.title))
  {
    IncludesSelf(Lower(b.title));
  }
}
