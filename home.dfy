/** The six product sections of `src/pages/Home.tsx`: a filter of the catalog,
    of which the first four are shown. */
module Home {
  import opened Books
  import Seqs

  datatype Section = Featured | Bestsellers | Fiction | Fantasy | ScienceFiction | Mystery

  /** How many books a section shows (`.slice(0, 4)`). */
  const ShownPerSection := 4

  /** The section's heading. */
  function Heading(s: Section): string
  {
    match s
    case Featured => "Featured Books"
    case Bestsellers => "Bestsellers"
    case Fiction => "Fiction"
    case Fantasy => "Fantasy"
    case ScienceFiction => "Science Fiction"
    case Mystery => "Mystery & Thriller"
  }

  /** The genre a genre section filters on; the two other sections have none. */
  function SectionGenre(s: Section): string
    requires !s.Featured? && !s.Bestsellers?
  {
    match s
    case Fiction => "Fiction"
    case Fantasy => "Fantasy"
    case ScienceFiction => "Science Fiction"
    case Mystery => "Mystery"
  }

  /** The section's filter; ratings are in tenths, so 4.7 stars is 47. */
  predicate Belongs(s: Section, b: Book)
  {
    match s
    case Featured => b.rating >= 47
    case Bestsellers => b.reviews > 600
    case _ => b.genre == SectionGenre(s)
  }

  function BelongsTo(s: Section): Book -> bool
  {
    (b: Book) => Belongs(s, b)
  }

  /** `books.filter(...)` for the section. */
  function SectionBooks(s: Section, books: seq<Book>): (r: seq<Book>)
    ensures forall b :: b in r <==> b in books && Belongs(s, b)
    ensures forall b {:trigger multiset(r)[b]} :: b in books ==> multiset(r)[b] == if Belongs(s, b) then multiset(books)[b] else 0
  {
    Seqs.Filter(books, BelongsTo(s))
  }

  /** The books the section shows: the first four of its filter, all of them if fewer. */
  function Shown(s: Section, books: seq<Book>): (r: seq<Book>)
    ensures |r| <= ShownPerSection
    ensures forall b :: b in r ==> b in books && Belongs(s, b)
    ensures |r| < ShownPerSection ==> forall b :: b in books && Belongs(s, b) ==> b in r
  {
    var r := Seqs.Take(SectionBooks(s, books), ShownPerSection);
    assert forall b :: b in r ==> b in SectionBooks(s, books);
    r
  }

  /** A section shows a prefix of its filter, and the filter keeps catalog order. */
  lemma ShownIsPrefixOfFilter(s: Section, books: seq<Book>)
    ensures var r := Shown(s, books);
      && r == SectionBooks(s, books)[..|r|]
      && |r| == (if |SectionBooks(s, books)| < ShownPerSection then |SectionBooks(s, books)| else ShownPerSection)
      && Seqs.IsSubsequence(SectionBooks(s, books), books)
  {
    Seqs.FilterIsSubsequence(books, BelongsTo(s));
  }

  /** A genre section shows only books of exactly its genre. */
  lemma GenreSectionIsExact(s: Section, books: seq<Book>)
    requires !s.Featured? && !s.Bestsellers?
    ensures forall b :: b in Shown(s, books) ==> b.genre == SectionGenre(s)
  {
  }

  /** Mystery books appear under the heading "Mystery & Thriller", filtered on "Mystery" alone. */
  lemma MysteryHeadingDiffersFromGenre()
    ensures Heading(Mystery) != SectionGenre(Mystery)
    ensures forall b :: Belongs(Mystery, b) <==> b.genre == "Mystery"
  {
  }
}
