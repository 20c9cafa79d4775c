/** The relations `Book.search` builds on top of the ranked base set: the title
    and author-name lookups, the fallback between them, the two format-type
    filters and the `title_only` projection. A relation is a sequence of books;
    a `where` clause chained onto a relation keeps its order. */
module Relation {
  import opened Sequences
  import opened BookStore
  import opened Rating
  import opened Options

  /** `t` contains `p` as a contiguous substring. */
  predicate Contains(t: string, p: string) {
    p <= t || (|t| > 0 && Contains(t[1..], p))
  }

  /** `Contains` means: `p` occurs in `t` at some offset. */
  lemma {:induction false} ContainsIffOccurs(t: string, p: string)
    ensures Contains(t, p) <==> exists i | 0 <= i <= |t| :: p <= t[i..]
  {
    if |t| > 0 {
      ContainsIffOccurs(t[1..], p);
      if Contains(t[1..], p) {
        var i :| 0 <= i <= |t[1..]| && p <= t[1..][i..];
        assert t[1..][i..] == t[i + 1..];
      }
      if i :| 0 <= i <= |t| && p <= t[i..] {
        if i > 0 {
          assert t[1..][i - 1..] == t[i..];
        }
      }
    }
    assert t[0..] == t;
  }

  /** The text the query puts between the `%` wildcards: Ruby interpolates `nil` as "". */
  function TitlePattern(query: Option<string>): string {
    match query
    case None => ""
    case Some(q) => q
  }

  predicate TitleMatches(query: Option<string>, b: Book) {
    Contains(b.title, TitlePattern(query))
  }

  /** `first_name = ? OR last_name = ?`; with a `nil` query SQL's `= NULL` never holds. */
  predicate AuthorMatches(query: Option<string>, b: Book) {
    query.Some? && (b.author.firstName == query.value || b.author.lastName == query.value)
  }

  /** `search_by_title`: the ranked books whose title contains the query. */
  function SearchByTitle(s: Store, query: Option<string>): (r: seq<Book>)
    ensures forall b | b in r :: b in BooksByRating(s) && TitleMatches(query, b)
    ensures forall b | b in BooksByRating(s) && TitleMatches(query, b) :: b in r
    ensures Subsequence(r, BooksByRating(s))
    ensures Ranked(s, r)
  {
    SubsequenceRanked(s, Filter(BooksByRating(s), b => TitleMatches(query, b)), BooksByRating(s));
    Filter(BooksByRating(s), b => TitleMatches(query, b))
  }

  /** An empty or absent query matches every title, so the title search is the whole ranked set. */
  lemma SearchByTitleEmptyQuery(s: Store, query: Option<string>)
    requires query == None || query == Some("")
    ensures SearchByTitle(s, query) == BooksByRating(s)
  {
    FilterKeepsAll(BooksByRating(s), b => TitleMatches(query, b));
  }

  /** `search_by_author_name`: the ranked books whose author's first or last name equals the query. */
  function SearchByAuthorName(s: Store, query: Option<string>): (r: seq<Book>)
    ensures forall b | b in r :: b in BooksByRating(s) && AuthorMatches(query, b)
    ensures forall b | b in BooksByRating(s) && AuthorMatches(query, b) :: b in r
    ensures Subsequence(r, BooksByRating(s))
    ensures Ranked(s, r)
  {
    SubsequenceRanked(s, Filter(BooksByRating(s), b => AuthorMatches(query, b)), BooksByRating(s));
    Filter(BooksByRating(s), b => AuthorMatches(query, b))
  }

  /** Some ranked book's title matches the query. */
  predicate AnyTitleMatch(s: Store, query: Option<string>) {
    exists b | b in BooksByRating(s) :: TitleMatches(query, b)
  }

  /** `query_lookup`: the title matches when there are any, otherwise the author
      matches; never a mix of the two. */
  function QueryLookup(s: Store, query: Option<string>): (r: seq<Book>)
    ensures AnyTitleMatch(s, query) ==> forall b :: b in r <==> b in BooksByRating(s) && TitleMatches(query, b)
    ensures !AnyTitleMatch(s, query) ==> forall b :: b in r <==> b in BooksByRating(s) && AuthorMatches(query, b)
    ensures Subsequence(r, BooksByRating(s))
    ensures Ranked(s, r)
  {
    var byTitle := SearchByTitle(s, query);
    assert |byTitle| > 0 <==> AnyTitleMatch(s, query) by {
      if |byTitle| > 0 {
        assert byTitle[0] in byTitle;
      }
    }
    if |byTitle| > 0 then byTitle else SearchByAuthorName(s, query)
  }

  /** With an empty or absent query the lookup returns the whole ranked set. */
  lemma QueryLookupEmptyQuery(s: Store, query: Option<string>)
    requires query == None || query == Some("")
    ensures QueryLookup(s, query) == BooksByRating(s)
  {
    SearchByTitleEmptyQuery(s, query);
    if |SearchByTitle(s, query)| == 0 {
      FilterKeepsNone(BooksByRating(s), b => AuthorMatches(query, b));
    }
  }

  /** The book is linked, through a `book_formats` row, to this format type. */
  predicate LinkedFormat(s: Store, b: Book, ft: BookFormatType) {
    ft in s.formatTypes && BookFormat(b.id, ft.id) in s.bookFormats
  }

  /** `BookFormatType.format(id)`: the format type's id equals the given id. */
  predicate FormatIdMatches(ft: BookFormatType, id: Value) {
    id == Int(ft.id)
  }

  /** `BookFormatType.physical(boolean)`: the format type's flag equals the given boolean. */
  predicate PhysicalMatches(ft: BookFormatType, physical: Value) {
    physical == Bool(ft.physical)
  }

  predicate HasFormatTypeId(s: Store, b: Book, id: Value) {
    exists ft | ft in s.formatTypes :: LinkedFormat(s, b, ft) && FormatIdMatches(ft, id)
  }

  predicate HasPhysicalFormat(s: Store, b: Book, physical: Value) {
    exists ft | ft in s.formatTypes :: LinkedFormat(s, b, ft) && PhysicalMatches(ft, physical)
  }

  /** `rel.book_format_type(id)`: the books of `rel` that have a format type with this id,
      in `rel`'s order. */
  function ByBookFormatType(s: Store, rel: seq<Book>, id: Value): (r: seq<Book>)
    ensures forall b | b in r :: b in rel && HasFormatTypeId(s, b, id)
    ensures forall b | b in rel && HasFormatTypeId(s, b, id) :: b in r
    ensures Subsequence(r, rel)
    ensures Ranked(s, rel) ==> Ranked(s, r)
  {
    var r := Filter(rel, b => HasFormatTypeId(s, b, id));
    if Ranked(s, rel) then SubsequenceRanked(s, r, rel); r else r
  }

  /** `rel.book_format_physical(boolean)`: the books of `rel` that have a format type
      whose `physical` flag is this value, in `rel`'s order. */
  function ByBookFormatPhysical(s: Store, rel: seq<Book>, physical: Value): (r: seq<Book>)
    ensures forall b | b in r :: b in rel && HasPhysicalFormat(s, b, physical)
    ensures forall b | b in rel && HasPhysicalFormat(s, b, physical) :: b in r
    ensures Subsequence(r, rel)
    ensures Ranked(s, rel) ==> Ranked(s, r)
  {
    var r := Filter(rel, b => HasPhysicalFormat(s, b, physical));
    if Ranked(s, rel) then SubsequenceRanked(s, r, rel); r else r
  }

  /** A physical filter given anything but a boolean (`nil` for a missing key) keeps nothing. */
  lemma ByBookFormatPhysicalNonBoolean(s: Store, rel: seq<Book>, physical: Value)
    requires !physical.Bool?
    ensures ByBookFormatPhysical(s, rel, physical) == []
  {
    FilterKeepsNone(rel, b => HasPhysicalFormat(s, b, physical));
  }

  /** `title_only` (`pluck(:title)`): the titles of the relation, one per book, in order. */
  function TitleOnly(rel: seq<Book>): (r: seq<string>)
    ensures |r| == |rel|
    ensures forall i | 0 <= i < |rel| :: r[i] == rel[i].title
  {
    if rel == [] then [] else [rel[0].title] + TitleOnly(rel[1..])
  }

  /** The projected titles are exactly the titles of the relation's books. */
  lemma TitleOnlyMembers(rel: seq<Book>)
    ensures forall t :: t in TitleOnly(rel) <==> exists b | b in rel :: b.title == t
  {
    var r := TitleOnly(rel);
    forall t | t in r ensures exists b | b in rel :: b.title == t {
      var i :| 0 <= i < |r| && r[i] == t;
      assert rel[i] in rel;
    }
    forall b | b in rel ensures b.title in r {
      var i :| 0 <= i < |rel| && rel[i] == b;
      assert r[i] == b.title;
    }
  }
}
