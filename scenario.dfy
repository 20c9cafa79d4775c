/** A small concrete catalog: two books that both average 4.5, one physical with
    format type 1 and one digital with format type 2, and a third book that nobody
    has reviewed. */
module Scenario {
  import opened Sequences
  import opened BookStore
  import opened Rating
  import opened Options
  import opened Relation
  import opened QueryPlanner

  const Writer := Author("Ann", "Lee")
  const BookA := Book(1, "Alpha", Writer)
  const BookB := Book(2, "Beta", Writer)
  const BookC := Book(3, "Gamma", Writer)

  const Catalog := Store(
    [BookA, BookB, BookC],
    [BookReview(1, 4), BookReview(2, 5), BookReview(1, 5), BookReview(2, 4)],
    [BookFormatType(1, true), BookFormatType(2, false)],
    [BookFormat(1, 1), BookFormat(2, 2), BookFormat(3, 1)])

  /** The ranked base set holds the two reviewed books, tied at 4.5, and not the unreviewed one. */
  lemma ScenarioRanking()
    ensures BookA in BooksByRating(Catalog) && BookB in BooksByRating(Catalog)
    ensures BookC !in BooksByRating(Catalog)
    ensures AverageRating(Catalog, BookA) == AverageRating(Catalog, BookB) == 4.5
  {
    var rs := Catalog.reviews;
    assert ReviewCount(rs, 1) == 2 && ReviewSum(rs, 1) == 9 by {
      assert rs[1..][1..][1..][1..] == [];
    }
    assert ReviewCount(rs, 2) == 2 && ReviewSum(rs, 2) == 9 by {
      assert rs[1..][1..][1..][1..] == [];
    }
    assert ReviewCount(rs, 3) == 0 by {
      assert rs[1..][1..][1..][1..] == [];
    }
  }

  /** The ranked base set holds nothing but the two reviewed books. */
  lemma ScenarioRankedMembers()
    ensures forall b | b in BooksByRating(Catalog) :: b == BookA || b == BookB
  {
    ScenarioRanking();
    forall b | b in BooksByRating(Catalog) ensures b == BookA || b == BookB {
      assert b in Catalog.books;
    }
  }

  lemma AlphaContainsA()
    ensures TitleMatches(Some("a"), BookA)
  {
    assert "a" <= "Alpha"[1..][1..][1..][1..];
  }

  /** A title contains "a", so looking up "a" finds that book, and only ranked books. */
  lemma ScenarioLookup()
    ensures BookA in QueryLookup(Catalog, Some("a"))
    ensures forall b | b in QueryLookup(Catalog, Some("a")) :: b == BookA || b == BookB
  {
    ScenarioRanking();
    ScenarioRankedMembers();
    AlphaContainsA();
    assert AnyTitleMatch(Catalog, Some("a"));
    SubsequenceMembers(QueryLookup(Catalog, Some("a")), BooksByRating(Catalog));
  }

  /** Of the two reviewed books only the first is linked to format type 1. */
  lemma ScenarioFormatTypes()
    ensures HasFormatTypeId(Catalog, BookA, Int(1))
    ensures !HasFormatTypeId(Catalog, BookB, Int(1))
  {
    assert LinkedFormat(Catalog, BookA, BookFormatType(1, true));
  }

  /** Filtering the lookup of "a" by format type 1 keeps the physical book only. */
  lemma ScenarioFormatTypeFilter()
    ensures var r := Search(Catalog, Some("a"), Some(map[BookFormatTypeIdKey := Int(1)]));
      r.Books? && forall b :: b in r.books <==> b == BookA
  {
    SearchFormatTypeIdOnly(Catalog, Some("a"), Int(1));
    ScenarioLookup();
    ScenarioFormatTypes();
  }
}
