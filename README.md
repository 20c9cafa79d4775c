# Book search and ranking, modelled in Dafny

This project models `Book.search` in `app/models/book.rb` and the helpers it
calls. It covers the ranked base set `books_by_rating`, the title search with
its author-name fallback, the two format-type filters, the `title_only`
projection, and the dispatch on the options hash. The relational store is an
in-memory value. Each table is a sequence of rows, and each ActiveRecord
relation is a sequence of books.

- `sequences.dfy` (module `Sequences`): order-preserving `Filter` and the
  `Subsequence` relation. Every `where` clause chained onto a relation is a
  `Filter`.
- `store.dfy` (module `BookStore`): books with their author's first and last
  name, reviews with integer ratings, format types with an id and a `physical`
  flag, and the `book_formats` join rows.
- `rating.dfy` (module `Rating`): review counts and sums, and the exact
  average. Averages are compared by cross-multiplication,
  `sumA * countB >= sumB * countA`. The module also holds the ranked base set
  `BooksByRating`: the books with at least one review, one row per book, sorted
  by average rating descending. Books with equal averages keep store order.
- `options.dfy` (module `Options`): the options hash is a `map<Key, Value>`
  over Ruby values, with Ruby truthiness (`nil` and `false` are falsy). A
  key's absence reads as `nil`. Every key counts towards the hash's size.
- `relation.dfy` (module `Relation`): `SearchByTitle`, `SearchByAuthorName`,
  `QueryLookup`, `ByBookFormatType`, `ByBookFormatPhysical` and `TitleOnly`.
- `search.dfy` (module `QueryPlanner`): `Search`, `SingleOptionSearchFilter` and
  `TwoOptionsSearchFilter`. The result is a relation (`Books`), a list of
  plucked titles (`Titles`), or `nil` (`NoResult`).
- `scenario.dfy` (module `Scenario`): a small concrete catalog. Two books are
  tied at 4.5 and a third has no reviews.

A `nil` query is modelled as Ruby evaluates it. The title search interpolates
it as the empty string, so the pattern is `"%%"` and every title matches. The
author search compares names with SQL `= NULL`, which never holds.

In these places the model follows the code as written:

- The two-key test is `options.length == 2` over all keys, recognised or not.
  An unrecognised key paired with `title_only` therefore takes the two-option
  path (`SearchUnrecognisedKeyCounts`).
- The guards test truthiness, not presence. A key holding `false` or `nil`
  takes the same branch as a missing key.
- A present but empty hash reaches the single-option filter. Its physical
  fallback then runs with `nil`. With that scope modelled as equality on the
  flag, `nil` matches no format type, so the result is an empty relation
  (`SearchEmptyOptions`).
- When both `book_format_type_id` and `book_format_physical` are truthy, the
  two-option filter returns `nil` (`NoResult`). It never consults the value of
  `title_only` (`TwoOptionsIgnoresTitleOnly`).

## Model

| member | source | states |
|---|---|---|
| `Rating.ReviewCount` | app/models/book.rb:68 | the count never exceeds the number of reviews, and is positive exactly when some review belongs to the book (the inner join keeps the book) |
| `Rating.AverageRating` | app/models/book.rb:19-21 | for a reviewed book, the average times the review count equals the rating sum |
| `Rating.RatedAtLeastIffAverage` | app/models/book.rb:13 | the integer cross-multiplied comparison agrees exactly with comparing the averages |
| `Rating.RatedAtLeastTotal` | app/models/book.rb:13 | the comparison is reflexive, and any two books are comparable |
| `Rating.RatedAtLeastTransitive` | app/models/book.rb:13 | the comparison is transitive whenever the middle book has a review |
| `Rating.SortByRating` | app/models/book.rb:13 | the result is a permutation of its input: same books, same multiplicities |
| `Rating.SortByRatingRanked` | app/models/book.rb:13 | sorting reviewed books ranks them by average rating descending |
| `Rating.SortByRatingDistinctIds` | app/models/book.rb:12-13 | sorting keeps one row per book |
| `Rating.BooksByRating` | app/models/book.rb:66-70 | holds exactly the store's books that have at least one review; is ranked by average descending; repeats no id when `books.id` is a key |
| `Rating.RankedPairwise` | app/models/book.rb:13 | in a ranked relation every book's average is at least that of each later book, adjacent pairs included |
| `Rating.SubsequenceRanked` | app/models/book.rb:58-64 | a relation that keeps the order of a ranked relation is itself ranked |
| `Rating.SubsequenceUniqueIds` | app/models/book.rb:12-13 | a relation drawn in order from one with one row per book also has one row per book |
| `Relation.ContainsIffOccurs` | app/models/book.rb:59 | the title test holds exactly when the query occurs in the title at some offset |
| `Relation.SearchByTitle` | app/models/book.rb:58-60 | keeps a ranked book exactly when its title contains the query; is a ranked subsequence of the ranked set |
| `Relation.SearchByTitleEmptyQuery` | app/models/book.rb:59 | an empty or `nil` query keeps the whole ranked set |
| `Relation.SearchByAuthorName` | app/models/book.rb:62-64 | keeps a ranked book exactly when the author's first or last name equals the query; a `nil` query keeps none; the result is a ranked subsequence of the ranked set |
| `Relation.QueryLookup` | app/models/book.rb:54-56 | the title matches when any ranked title matches, otherwise exactly the author matches, never a union; a ranked subsequence of the ranked set |
| `Relation.QueryLookupEmptyQuery` | app/models/book.rb:54-60 | an empty or `nil` query looks up the whole ranked set |
| `Relation.ByBookFormatType` | app/models/book.rb:72-77 | keeps a book of the relation exactly when it is linked to a format type with the given id; keeps the relation's order and ranking |
| `Relation.ByBookFormatPhysical` | app/models/book.rb:79-84 | keeps a book of the relation exactly when it is linked to a format type whose `physical` flag is the given boolean; keeps order and ranking |
| `Relation.ByBookFormatPhysicalNonBoolean` | app/models/book.rb:79-84 | a physical filter given `nil` or any other non-boolean keeps nothing |
| `Relation.TitleOnly` | app/models/book.rb:11 | one title per book, same length, same order |
| `Relation.TitleOnlyMembers` | app/models/book.rb:11 | the projected titles are exactly the titles of the relation's books |
| `QueryPlanner.SingleOptionSearchFilter` | app/models/book.rb:36-44 | never `nil`; titles exactly when `title_only` is truthy, projecting the lookup in order; else a truthy type id filters the lookup by type id; else the lookup is filtered by whatever `book_format_physical` holds |
| `QueryPlanner.TwoOptionsSearchFilter` | app/models/book.rb:46-53 | `nil` exactly when both type id and physical are truthy; otherwise titles, one per book in ranking order: those of the physically filtered lookup when the type id is falsy, else those of the lookup filtered by type id |
| `QueryPlanner.Search` | app/models/book.rb:23-33 | without options the result is a relation; it is `nil` exactly for a two-key hash with truthy type id and truthy physical; it is a title list exactly for a two-key hash that is not `nil`, or for any other hash with a truthy `title_only` |
| `QueryPlanner.SearchDispatch` | app/models/book.rb:24-32 | no query and no options gives the ranked set; a query without options gives its lookup; a two-key hash goes to the two-option filter; any other key count (0, 1, 3 or more) goes to the single-option filter |
| `QueryPlanner.SearchEmptyQuery` | app/models/book.rb:24-27 | with no options, an absent or empty query returns the whole ranked set |
| `QueryPlanner.SearchResultRanked` | app/models/book.rb:23-53 | every relation returned is a ranked subsequence of the ranked set with at most one row per book; every title list projects such a relation |
| `QueryPlanner.SearchEmptyOptions` | app/models/book.rb:26-42 | an empty but present options hash yields an empty relation |
| `QueryPlanner.SearchUnrecognisedKeyCounts` | app/models/book.rb:28-48 | `title_only` plus one unrecognised key takes the two-option path and plucks no titles |
| `QueryPlanner.TwoOptionsIgnoresTitleOnly` | app/models/book.rb:46-53 | the two-option result is the same whatever `title_only` holds, and whether it is present at all |
| `QueryPlanner.SearchTitleOnly` | app/models/book.rb:37-38 | `{title_only: true}` gives the lookup's titles, in the lookup's order |
| `QueryPlanner.SearchFormatTypeIdOnly` | app/models/book.rb:39-40 | a truthy type id alone gives exactly the lookup's books linked to that format type, ranked |
| `QueryPlanner.SearchTitleOnlyPhysical` | app/models/book.rb:47-48 | `title_only` with a boolean `book_format_physical` gives the titles of the lookup's books with that physical flag, one per book, in ranking order |
| `Scenario.ScenarioRanking` | app/models/book.rb:66-70 | in the sample catalog the two reviewed books, tied at 4.5, are ranked, and the unreviewed book is absent |
| `Scenario.ScenarioFormatTypeFilter` | app/models/book.rb:39-40 | in the sample catalog, filtering by format type 1 keeps only the physical book |

## Left out

- The ActiveRecord declarations (app/models/book.rb:2-9) are not modelled. They wire persistence: a presence validation and associations.
- SQL generation and the mechanics of `joins`, `merge`, `group` and `pluck` are left out. Only their set and order semantics are modelled.
- The query is matched literally and case-sensitively. In the source, `%` and `_` inside the query act as `LIKE` wildcards, and case sensitivity depends on the database's collation.
- `Rating.AverageRating`: computed as an exact real. The source's float conversion and `round(1)` are not modelled. The function requires at least one review; the source divides by zero for an unreviewed book.
- `Rating.BooksByRating`: among books with equal averages, the model keeps store order. Each filter then keeps that order. The source leaves the order of tied books to the database, in every query it builds, and `Rating.Ranked` does not constrain it.
- `author_name` (app/models/book.rb:15-17) is not modelled. The code of `Author#format_name` is not part of this model.
- The code of the `BookFormatType.format` and `BookFormatType.physical` scopes is not part of this model. They are modelled as two predicates: the type's id equals the given value, and the type's `physical` flag equals the given value.
- ActiveRecord's casting of option values, such as the string `"3"` for id 3 or `"true"` for `true`, is left out. Only an integer matches a type id, and only a boolean matches a physical flag.
- `book_format_type` and `book_format_physical` are modelled only in the chained form the search uses, as a filter on the relation they are called on. Called on `Book` itself, each equals `ByBookFormatType(s, BooksByRating(s), id)` or `ByBookFormatPhysical(s, BooksByRating(s), physical)`.
- Reading the store is a value, not I/O. The model has no database connection, concurrency or caching.
