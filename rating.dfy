/** Rating aggregation and the ranked base set `books_by_rating`: the books that
    have at least one review (the inner join on `book_reviews`), one row per book
    (`distinct_books` with `group('books.id')`), ordered by average rating
    descending (`by_rating`). Averages are compared exactly, by cross-multiplying
    rating sums and review counts. */
module Rating {
  import opened Sequences
  import opened BookStore

  /** Number of reviews of the book with the given id. */
  function ReviewCount(reviews: seq<BookReview>, id: int): (n: nat)
    ensures n <= |reviews|
    ensures n > 0 <==> exists k | 0 <= k < |reviews| :: reviews[k].bookId == id
  {
    if reviews == [] then 0
    else
      var rest := ReviewCount(reviews[1..], id);
      assert forall k | 1 <= k < |reviews| :: reviews[k] == reviews[1..][k - 1];
      (if reviews[0].bookId == id then 1 else 0) + rest
  }

  /** Sum of the ratings of the book with the given id. */
  function ReviewSum(reviews: seq<BookReview>, id: int): int
  {
    if reviews == [] then 0
    else (if reviews[0].bookId == id then reviews[0].rating else 0) + ReviewSum(reviews[1..], id)
  }

  /** The book survives the inner join with its reviews. */
  predicate Reviewed(s: Store, b: Book) {
    ReviewCount(s.reviews, b.id) > 0
  }

  predicate AllReviewed(s: Store, xs: seq<Book>) {
    forall b | b in xs :: Reviewed(s, b)
  }

  /** The average rating of `a` is at least that of `b`:
      sum(a) / count(a) >= sum(b) / count(b), cross-multiplied. */
  predicate RatedAtLeast(s: Store, a: Book, b: Book) {
    ReviewSum(s.reviews, a.id) * ReviewCount(s.reviews, b.id)
      >= ReviewSum(s.reviews, b.id) * ReviewCount(s.reviews, a.id)
  }

  /** `average_rating`, exactly: the mean of the book's review ratings. */
  function AverageRating(s: Store, b: Book): (avg: real)
    requires Reviewed(s, b)
    ensures avg * ReviewCount(s.reviews, b.id) as real == ReviewSum(s.reviews, b.id) as real
  {
    ReviewSum(s.reviews, b.id) as real / ReviewCount(s.reviews, b.id) as real
  }

  /** The cross-multiplied comparison orders books exactly as their averages do. */
  lemma RatedAtLeastIffAverage(s: Store, a: Book, b: Book)
    requires Reviewed(s, a) && Reviewed(s, b)
    ensures RatedAtLeast(s, a, b) <==> AverageRating(s, a) >= AverageRating(s, b)
  {
    CrossIffQuotient(ReviewSum(s.reviews, a.id), ReviewCount(s.reviews, a.id),
                     ReviewSum(s.reviews, b.id), ReviewCount(s.reviews, b.id));
  }

  /** Comparing cross products of sums and counts is comparing the quotients. */
  lemma CrossIffQuotient(sa: int, ca: int, sb: int, cb: int)
    requires ca > 0 && cb > 0
    ensures sa * cb >= sb * ca <==> sa as real / ca as real >= sb as real / cb as real
  {
  }

  /** Every pair of books is comparable, and every book is rated at least itself. */
  lemma RatedAtLeastTotal(s: Store, a: Book, b: Book)
    ensures RatedAtLeast(s, a, a)
    ensures RatedAtLeast(s, a, b) || RatedAtLeast(s, b, a)
  {
  }

  /** The comparison is transitive through any reviewed middle book. */
  lemma RatedAtLeastTransitive(s: Store, a: Book, b: Book, c: Book)
    requires Reviewed(s, b)
    requires RatedAtLeast(s, a, b) && RatedAtLeast(s, b, c)
    ensures RatedAtLeast(s, a, c)
  {
    CrossTransitive(ReviewSum(s.reviews, a.id), ReviewCount(s.reviews, a.id),
                    ReviewSum(s.reviews, b.id), ReviewCount(s.reviews, b.id),
                    ReviewSum(s.reviews, c.id), ReviewCount(s.reviews, c.id));
  }

  /** Cross-multiplied comparison is transitive when the middle count is positive. */
  lemma CrossTransitive(sa: int, ca: nat, sb: int, cb: nat, sc: int, cc: nat)
    requires cb > 0
    requires sa * cb >= sb * ca && sb * cc >= sc * cb
    ensures sa * cc >= sc * ca
  {
  }

  /** Ranked by average rating descending: the first book is rated at least every
      later one, and the rest is ranked too. */
  predicate Ranked(s: Store, xs: seq<Book>) {
    |xs| <= 1 || ((forall b | b in xs[1..] :: RatedAtLeast(s, xs[0], b)) && Ranked(s, xs[1..]))
  }

  /** No book id occurs twice: the first id does not recur later, and the rest is distinct too. */
  predicate DistinctIds(xs: seq<Book>) {
    |xs| == 0 || ((forall b | b in xs[1..] :: b.id != xs[0].id) && DistinctIds(xs[1..]))
  }

  /** In a ranked sequence every book is rated at least every later one. */
  lemma {:induction false} RankedPairwise(s: Store, xs: seq<Book>)
    requires Ranked(s, xs)
    ensures forall i, j | 0 <= i < j < |xs| :: RatedAtLeast(s, xs[i], xs[j])
  {
    if |xs| > 1 {
      RankedPairwise(s, xs[1..]);
      forall i, j | 0 <= i < j < |xs| ensures RatedAtLeast(s, xs[i], xs[j]) {
        if i == 0 {
          assert xs[j] in xs[1..];
        } else {
          assert xs[i] == xs[1..][i - 1] && xs[j] == xs[1..][j - 1];
        }
      }
    }
  }

  /** A sequence with distinct ids never holds the same book twice. */
  lemma {:induction false} DistinctIdsPairwise(xs: seq<Book>)
    requires DistinctIds(xs)
    ensures UniqueIds(xs)
  {
    if |xs| > 0 {
      DistinctIdsPairwise(xs[1..]);
      forall i, j | 0 <= i < j < |xs| ensures xs[i].id != xs[j].id {
        if i == 0 {
          assert xs[j] in xs[1..];
        } else {
          assert xs[i] == xs[1..][i - 1] && xs[j] == xs[1..][j - 1];
        }
      }
    }
  }

  lemma {:induction false} UniqueIdsDistinct(xs: seq<Book>)
    requires UniqueIds(xs)
    ensures DistinctIds(xs)
  {
    if |xs| > 0 {
      assert forall k | 0 <= k < |xs| - 1 :: xs[1..][k] == xs[k + 1];
      UniqueIdsDistinct(xs[1..]);
    }
  }

  /** A subsequence of a ranked sequence is ranked. */
  lemma {:induction false} SubsequenceRanked(s: Store, r: seq<Book>, xs: seq<Book>)
    requires Subsequence(r, xs) && Ranked(s, xs)
    ensures Ranked(s, r)
    decreases |xs|
  {
    if r != [] {
      if r[0] == xs[0] && Subsequence(r[1..], xs[1..]) {
        SubsequenceRanked(s, r[1..], xs[1..]);
        SubsequenceMembers(r[1..], xs[1..]);
      } else {
        SubsequenceRanked(s, r, xs[1..]);
      }
    }
  }

  /** A subsequence of a sequence with distinct ids has distinct ids. */
  lemma {:induction false} SubsequenceDistinctIds(r: seq<Book>, xs: seq<Book>)
    requires Subsequence(r, xs) && DistinctIds(xs)
    ensures DistinctIds(r)
    decreases |xs|
  {
    if r != [] {
      if r[0] == xs[0] && Subsequence(r[1..], xs[1..]) {
        SubsequenceDistinctIds(r[1..], xs[1..]);
        SubsequenceMembers(r[1..], xs[1..]);
      } else {
        SubsequenceDistinctIds(r, xs[1..]);
      }
    }
  }

  /** A subsequence of a sequence without repeated ids has none either. */
  lemma SubsequenceUniqueIds(r: seq<Book>, xs: seq<Book>)
    requires Subsequence(r, xs) && UniqueIds(xs)
    ensures UniqueIds(r)
  {
    UniqueIdsDistinct(xs);
    SubsequenceDistinctIds(r, xs);
    DistinctIdsPairwise(r);
  }

  /** Places `x` before the first book it is rated at least as high as; so among
      equally rated books `x` comes first. */
  function Insert(s: Store, x: Book, ys: seq<Book>): (r: seq<Book>)
    ensures multiset(r) == multiset(ys) + multiset{x}
  {
    if ys == [] then [x]
    else if RatedAtLeast(s, x, ys[0]) then [x] + ys
    else
      assert ys == [ys[0]] + ys[1..];
      [ys[0]] + Insert(s, x, ys[1..])
  }

  lemma InsertMembers(s: Store, x: Book, ys: seq<Book>)
    ensures forall b | b in Insert(s, x, ys) :: b == x || b in ys
  {
    var r := Insert(s, x, ys);
    forall b | b in r ensures b == x || b in ys {
      assert b in multiset(r);
    }
  }

  /** Inserting a reviewed book into a ranked sequence of reviewed books keeps it ranked. */
  lemma {:induction false} InsertRanked(s: Store, x: Book, ys: seq<Book>)
    requires Reviewed(s, x) && AllReviewed(s, ys) && Ranked(s, ys)
    ensures Ranked(s, Insert(s, x, ys))
  {
    if ys == [] {
    } else if RatedAtLeast(s, x, ys[0]) {
      assert ([x] + ys)[1..] == ys;
      forall b | b in ys ensures RatedAtLeast(s, x, b) {
        if b != ys[0] {
          assert b in ys[1..];
          RatedAtLeastTransitive(s, x, ys[0], b);
        }
      }
    } else {
      var rest := Insert(s, x, ys[1..]);
      InsertRanked(s, x, ys[1..]);
      InsertMembers(s, x, ys[1..]);
      assert ([ys[0]] + rest)[1..] == rest;
    }
  }

  /** Inserting a book whose id is new into a sequence with distinct ids keeps them distinct. */
  lemma {:induction false} InsertDistinctIds(s: Store, x: Book, ys: seq<Book>)
    requires forall y | y in ys :: y.id != x.id
    requires DistinctIds(ys)
    ensures DistinctIds(Insert(s, x, ys))
  {
    if ys == [] {
    } else if RatedAtLeast(s, x, ys[0]) {
      assert ([x] + ys)[1..] == ys;
    } else {
      var rest := Insert(s, x, ys[1..]);
      InsertDistinctIds(s, x, ys[1..]);
      InsertMembers(s, x, ys[1..]);
      assert ([ys[0]] + rest)[1..] == rest;
    }
  }

  /** Insertion sort by average rating descending; books with equal averages keep
      the store's order. */
  function SortByRating(s: Store, xs: seq<Book>): (r: seq<Book>)
    ensures multiset(r) == multiset(xs)
  {
    if xs == [] then []
    else
      assert xs == [xs[0]] + xs[1..];
      Insert(s, xs[0], SortByRating(s, xs[1..]))
  }

  lemma SortByRatingMembers(s: Store, xs: seq<Book>)
    ensures forall b | b in SortByRating(s, xs) :: b in xs
    ensures forall b | b in xs :: b in SortByRating(s, xs)
  {
    var r := SortByRating(s, xs);
    forall b | b in r ensures b in xs {
      assert b in multiset(r);
    }
    forall b | b in xs ensures b in r {
      assert b in multiset(xs);
    }
  }

  /** Sorting reviewed books ranks them. */
  lemma {:induction false} SortByRatingRanked(s: Store, xs: seq<Book>)
    requires AllReviewed(s, xs)
    ensures Ranked(s, SortByRating(s, xs))
  {
    if xs != [] {
      SortByRatingRanked(s, xs[1..]);
      SortByRatingMembers(s, xs[1..]);
      InsertRanked(s, xs[0], SortByRating(s, xs[1..]));
    }
  }

  /** Sorting keeps ids distinct. */
  lemma {:induction false} SortByRatingDistinctIds(s: Store, xs: seq<Book>)
    requires DistinctIds(xs)
    ensures DistinctIds(SortByRating(s, xs))
  {
    if xs != [] {
      SortByRatingDistinctIds(s, xs[1..]);
      SortByRatingMembers(s, xs[1..]);
      InsertDistinctIds(s, xs[0], SortByRating(s, xs[1..]));
    }
  }

  /** `books_by_rating` (app/models/book.rb:66-70): the reviewed books, one row
      per book, ranked by average rating descending. */
  function BooksByRating(s: Store): (r: seq<Book>)
    ensures forall b | b in r :: b in s.books && Reviewed(s, b)
    ensures forall b | b in s.books && Reviewed(s, b) :: b in r
    ensures Ranked(s, r)
    ensures UniqueBookIds(s) ==> UniqueIds(r)
  {
    var reviewed := Filter(s.books, b => Reviewed(s, b));
    var r := SortByRating(s, reviewed);
    SortByRatingMembers(s, reviewed);
    SortByRatingRanked(s, reviewed);
    if UniqueBookIds(s) then
      UniqueIdsDistinct(s.books);
      SubsequenceDistinctIds(reviewed, s.books);
      SortByRatingDistinctIds(s, reviewed);
      DistinctIdsPairwise(r);
      r
    else r
  }
}
