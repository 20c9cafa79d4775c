/** The read-only catalog the search runs against: the rows of the `books`,
    `authors`, `book_reviews`, `book_format_types` and `book_formats` tables,
    each table a sequence in the store's iteration order. */
module BookStore {

  datatype Option<+T> = None | Some(value: T)

  datatype Author = Author(firstName: string, lastName: string)

  /** A book row together with the author it belongs to. */
  datatype Book = Book(id: int, title: string, author: Author)

  datatype BookReview = BookReview(bookId: int, rating: int)

  datatype BookFormatType = BookFormatType(id: int, physical: bool)

  /** The join row linking a book to one of its format types. */
  datatype BookFormat = BookFormat(bookId: int, formatTypeId: int)

  datatype Store = Store(
    books: seq<Book>,
    reviews: seq<BookReview>,
    formatTypes: seq<BookFormatType>,
    bookFormats: seq<BookFormat>)

  /** No two books in the sequence share an id. */
  predicate UniqueIds(xs: seq<Book>) {
    forall i, j | 0 <= i < j < |xs| :: xs[i].id != xs[j].id
  }

  /** `books.id` is the primary key of the books table. */
  predicate UniqueBookIds(s: Store) {
    UniqueIds(s.books)
  }
}
