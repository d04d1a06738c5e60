/** The `books` table: its row shape, the insert and update payload shapes
    and the category and status vocabularies. */
module Schema {
  import opened Wrappers
  import opened Lists

  /** The identity-provider user id that owns a row; only ever compared
      for equality. */
  type OwnerId = string

  type BookId = nat

  /** A point in time, as a number of milliseconds. */
  type Timestamp = int

  const BOOK_CATEGORIES: seq<string> := ["Book", "Audiobook", "Ebook", "Graphic Novel", "Manga"]

  const BOOK_STATUSES: seq<string> := ["Want to Read", "Currently Reading", "Completed", "DNF", "On Hold"]

  /** Column default of `category`. */
  const DEFAULT_CATEGORY: string := "Book"

  /** Column default of `status`. */
  const DEFAULT_STATUS: string := "Want to Read"

  /** A row of `books`. `imageUrl`, `rating`, `genres` and `notes` are
      nullable columns; the rest are NOT NULL. `rating` is meant to lie in
      0..5 but the column does not enforce it. */
  datatype Book = Book(
    id: BookId,
    title: string,
    category: string,
    status: string,
    imageUrl: Option<string>,
    rating: Option<real>,
    genres: Option<seq<string>>,
    notes: Option<string>,
    userId: OwnerId,
    createdAt: Timestamp,
    updatedAt: Timestamp)

  /** `BookInput`: what a caller may give to an insert. It has no `id`,
      `createdAt` or `updatedAt`, so a caller cannot choose them; the
      defaulted columns are optional. */
  datatype BookInput = BookInput(
    title: string,
    category: Option<string>,
    status: Option<string>,
    imageUrl: Option<string>,
    rating: Option<real>,
    genres: Option<seq<string>>,
    notes: Option<string>,
    userId: OwnerId)

  /** One field of a partial update: left alone, or overwritten. */
  datatype Patch<T> = Keep | Put(value: T) {
    function Over(current: T): T {
      match this
      case Keep => current
      case Put(v) => v
    }
  }

  /** `Partial<BookInput>`: every field may be absent from the update. */
  datatype BookPatch = BookPatch(
    title: Patch<string>,
    category: Patch<string>,
    status: Patch<string>,
    imageUrl: Patch<Option<string>>,
    rating: Patch<Option<real>>,
    genres: Patch<Option<seq<string>>>,
    notes: Patch<Option<string>>,
    userId: Patch<OwnerId>)

  /** The update that touches only `status`. */
  function StatusPatch(status: string): (p: BookPatch)
    ensures p.status == Put(status)
    ensures p.title.Keep? && p.category.Keep? && p.imageUrl.Keep? && p.rating.Keep?
    ensures p.genres.Keep? && p.notes.Keep? && p.userId.Keep?
  {
    BookPatch(Keep, Keep, Put(status), Keep, Keep, Keep, Keep, Keep)
  }

  /** The update that touches only `rating`. */
  function RatingPatch(rating: real): (p: BookPatch)
    ensures p.rating == Put(Some(rating))
    ensures p.title.Keep? && p.category.Keep? && p.status.Keep? && p.imageUrl.Keep?
    ensures p.genres.Keep? && p.notes.Keep? && p.userId.Keep?
  {
    BookPatch(Keep, Keep, Keep, Keep, Put(Some(rating)), Keep, Keep, Keep)
  }

  /** Both vocabularies hold exactly five distinct values, and each holds
      its column's default. */
  lemma Vocabularies()
    ensures |BOOK_CATEGORIES| == 5 && Distinct(BOOK_CATEGORIES)
    ensures |BOOK_STATUSES| == 5 && Distinct(BOOK_STATUSES)
    ensures DEFAULT_CATEGORY == BOOK_CATEGORIES[0] && DEFAULT_STATUS == BOOK_STATUSES[0]
  {
  }
}
