/** The server actions over the `books` table. The table is a class whose
    `rows` field the write actions reassign; the reads and the statistics
    are functions of `rows`. Every action is scoped to the calling owner. */
module Store {
  import opened Wrappers
  import opened Text
  import opened Schema
  import opened Ordering

  const NOT_FOUND: string := "Book not found"
  const NOT_FOUND_OR_UNAUTHORIZED: string := "Book not found or unauthorized"
  const RATING_OUT_OF_RANGE: string := "Rating must be between 0 and 5"

  // ---------------------------------------------------------------------
  // WHERE clauses
  // ---------------------------------------------------------------------

  /** The WHERE clauses the actions use; every one of them names the owner. */
  datatype Where =
    | Owner(owner: OwnerId)                                // userId = owner
    | OwnerStatus(owner: OwnerId, status: string)          //   and status = ...
    | OwnerCategory(owner: OwnerId, category: string)      //   and category = ...
    | IdOwner(id: BookId, owner: OwnerId)                  //   and id = ...
    | IdsOwner(ids: seq<BookId>, owner: OwnerId)           //   and id IN (...)

  predicate Selects(w: Where, b: Book) {
    && b.userId == w.owner
    && match w
       case Owner(_) => true
       case OwnerStatus(_, s) => b.status == s
       case OwnerCategory(_, c) => b.category == c
       case IdOwner(id, _) => b.id == id
       case IdsOwner(ids, _) => b.id in ids
  }

  /** The rows a WHERE clause matches, in storage order. */
  function Select(rows: seq<Book>, w: Where): (r: seq<Book>)
    ensures forall b :: b in r <==> b in rows && Selects(w, b)
    ensures multiset(r) <= multiset(rows)
    ensures |r| <= |rows|
  {
    if rows == [] then []
    else
      assert rows == [rows[0]] + rows[1..];
      var tail := Select(rows[1..], w);
      if Selects(w, rows[0]) then [rows[0]] + tail else tail
  }

  /** The rows a WHERE clause does not match, in storage order: what a
      DELETE with that clause leaves behind. */
  function Reject(rows: seq<Book>, w: Where): (r: seq<Book>)
    ensures forall b :: b in r <==> b in rows && !Selects(w, b)
    ensures multiset(r) + multiset(Select(rows, w)) == multiset(rows)
  {
    if rows == [] then []
    else
      assert rows == [rows[0]] + rows[1..];
      var tail := Reject(rows[1..], w);
      if Selects(w, rows[0]) then tail else [rows[0]] + tail
  }

  /** Every WHERE clause sees only its owner's rows: filtering to the owner
      first changes nothing. */
  lemma {:induction false} SelectWithinOwner(rows: seq<Book>, w: Where)
    ensures Select(Select(rows, Owner(w.owner)), w) == Select(rows, w)
  {
    if rows != [] {
      SelectWithinOwner(rows[1..], w);
    }
  }

  /** The first match of a clause is a row the clause selects. */
  lemma SelectedHead(rows: seq<Book>, w: Where)
    requires Select(rows, w) != []
    ensures Select(rows, w)[0] in rows && Selects(w, Select(rows, w)[0])
  {
    assert Select(rows, w)[0] in Select(rows, w);
  }

  predicate UniqueIds(rows: seq<Book>) {
    forall i, j :: 0 <= i < j < |rows| ==> rows[i].id != rows[j].id
  }

  /** With unique ids, a clause on one id matches at most one row. */
  lemma {:induction false} AtMostOneById(rows: seq<Book>, id: BookId, owner: OwnerId)
    requires UniqueIds(rows)
    ensures |Select(rows, IdOwner(id, owner))| <= 1
  {
    if rows != [] {
      var w := IdOwner(id, owner);
      TailUnique(rows);
      AtMostOneById(rows[1..], id, owner);
      if Selects(w, rows[0]) && Select(rows[1..], w) != [] {
        SelectedHead(rows[1..], w);
        assert false;
      }
    }
  }

  // ---------------------------------------------------------------------
  // Row construction and update
  // ---------------------------------------------------------------------

  /** The row `createBook` inserts: category and status fall back to
      their defaults when missing or empty, genres to the empty list, and
      every other field is copied as given. */
  function NewRow(id: BookId, input: BookInput, now: Timestamp): (b: Book)
    ensures b.id == id && b.createdAt == now && b.updatedAt == now
    ensures b.title == input.title && b.userId == input.userId
    ensures b.imageUrl == input.imageUrl && b.rating == input.rating && b.notes == input.notes
    ensures b.category != "" && b.status != ""
    ensures input.category.None? || input.category.value == "" ==> b.category == DEFAULT_CATEGORY
    ensures input.status.None? || input.status.value == "" ==> b.status == DEFAULT_STATUS
    ensures input.category.Some? && input.category.value != "" ==> b.category == input.category.value
    ensures input.status.Some? && input.status.value != "" ==> b.status == input.status.value
    ensures b.genres.Some? && (input.genres.Some? ==> b.genres == input.genres)
    ensures input.genres.None? ==> b.genres == Some([])
  {
    Book(
      id,
      input.title,
      OrElse(input.category, DEFAULT_CATEGORY),
      OrElse(input.status, DEFAULT_STATUS),
      input.imageUrl,
      input.rating,
      Some(input.genres.GetOr([])),
      input.notes,
      input.userId,
      now,
      now)
  }

  /** `SET ...updates, updatedAt = now` on one row: each supplied field is
      written, every other field is kept, and the id and creation time
      never change. */
  function Apply(b: Book, p: BookPatch, now: Timestamp): (r: Book)
    ensures r.id == b.id && r.createdAt == b.createdAt && r.updatedAt == now
    ensures p.title.Keep? ==> r.title == b.title
    ensures p.title.Put? ==> r.title == p.title.value
    ensures p.category.Keep? ==> r.category == b.category
    ensures p.category.Put? ==> r.category == p.category.value
    ensures p.status.Keep? ==> r.status == b.status
    ensures p.status.Put? ==> r.status == p.status.value
    ensures p.imageUrl.Keep? ==> r.imageUrl == b.imageUrl
    ensures p.imageUrl.Put? ==> r.imageUrl == p.imageUrl.value
    ensures p.rating.Keep? ==> r.rating == b.rating
    ensures p.rating.Put? ==> r.rating == p.rating.value
    ensures p.genres.Keep? ==> r.genres == b.genres
    ensures p.genres.Put? ==> r.genres == p.genres.value
    ensures p.notes.Keep? ==> r.notes == b.notes
    ensures p.notes.Put? ==> r.notes == p.notes.value
    ensures p.userId.Keep? ==> r.userId == b.userId
    ensures p.userId.Put? ==> r.userId == p.userId.value
  {
    b.(
      title := p.title.Over(b.title),
      category := p.category.Over(b.category),
      status := p.status.Over(b.status),
      imageUrl := p.imageUrl.Over(b.imageUrl),
      rating := p.rating.Over(b.rating),
      genres := p.genres.Over(b.genres),
      notes := p.notes.Over(b.notes),
      userId := p.userId.Over(b.userId),
      updatedAt := now)
  }

  /** The first row matching both the id and the owner, if any. */
  function Lookup(rows: seq<Book>, id: BookId, owner: OwnerId): (r: Option<Book>)
    ensures r.Some? <==> exists i :: 0 <= i < |rows| && rows[i].id == id && rows[i].userId == owner
    ensures r.Some? ==> r.value in rows && r.value.id == id && r.value.userId == owner
  {
    var s := Select(rows, IdOwner(id, owner));
    if s == [] then
      assert forall i :: 0 <= i < |rows| ==> !Selects(IdOwner(id, owner), rows[i]);
      None
    else
      assert s[0] in s;
      Some(s[0])
  }

  /** What a caller finds by id depends on its own rows only: a row of
      another owner is indistinguishable from a missing one. */
  lemma LookupIsolated(rows: seq<Book>, rows': seq<Book>, id: BookId, owner: OwnerId)
    requires Select(rows, Owner(owner)) == Select(rows', Owner(owner))
    ensures Lookup(rows, id, owner) == Lookup(rows', id, owner)
  {
    SelectWithinOwner(rows, IdOwner(id, owner));
    SelectWithinOwner(rows', IdOwner(id, owner));
  }

  // ---------------------------------------------------------------------
  // Reading statistics
  // ---------------------------------------------------------------------

  datatype Stats = Stats(
    total: nat,
    wantToRead: nat,
    currentlyReading: nat,
    completed: nat,
    dnf: nat,
    onHold: nat,
    averageRating: real,
    ratedBooks: nat)

  /** `books.filter(b => b.status === status).length` */
  function CountStatus(books: seq<Book>, status: string): (n: nat)
    ensures n <= |books|
    ensures n == 0 <==> forall i :: 0 <= i < |books| ==> books[i].status != status
  {
    if books == [] then 0
    else (if books[0].status == status then 1 else 0) + CountStatus(books[1..], status)
  }

  /** `books.filter(b => b.rating !== null).length` */
  function RatedCount(books: seq<Book>): (n: nat)
    ensures n == 0 <==> forall i :: 0 <= i < |books| ==> books[i].rating.None?
  {
    if books == [] then 0
    else (if books[0].rating.Some? then 1 else 0) + RatedCount(books[1..])
  }

  /** The sum of the non-null ratings, `book.rating || 0` counting a null
      one as 0. */
  function RatingSum(books: seq<Book>): (sum: real)
    ensures RatedCount(books) == 0 ==> sum == 0.0
  {
    if books == [] then 0.0
    else books[0].rating.GetOr(0.0) + RatingSum(books[1..])
  }

  /** Every rating present lies in the intended range 0..5. */
  predicate RatingsInRange(books: seq<Book>) {
    forall i :: 0 <= i < |books| ==> books[i].rating.Some? ==> 0.0 <= books[i].rating.value <= 5.0
  }

  /** The counts of the five statuses add up to at most the number of
      books, since each book has one status. */
  lemma {:induction false} StatusCountsBounded(books: seq<Book>)
    ensures CountStatus(books, BOOK_STATUSES[0]) + CountStatus(books, BOOK_STATUSES[1])
          + CountStatus(books, BOOK_STATUSES[2]) + CountStatus(books, BOOK_STATUSES[3])
          + CountStatus(books, BOOK_STATUSES[4]) <= |books|
  {
    if books != [] {
      StatusCountsBounded(books[1..]);
    }
  }

  lemma {:induction false} RatedCountBounded(books: seq<Book>)
    ensures RatedCount(books) <= |books|
  {
    if books != [] {
      RatedCountBounded(books[1..]);
    }
  }

  /** With every rating in 0..5, the sum of the ratings lies between 0 and
      five times the number of rated books. */
  lemma {:induction false} RatingSumBounded(books: seq<Book>)
    requires RatingsInRange(books)
    ensures 0.0 <= RatingSum(books) <= 5.0 * RatedCount(books) as real
  {
    if books != [] {
      assert RatingsInRange(books[1..]) by {
        forall i | 0 <= i < |books[1..]| ensures books[1..][i] == books[i + 1] { }
      }
      RatingSumBounded(books[1..]);
    }
  }

  /** The average of the non-null ratings, `sum / rated || 0`: the
      division's NaN for no rated book becomes 0. */
  function AverageRating(books: seq<Book>): (average: real)
    ensures RatedCount(books) == 0 ==> average == 0.0
    ensures RatedCount(books) > 0 ==> average * RatedCount(books) as real == RatingSum(books)
    ensures RatingsInRange(books) ==> 0.0 <= average <= 5.0
  {
    var rated := RatedCount(books);
    if rated == 0 then 0.0
    else
      var average := RatingSum(books) / rated as real;
      assert RatingsInRange(books) ==> 0.0 <= average <= 5.0 by {
        if RatingsInRange(books) {
          RatingSumBounded(books);
          AverageBounded(RatingSum(books), rated);
        }
      }
      average
  }

  /** The statistics `getUserReadingStats` derives from the owner's books. */
  function ComputeStats(books: seq<Book>): (s: Stats)
    ensures s.total == |books| && s.ratedBooks == RatedCount(books) && s.ratedBooks <= s.total
    ensures s.wantToRead == CountStatus(books, BOOK_STATUSES[0])
    ensures s.currentlyReading == CountStatus(books, BOOK_STATUSES[1])
    ensures s.completed == CountStatus(books, BOOK_STATUSES[2])
    ensures s.dnf == CountStatus(books, BOOK_STATUSES[3])
    ensures s.onHold == CountStatus(books, BOOK_STATUSES[4])
    ensures s.wantToRead + s.currentlyReading + s.completed + s.dnf + s.onHold <= s.total
    ensures s.ratedBooks == 0 ==> s.averageRating == 0.0
    ensures s.averageRating == AverageRating(books)
    ensures s.ratedBooks > 0 ==> s.averageRating == RatingSum(books) / s.ratedBooks as real
    ensures RatingsInRange(books) ==> 0.0 <= s.averageRating <= 5.0
  {
    StatusCountsBounded(books);
    RatedCountBounded(books);
    var rated, average := RatedCount(books), AverageRating(books);
    Stats(
      |books|,
      CountStatus(books, BOOK_STATUSES[0]),
      CountStatus(books, BOOK_STATUSES[1]),
      CountStatus(books, BOOK_STATUSES[2]),
      CountStatus(books, BOOK_STATUSES[3]),
      CountStatus(books, BOOK_STATUSES[4]),
      average,
      rated)
  }

  /** Four books rated 5, 4, none and 3: three are rated, averaging 4. */
  lemma StatsExample(b: Book)
    ensures var s := ComputeStats([b.(rating := Some(5.0)), b.(rating := Some(4.0)), b.(rating := None), b.(rating := Some(3.0))]);
      s.total == 4 && s.ratedBooks == 3 && s.averageRating == 4.0
  {
    var books := [b.(rating := Some(5.0)), b.(rating := Some(4.0)), b.(rating := None), b.(rating := Some(3.0))];
    assert RatedCount(books[3..]) == 1 && RatingSum(books[3..]) == 3.0;
    assert RatedCount(books[2..]) == 1 && RatingSum(books[2..]) == 3.0;
    assert RatedCount(books[1..]) == 2 && RatingSum(books[1..]) == 7.0;
    assert RatedCount(books) == 3 && RatingSum(books) == 12.0;
  }

  lemma AverageBounded(sum: real, n: nat)
    requires n > 0 && 0.0 <= sum <= 5.0 * n as real
    ensures 0.0 <= sum / n as real <= 5.0
  {
  }

  // ---------------------------------------------------------------------
  // The table
  // ---------------------------------------------------------------------

  class BookTable {
    /** The rows of `books`, in storage order. */
    var rows: seq<Book>
    /** The id the next insert receives. */
    var nextId: BookId

    ghost predicate Valid()
      reads this
    {
      && UniqueIds(rows)
      && forall i :: 0 <= i < |rows| ==> rows[i].id < nextId
    }

    constructor ()
      ensures Valid() && rows == []
    {
      rows := [];
      nextId := 0;
    }

    /** `createBook`: appends one row with a fresh id. */
    method CreateBook(input: BookInput, now: Timestamp) returns (r: Result<Book>)
      requires Valid()
      modifies this
      ensures Valid()
      ensures r.Ok? && r.value == NewRow(old(nextId), input, now)
      ensures rows == old(rows) + [r.value] && nextId == old(nextId) + 1
      ensures forall b :: b in old(rows) ==> b.id != r.value.id
    {
      var b := NewRow(nextId, input, now);
      rows := rows + [b];
      nextId := nextId + 1;
      r := Ok(b);
    }

    /** The rows a clause matches, most recently updated first. */
    function Query(w: Where): (r: seq<Book>)
      reads this
      ensures Sorted(ByUpdatedDesc, r)
      ensures multiset(r) == multiset(Select(rows, w))
      ensures forall b :: b in r <==> b in rows && Selects(w, b)
    {
      var r := SortBy(ByUpdatedDesc, Select(rows, w));
      assert forall b :: b in r <==> b in multiset(Select(rows, w));
      r
    }

    /** `getTBREntries`: exactly the owner's rows, newest update first. */
    function GetTBREntries(owner: OwnerId): (r: seq<Book>)
      reads this
      ensures Sorted(ByUpdatedDesc, r)
      ensures forall b :: b in r <==> b in rows && b.userId == owner
      ensures multiset(r) == multiset(Select(rows, Owner(owner)))
      ensures |r| == |Select(rows, Owner(owner))|
    {
      var r := Query(Owner(owner));
      assert |r| == |multiset(r)|;
      r
    }

    /** `getBooksByStatus`: the owner's rows with that status. */
    function GetBooksByStatus(owner: OwnerId, status: string): (r: seq<Book>)
      reads this
      ensures Sorted(ByUpdatedDesc, r)
      ensures forall b :: b in r <==> b in rows && b.userId == owner && b.status == status
      ensures multiset(r) == multiset(Select(rows, OwnerStatus(owner, status)))
    {
      Query(OwnerStatus(owner, status))
    }

    /** `getBooksByCategory`: the owner's rows with that category. */
    function GetBooksByCategory(owner: OwnerId, category: string): (r: seq<Book>)
      reads this
      ensures Sorted(ByUpdatedDesc, r)
      ensures forall b :: b in r <==> b in rows && b.userId == owner && b.category == category
      ensures multiset(r) == multiset(Select(rows, OwnerCategory(owner, category)))
    {
      Query(OwnerCategory(owner, category))
    }

    /** `getBookById`: succeeds only for a row matching both id and owner. */
    function GetBookById(id: BookId, owner: OwnerId): (r: Result<Book>)
      reads this
      ensures r.Ok? <==> exists i :: 0 <= i < |rows| && rows[i].id == id && rows[i].userId == owner
      ensures r.Ok? ==> r.value in rows && r.value.id == id && r.value.userId == owner
      ensures r.Err? ==> r.message == NOT_FOUND
    {
      match Lookup(rows, id, owner)
      case Some(b) => Ok(b)
      case None => Err(NOT_FOUND)
    }

    /** `updateBook`: rewrites the one row matching id and owner. */
    method UpdateBook(id: BookId, owner: OwnerId, patch: BookPatch, now: Timestamp) returns (r: Result<Book>)
      requires Valid()
      modifies this
      ensures Valid() && nextId == old(nextId)
      ensures Lookup(old(rows), id, owner).None? ==> r == Err(NOT_FOUND_OR_UNAUTHORIZED) && rows == old(rows)
      ensures Lookup(old(rows), id, owner).Some? ==> r == Ok(Apply(Lookup(old(rows), id, owner).value, patch, now))
      ensures |rows| == |old(rows)|
      ensures forall i :: 0 <= i < |rows| ==>
        rows[i] == if Selects(IdOwner(id, owner), old(rows)[i]) then Apply(old(rows)[i], patch, now) else old(rows)[i]
    {
      var found := Lookup(rows, id, owner);
      if found.None? {
        r := Err(NOT_FOUND_OR_UNAUTHORIZED);
        return;
      }
      var w := IdOwner(id, owner);
      rows := seq(|rows|, i requires 0 <= i < |rows| reads this =>
        if Selects(w, rows[i]) then Apply(rows[i], patch, now) else rows[i]);
      r := Ok(Apply(found.value, patch, now));
    }

    /** `updateBookStatus`: sets the status of the one row matching id and
        owner and touches nothing else. */
    method UpdateBookStatus(id: BookId, owner: OwnerId, status: string, now: Timestamp) returns (r: Result<Book>)
      requires Valid()
      modifies this
      ensures Valid() && nextId == old(nextId)
      ensures Lookup(old(rows), id, owner).None? ==> r == Err(NOT_FOUND_OR_UNAUTHORIZED) && rows == old(rows)
      ensures Lookup(old(rows), id, owner).Some? ==>
        r == Ok(Lookup(old(rows), id, owner).value.(status := status, updatedAt := now))
      ensures |rows| == |old(rows)|
      ensures forall i :: 0 <= i < |rows| ==>
        rows[i] == if Selects(IdOwner(id, owner), old(rows)[i])
                   then old(rows)[i].(status := status, updatedAt := now) else old(rows)[i]
    {
      r := UpdateBook(id, owner, StatusPatch(status), now);
    }

    /** `updateBookRating`: refuses a rating outside 0..5 before touching
        the table; otherwise sets the rating of the one matching row. */
    method UpdateBookRating(id: BookId, owner: OwnerId, rating: real, now: Timestamp) returns (r: Result<Book>)
      requires Valid()
      modifies this
      ensures Valid() && nextId == old(nextId)
      ensures rating < 0.0 || rating > 5.0 ==> r == Err(RATING_OUT_OF_RANGE) && rows == old(rows)
      ensures r.Ok? ==> 0.0 <= rating <= 5.0 && Lookup(old(rows), id, owner).Some?
      ensures 0.0 <= rating <= 5.0 && Lookup(old(rows), id, owner).None? ==>
        r == Err(NOT_FOUND_OR_UNAUTHORIZED) && rows == old(rows)
      ensures 0.0 <= rating <= 5.0 && Lookup(old(rows), id, owner).Some? ==>
        r == Ok(Lookup(old(rows), id, owner).value.(rating := Some(rating), updatedAt := now))
      ensures |rows| == |old(rows)|
      ensures 0.0 <= rating <= 5.0 ==> forall i :: 0 <= i < |rows| ==>
        rows[i] == if Selects(IdOwner(id, owner), old(rows)[i])
                   then old(rows)[i].(rating := Some(rating), updatedAt := now) else old(rows)[i]
    {
      if rating < 0.0 || rating > 5.0 {
        r := Err(RATING_OUT_OF_RANGE);
        return;
      }
      r := UpdateBook(id, owner, RatingPatch(rating), now);
    }

    /** `deleteBook`: removes the one row matching id and owner. */
    method DeleteBook(id: BookId, owner: OwnerId) returns (r: Result<Book>)
      requires Valid()
      modifies this
      ensures Valid() && nextId == old(nextId)
      ensures Lookup(old(rows), id, owner).None? ==> r == Err(NOT_FOUND_OR_UNAUTHORIZED) && rows == old(rows)
      ensures Lookup(old(rows), id, owner).Some? ==>
        && r == Ok(Lookup(old(rows), id, owner).value)
        && rows == Reject(old(rows), IdOwner(id, owner))
        && |rows| == |old(rows)| - 1
    {
      var found := Lookup(rows, id, owner);
      if found.None? {
        r := Err(NOT_FOUND_OR_UNAUTHORIZED);
        return;
      }
      var w := IdOwner(id, owner);
      AtMostOneById(rows, id, owner);
      assert found.value in Select(rows, w);
      RejectValid(rows, w, nextId);
      rows := Reject(rows, w);
      r := Ok(found.value);
    }

    /** `bulkUpdateBookStatus`: an empty id list changes nothing; otherwise
        every row of the owner whose id is listed gets the new status. */
    method BulkUpdateBookStatus(ids: seq<BookId>, owner: OwnerId, status: string, now: Timestamp)
      returns (updated: seq<Book>)
      requires Valid()
      modifies this
      ensures Valid() && nextId == old(nextId)
      ensures |ids| == 0 ==> updated == [] && rows == old(rows)
      ensures |rows| == |old(rows)|
      ensures |ids| > 0 ==> forall i :: 0 <= i < |rows| ==>
        rows[i] == if Selects(IdsOwner(ids, owner), old(rows)[i])
                   then old(rows)[i].(status := status, updatedAt := now) else old(rows)[i]
      ensures |ids| > 0 ==> updated == Select(rows, IdsOwner(ids, owner))
    {
      if |ids| == 0 {
        updated := [];
        return;
      }
      var w := IdsOwner(ids, owner);
      rows := seq(|rows|, i requires 0 <= i < |rows| reads this =>
        if Selects(w, rows[i]) then rows[i].(status := status, updatedAt := now) else rows[i]);
      updated := Select(rows, w);
    }

    /** `bulkDeleteBooks`: an empty id list changes nothing; otherwise
        exactly the owner's rows whose id is listed are removed. */
    method BulkDeleteBooks(ids: seq<BookId>, owner: OwnerId) returns (deleted: seq<Book>)
      requires Valid()
      modifies this
      ensures Valid() && nextId == old(nextId)
      ensures |ids| == 0 ==> deleted == [] && rows == old(rows)
      ensures |ids| > 0 ==> deleted == Select(old(rows), IdsOwner(ids, owner))
      ensures |ids| > 0 ==> rows == Reject(old(rows), IdsOwner(ids, owner))
    {
      if |ids| == 0 {
        deleted := [];
        return;
      }
      var w := IdsOwner(ids, owner);
      RejectValid(rows, w, nextId);
      deleted := Select(rows, w);
      rows := Reject(rows, w);
    }

    /** `getUserReadingStats`: the statistics of the owner's rows. */
    function GetUserReadingStats(owner: OwnerId): (s: Stats)
      reads this
      ensures s == ComputeStats(Select(rows, Owner(owner)))
      ensures s.total == |Select(rows, Owner(owner))|
      ensures RatingsInRange(Select(rows, Owner(owner))) ==> 0.0 <= s.averageRating <= 5.0
      ensures RatingsInRange(rows) ==> 0.0 <= s.averageRating <= 5.0
    {
      var mine := Select(rows, Owner(owner));
      assert RatingsInRange(rows) ==> RatingsInRange(mine) by {
        if RatingsInRange(rows) {
          forall i | 0 <= i < |mine| && mine[i].rating.Some? ensures 0.0 <= mine[i].rating.value <= 5.0 {
            assert mine[i] in rows;
          }
        }
      }
      ComputeStats(mine)
    }
  }

  /** Deleting rows keeps ids unique and below the id counter. */
  lemma {:induction false} RejectValid(rows: seq<Book>, w: Where, nextId: BookId)
    requires UniqueIds(rows) && forall i :: 0 <= i < |rows| ==> rows[i].id < nextId
    ensures UniqueIds(Reject(rows, w))
    ensures forall i :: 0 <= i < |Reject(rows, w)| ==> Reject(rows, w)[i].id < nextId
  {
    if rows != [] {
      var rest := rows[1..];
      TailUnique(rows);
      RejectValid(rest, w, nextId);
      var tail := Reject(rest, w);
      forall i | 0 <= i < |tail| ensures tail[i].id != rows[0].id && tail[i].id < nextId {
        assert tail[i] in rest;
      }
      if !Selects(w, rows[0]) {
        PrependUnique(rows[0], tail);
      }
    }
  }

  /** With unique ids, another owner looking a row up by its id finds
      nothing: ownership cannot be probed. */
  lemma OtherOwnerFindsNothing(rows: seq<Book>, e: Book, other: OwnerId)
    requires UniqueIds(rows) && e in rows && e.userId != other
    ensures Lookup(rows, e.id, other).None?
  {
  }

  lemma TailUnique(rows: seq<Book>)
    requires rows != [] && UniqueIds(rows)
    ensures UniqueIds(rows[1..])
    ensures forall b :: b in rows[1..] ==> b.id != rows[0].id
  {
    var rest := rows[1..];
    forall i, j | 0 <= i < j < |rest| ensures rest[i].id != rest[j].id {
      assert rest[i] == rows[i + 1] && rest[j] == rows[j + 1];
    }
    forall b | b in rest ensures b.id != rows[0].id {
      var k :| 0 <= k < |rest| && rest[k] == b;
      assert rows[k + 1] == b;
    }
  }

  lemma PrependUnique(x: Book, tail: seq<Book>)
    requires UniqueIds(tail) && forall i :: 0 <= i < |tail| ==> tail[i].id != x.id
    ensures UniqueIds([x] + tail)
  {
    var r := [x] + tail;
    forall i, j | 0 <= i < j < |r| ensures r[i].id != r[j].id {
      assert r[j] == tail[j - 1];
      if i > 0 { assert r[i] == tail[i - 1]; }
    }
  }
}
