/** The dashboard's filter panel: the criteria it holds, the list of
    books it derives from them (filter, then sort), the genre choices it
    offers, and the handlers that change the criteria. */
module Filters {
  import opened Wrappers
  import opened Lists
  import opened Text
  import opened Schema
  import opened Ordering

  /** The value of a select that means "no restriction". */
  const ALL: string := "all"

  /** The panel's state variables. */
  datatype Criteria = Criteria(
    searchTerm: string,
    selectedStatus: string,
    selectedCategory: string,
    selectedGenres: seq<string>,
    ratingFilter: string,
    sortBy: string)

  /** The initial state, to which "clear filters" returns. */
  const DEFAULT_CRITERIA: Criteria := Criteria("", ALL, ALL, [], ALL, "recent")

  // ---------------------------------------------------------------------
  // The filter
  // ---------------------------------------------------------------------

  /** `!book.rating`: a missing rating and a rating of 0 are both falsy. */
  predicate RatingFalsy(b: Book) {
    b.rating.None? || b.rating.value == 0.0
  }

  /** `selectedGenres.some(g => book.genres?.includes(g))` */
  predicate SharesGenre(b: Book, selected: seq<string>) {
    b.genres.Some? && exists g :: g in selected && g in b.genres.value
  }

  /** The filter callback, one early `return false` per test. */
  predicate Passes(c: Criteria, b: Book)
    ensures Passes(c, b) ==> c.selectedStatus == ALL || b.status == c.selectedStatus
    ensures Passes(c, b) ==> c.selectedCategory == ALL || b.category == c.selectedCategory
    ensures Passes(c, b) ==> InRatingBucket(c.ratingFilter, b)
  {
    if c.searchTerm != "" && !Contains(Lower(b.title), Lower(c.searchTerm)) then false
    else if c.selectedStatus != ALL && b.status != c.selectedStatus then false
    else if c.selectedCategory != ALL && b.category != c.selectedCategory then false
    else if |c.selectedGenres| > 0 && !SharesGenre(b, c.selectedGenres) then false
    else if c.ratingFilter != ALL && (
      || (c.ratingFilter == "rated" && RatingFalsy(b))
      || (c.ratingFilter == "unrated" && !RatingFalsy(b))
      || (c.ratingFilter == "high" && (RatingFalsy(b) || b.rating.value < 4.0)))
    then false
    else true
  }

  /** The rating buckets in words: "rated" keeps a present non-zero
      rating, "unrated" keeps a missing or zero one, "high" a present
      non-zero one of at least 4; any other value keeps everything. */
  predicate InRatingBucket(bucket: string, b: Book) {
    if bucket == "rated" then b.rating.Some? && b.rating.value != 0.0
    else if bucket == "unrated" then b.rating.None? || b.rating.value == 0.0
    else if bucket == "high" then b.rating.Some? && b.rating.value != 0.0 && b.rating.value >= 4.0
    else true
  }

  /** A book passes exactly when it passes every test: the conjunction of
      the search, status, category, genre and rating-bucket conditions. */
  lemma PassesIff(c: Criteria, b: Book)
    ensures Passes(c, b) <==>
      && Contains(Lower(b.title), Lower(c.searchTerm))
      && (c.selectedStatus == ALL || b.status == c.selectedStatus)
      && (c.selectedCategory == ALL || b.category == c.selectedCategory)
      && (c.selectedGenres == [] || SharesGenre(b, c.selectedGenres))
      && InRatingBucket(c.ratingFilter, b)
  {
    if c.searchTerm == "" {
      assert Lower(c.searchTerm) == [];
      ContainsEmpty(Lower(b.title));
    }
  }

  /** `books.filter(...)`: the passing books, in their original order. */
  function Keep(books: seq<Book>, c: Criteria): (r: seq<Book>)
    ensures forall b :: b in r <==> b in books && Passes(c, b)
    ensures multiset(r) <= multiset(books)
    ensures |r| <= |books|
  {
    if books == [] then []
    else
      assert books == [books[0]] + books[1..];
      var tail := Keep(books[1..], c);
      if Passes(c, books[0]) then [books[0]] + tail else tail
  }

  /** A list all of whose books pass is kept as it is. */
  lemma {:induction false} KeepAll(books: seq<Book>, c: Criteria)
    requires forall i :: 0 <= i < |books| ==> Passes(c, books[i])
    ensures Keep(books, c) == books
  {
    if books != [] {
      KeepAll(books[1..], c);
      assert books == [books[0]] + books[1..];
    }
  }

  // ---------------------------------------------------------------------
  // The sort and the displayed list
  // ---------------------------------------------------------------------

  /** The comparator chosen by `sortBy`; an unknown key sorts as "recent",
      newest `createdAt` first. */
  function OrderOf(sortBy: string): (o: Order)
    ensures sortBy == "title" <==> o == ByTitle
    ensures sortBy == "rating" <==> o == ByRatingDesc
    ensures sortBy == "status" <==> o == ByStatus
    ensures sortBy == "category" <==> o == ByCategory
    ensures o != ByUpdatedDesc
  {
    if sortBy == "title" then ByTitle
    else if sortBy == "rating" then ByRatingDesc
    else if sortBy == "status" then ByStatus
    else if sortBy == "category" then ByCategory
    else ByCreatedDesc
  }

  /** `filteredBooks`: the passing books, sorted by the chosen key. It is a
      permutation of the passing books, so never longer than the input. */
  function FilteredBooks(books: seq<Book>, c: Criteria): (r: seq<Book>)
    ensures multiset(r) == multiset(Keep(books, c))
    ensures forall b :: b in r <==> b in books && Passes(c, b)
    ensures |r| <= |books|
    ensures Sorted(OrderOf(c.sortBy), r)
  {
    var kept := Keep(books, c);
    var r := SortBy(OrderOf(c.sortBy), kept);
    assert |r| == |multiset(r)| == |multiset(kept)| == |kept|;
    assert forall b :: b in r <==> b in multiset(kept);
    r
  }

  /** Running the filter and sort again on its own output changes
      nothing. */
  lemma FilteredBooksIdempotent(books: seq<Book>, c: Criteria)
    ensures FilteredBooks(FilteredBooks(books, c), c) == FilteredBooks(books, c)
  {
    var r := FilteredBooks(books, c);
    assert forall i :: 0 <= i < |r| ==> r[i] in r;
    KeepAll(r, c);
    SortBySorted(OrderOf(c.sortBy), r);
  }

  /** The initial criteria let every book through. */
  lemma DefaultPasses(b: Book)
    ensures Passes(DEFAULT_CRITERIA, b)
  {
  }

  /** With the initial criteria every book is shown, newest first. */
  lemma DefaultShowsAll(books: seq<Book>)
    ensures multiset(FilteredBooks(books, DEFAULT_CRITERIA)) == multiset(books)
    ensures Sorted(ByCreatedDesc, FilteredBooks(books, DEFAULT_CRITERIA))
  {
    forall i | 0 <= i < |books| ensures Passes(DEFAULT_CRITERIA, books[i]) {
      DefaultPasses(books[i]);
    }
    KeepAll(books, DEFAULT_CRITERIA);
    assert OrderOf(DEFAULT_CRITERIA.sortBy) == ByCreatedDesc by {
      assert DEFAULT_CRITERIA.sortBy == "recent";
      assert "recent"[0] != "title"[0] && "recent"[0] != "status"[0];
      assert "recent"[1] != "rating"[1];
      assert "recent"[0] != "category"[0];
    }
  }

  // ---------------------------------------------------------------------
  // Genre choices
  // ---------------------------------------------------------------------

  /** A book's genre list; a null list has no genres. */
  function GenresOf(b: Book): seq<string> {
    b.genres.GetOr([])
  }

  /** Every genre that some book lists. */
  function GenreUnion(books: seq<Book>): set<string> {
    if books == [] then {}
    else GenreUnion(books[..|books| - 1]) + Elements(GenresOf(books[|books| - 1]))
  }

  function Elements(s: seq<string>): (r: set<string>)
    ensures forall x :: x in r <==> x in s
  {
    set i | 0 <= i < |s| :: s[i]
  }

  predicate StrictlyAscending(s: seq<string>) {
    forall i, j :: 0 <= i < j < |s| ==> LexLt(s[i], s[j])
  }

  /** Inserts a new string into a strictly ascending list. */
  function InsertString(s: seq<string>, x: string): (r: seq<string>)
    requires StrictlyAscending(s) && x !in s
    ensures StrictlyAscending(r)
    ensures forall y :: y in r <==> y in s || y == x
  {
    if s == [] then [x]
    else if LexLeq(x, s[0]) then
      assert forall j :: 0 <= j < |s| ==> LexLt(x, s[j]) by {
        forall j | 0 <= j < |s| ensures LexLt(x, s[j]) {
          if j > 0 { LexLeqTransitive(x, s[0], s[j]); }
          assert s[j] in s;
        }
      }
      PrependAscending(x, s);
      [x] + s
    else
      var t := InsertString(s[1..], x);
      assert StrictlyAscending(s[1..]) by {
        forall i, j | 0 <= i < j < |s[1..]| ensures LexLt(s[1..][i], s[1..][j]) {
          assert s[1..][i] == s[i + 1] && s[1..][j] == s[j + 1];
        }
      }
      assert forall j :: 0 <= j < |t| ==> LexLt(s[0], t[j]) by {
        forall j | 0 <= j < |t| ensures LexLt(s[0], t[j]) {
          assert t[j] in t;
          if t[j] == x {
            LexLeqTotal(x, s[0]);
          } else {
            var k :| 0 <= k < |s[1..]| && s[1..][k] == t[j];
            assert s[k + 1] == t[j];
          }
        }
      }
      PrependAscending(s[0], t);
      assert s == [s[0]] + s[1..];
      [s[0]] + t
  }

  lemma PrependAscending(x: string, s: seq<string>)
    requires StrictlyAscending(s)
    requires forall j :: 0 <= j < |s| ==> LexLt(x, s[j])
    ensures StrictlyAscending([x] + s)
  {
    var r := [x] + s;
    forall i, j | 0 <= i < j < |r| ensures LexLt(r[i], r[j]) {
      assert r[j] == s[j - 1];
      if i > 0 { assert r[i] == s[i - 1]; }
    }
  }

  /** `allGenres`: every book's genres gathered into a set, then
      `Array.from(set).sort()`. The result lists each genre of the union
      exactly once, in ascending order. */
  method AllGenres(books: seq<Book>) returns (r: seq<string>)
    ensures forall g :: g in r <==> g in GenreUnion(books)
    ensures StrictlyAscending(r) && Distinct(r)
  {
    var genres: set<string> := {};
    var i := 0;
    while i < |books|
      invariant 0 <= i <= |books|
      invariant genres == GenreUnion(books[..i])
    {
      var gs := GenresOf(books[i]);
      var j := 0;
      while j < |gs|
        invariant 0 <= j <= |gs|
        invariant genres == GenreUnion(books[..i]) + Elements(gs[..j])
      {
        assert gs[..j + 1] == gs[..j] + [gs[j]];
        genres := genres + {gs[j]};
        j := j + 1;
      }
      assert gs[..j] == gs;
      assert books[..i + 1][..i] == books[..i];
      i := i + 1;
    }
    assert books[..i] == books;
    r := [];
    var rest := genres;
    while rest != {}
      invariant rest <= genres
      invariant StrictlyAscending(r)
      invariant forall g :: g in r <==> g in genres && g !in rest
      decreases |rest|
    {
      var g :| g in rest;
      r := InsertString(r, g);
      rest := rest - {g};
    }
    forall i, j | 0 <= i < j < |r| ensures r[i] != r[j] { }
  }

  // ---------------------------------------------------------------------
  // The handlers
  // ---------------------------------------------------------------------

  /** `handleGenreToggle` on the selected list: a selected genre is
      removed, an unselected one appended. */
  function Toggled(selected: seq<string>, g: string): (r: seq<string>)
    ensures g in selected ==> g !in r && forall x :: x in r <==> x in selected && x != g
    ensures g !in selected ==> r == selected + [g]
  {
    if g in selected then Without(selected, g) else selected + [g]
  }

  /** Toggling keeps the selection free of duplicates. */
  lemma ToggledDistinct(selected: seq<string>, g: string)
    requires Distinct(selected)
    ensures Distinct(Toggled(selected, g))
  {
    if g in selected {
      WithoutDistinct(selected, g);
    } else {
      AppendFresh([g], selected);
    }
  }

  /** Toggling an unselected genre twice restores the selection. */
  lemma ToggledTwice(selected: seq<string>, g: string)
    requires g !in selected
    ensures Toggled(Toggled(selected, g), g) == selected
  {
    WithoutAppend(selected, [g], g);
    WithoutAbsent(selected, g);
    assert Without([g], g) == [];
  }

  /** `hasActiveFilters` */
  predicate HasActiveFilters(c: Criteria)
    ensures c.sortBy != "recent" ==> HasActiveFilters(c)
    ensures HasActiveFilters(c) ==> c != DEFAULT_CRITERIA
  {
    || c.searchTerm != ""
    || c.selectedStatus != ALL
    || c.selectedCategory != ALL
    || |c.selectedGenres| > 0
    || c.ratingFilter != ALL
    || c.sortBy != "recent"
  }

  /** Filters are active exactly when some criterion, the sort key
      included, differs from its initial value. */
  lemma ActiveIffChanged(c: Criteria)
    ensures HasActiveFilters(c) <==> c != DEFAULT_CRITERIA
  {
  }

  /** The panel's state, one field per state variable. */
  class FilterPanel {
    var searchTerm: string
    var selectedStatus: string
    var selectedCategory: string
    var selectedGenres: seq<string>
    var ratingFilter: string
    var sortBy: string

    function Current(): Criteria
      reads this
    {
      Criteria(searchTerm, selectedStatus, selectedCategory, selectedGenres, ratingFilter, sortBy)
    }

    ghost predicate Valid()
      reads this
    {
      Distinct(selectedGenres)
    }

    constructor ()
      ensures Valid() && Current() == DEFAULT_CRITERIA
    {
      searchTerm, selectedStatus, selectedCategory := "", ALL, ALL;
      selectedGenres, ratingFilter, sortBy := [], ALL, "recent";
    }

    /** `handleGenreToggle` */
    method ToggleGenre(g: string)
      requires Valid()
      modifies this
      ensures Valid()
      ensures Current() == old(Current()).(selectedGenres := Toggled(old(selectedGenres), g))
    {
      ToggledDistinct(selectedGenres, g);
      selectedGenres := Toggled(selectedGenres, g);
    }

    /** `handleClearFilters` */
    method ClearFilters()
      modifies this
      ensures Valid() && Current() == DEFAULT_CRITERIA && !HasActiveFilters(Current())
    {
      searchTerm, selectedStatus, selectedCategory := "", ALL, ALL;
      selectedGenres, ratingFilter, sortBy := [], ALL, "recent";
    }
  }
}
