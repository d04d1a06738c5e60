/** The "edit entry" dialog: a form loaded from an existing row, and the
    submit handler that writes the whole form back through `updateBook`. */
module EditEntry {
  import opened Wrappers
  import opened Lists
  import opened Text
  import opened Schema
  import opened Store
  import opened Forms

  /** `book.rating?.toString() || ""`: the rating's decimal text, or the
      empty string when there is none. */
  function RatingText(rating: Option<real>): (s: string)
    ensures s == [] <==> rating.None?
  {
    if rating.None? then [] else NumberText(rating.value)
  }

  /** The form the dialog starts from: each field is the book's value with
      the `||` fallback of the initial state, so an empty category or
      status falls back to its default. */
  function InitialForm(book: Option<Book>): (f: FormData)
    ensures book.None? ==> f == EMPTY_FORM
    ensures book.Some? ==> f.title == book.value.title && f.rating == RatingText(book.value.rating)
    ensures book.Some? && book.value.category != [] ==> f.category == book.value.category
    ensures book.Some? && book.value.status != [] ==> f.status == book.value.status
    ensures book.Some? && book.value.category == [] ==> f.category == DEFAULT_CATEGORY
    ensures book.Some? && book.value.status == [] ==> f.status == DEFAULT_STATUS
    ensures book.Some? ==> f.imageUrl == book.value.imageUrl.GetOr([]) && f.notes == book.value.notes.GetOr([])
    ensures f.category != [] && f.status != []
  {
    if book.None? then EMPTY_FORM
    else
      var b := book.value;
      FormData(b.title, OrElse(Some(b.category), DEFAULT_CATEGORY), OrElse(Some(b.status), DEFAULT_STATUS),
        OrElse(b.imageUrl, []), RatingText(b.rating), OrElse(b.notes, []))
  }

  /** The form the reload effect writes when the book changes: the book's
      own title, category and status, and empty text for missing optional
      fields. */
  function FormOf(b: Book): (f: FormData)
    ensures f.title == b.title && f.category == b.category && f.status == b.status
    ensures f.imageUrl == b.imageUrl.GetOr([]) && f.notes == b.notes.GetOr([])
    ensures f.rating == RatingText(b.rating)
  {
    FormData(b.title, b.category, b.status, OrElse(b.imageUrl, []), RatingText(b.rating), OrElse(b.notes, []))
  }

  /** The initial state and the reload agree on every row whose category
      and status are non-empty, which every row `createBook` inserts is. */
  lemma InitialMatchesReload(b: Book)
    requires b.category != [] && b.status != []
    ensures InitialForm(Some(b)) == FormOf(b)
  {
  }

  /** `book.genres || []` */
  function InitialGenres(book: Option<Book>): (gs: seq<string>)
    ensures book.Some? && book.value.genres.Some? ==> gs == book.value.genres.value
    ensures book.None? || book.value.genres.None? ==> gs == []
  {
    if book.None? then [] else book.value.genres.GetOr([])
  }

  /** A rating the text box writes back exactly: a whole number. */
  predicate WholeRating(b: Book) {
    b.rating.None? || (b.rating.value >= 0.0 && b.rating.value == b.rating.value.Floor as real)
  }

  /** An optional text field that the form shows and reads back exactly:
      missing, or trimmed and non-empty. */
  predicate ShowsExactly(text: Option<string>) {
    text.Some? ==> text.value != [] && IsTrimmed(text.value)
  }

  /** A rating the text box shows and reads back exactly and that passes
      validation: missing, or a whole number from 0 to 5. */
  predicate RatingShowsExactly(rating: Option<real>) {
    rating.Some? ==> 0.0 <= rating.value <= 5.0 && rating.value == rating.value.Floor as real
  }

  /** Reloading a book and submitting the form untouched writes back the
      same category, status and genre list (a null list as the empty
      one), and the same title, image, notes and rating whenever the form
      can show them exactly. */
  lemma ReloadedPatch(b: Book, now: Timestamp)
    ensures var r := Apply(b, EditPatch(FormOf(b), InitialGenres(Some(b)), b.userId), now);
      && r.category == b.category && r.status == b.status && r.genres == Some(b.genres.GetOr([]))
      && r.id == b.id && r.userId == b.userId && r.createdAt == b.createdAt && r.updatedAt == now
      && (b.title != [] && IsTrimmed(b.title) ==> r.title == b.title)
      && (ShowsExactly(b.imageUrl) ==> r.imageUrl == b.imageUrl)
      && (ShowsExactly(b.notes) ==> r.notes == b.notes)
      && (RatingShowsExactly(b.rating) ==> r.rating == b.rating)
  {
    if b.title != [] && IsTrimmed(b.title) {
      TrimOfTrimmed(b.title);
    }
    if ShowsExactly(b.imageUrl) {
      OptionalTextRoundTrip(b.imageUrl);
    }
    if ShowsExactly(b.notes) {
      OptionalTextRoundTrip(b.notes);
    }
    if RatingShowsExactly(b.rating) {
      RatingRoundTrip(b.rating);
    }
  }

  /** Opening a well-formed row with a whole-number rating and a genre list
      and submitting it untouched passes validation and writes the row
      back as it was, apart from `updatedAt`. */
  lemma UnchangedEditRoundTrip(b: Book, now: Timestamp)
    requires WellFormed(b) && WholeRating(b) && b.genres.Some?
    ensures FormAcceptable(FormOf(b))
    ensures Apply(b, EditPatch(FormOf(b), b.genres.value, b.userId), now) == b.(updatedAt := now)
  {
    ReloadedPatch(b, now);
    RatingRoundTrip(b.rating);
    TrimOfTrimmed(b.title);
  }

  /** An optional text field shown as `value || ""` and read back with
      `trim() || null` is unchanged when it is missing or trimmed and
      non-empty. */
  lemma OptionalTextRoundTrip(text: Option<string>)
    requires ShowsExactly(text)
    ensures NullIfBlank(OrElse(text, [])) == text
  {
    if text.Some? {
      TrimOfTrimmed(text.value);
    }
  }

  /** A missing or whole-number rating from 0 to 5 shown with `toString`
      and read back with `Number` is unchanged and passes validation. */
  lemma RatingRoundTrip(rating: Option<real>)
    requires RatingShowsExactly(rating)
    ensures RatingValue(RatingText(rating)) == rating
    ensures RatingAcceptable(RatingText(rating))
  {
    if rating.Some? {
      var n: nat := rating.value.Floor;
      ParseNatText(n);
    }
  }

  class EditEntryForm {
    /** The `book` prop; `None` while no book is selected. */
    var book: Option<Book>
    var form: FormData
    var genres: seq<string>
    var newGenre: string
    var errors: FieldErrors

    /** The state of the first render. React then runs the `[book]` effect
        once after mounting, so a dialog mounted with a book goes on to the
        state `BookChanged(selected)` gives, which differs from this one
        only when the book's category or status is empty. */
    constructor (selected: Option<Book>)
      ensures book == selected && form == InitialForm(selected) && genres == InitialGenres(selected)
      ensures newGenre == [] && errors == NO_ERRORS
    {
      book := selected;
      form := InitialForm(selected);
      genres := InitialGenres(selected);
      newGenre := [];
      errors := NO_ERRORS;
    }

    /** The effect run when the `book` prop changes: a selected book is
        loaded into the form and the errors cleared; the text in the genre
        input is kept. With no book the form is left as it was. */
    method BookChanged(selected: Option<Book>)
      modifies this
      ensures book == selected && newGenre == old(newGenre)
      ensures selected.Some? ==> form == FormOf(selected.value) && genres == InitialGenres(selected) && errors == NO_ERRORS
      ensures selected.None? ==> form == old(form) && genres == old(genres) && errors == old(errors)
    {
      book := selected;
      if selected.Some? {
        form := FormOf(selected.value);
        genres := InitialGenres(selected);
        errors := NO_ERRORS;
      }
    }

    /** `validateForm` */
    method ValidateForm() returns (ok: bool)
      modifies this
      ensures errors == Validate(form)
      ensures ok <==> FormAcceptable(form)
      ensures book == old(book) && form == old(form) && genres == old(genres) && newGenre == old(newGenre)
    {
      var found := Validate(form);
      ok := found.Count() == 0;
      errors := found;
    }

    /** `handleAddGenre` */
    method AddGenre()
      modifies this
      ensures genres == WithGenre(old(genres), old(newGenre)).0
      ensures newGenre == WithGenre(old(genres), old(newGenre)).1
      ensures book == old(book) && form == old(form) && errors == old(errors)
    {
      var next := WithGenre(genres, newGenre);
      genres, newGenre := next.0, next.1;
    }

    /** `handleRemoveGenre` */
    method RemoveGenre(g: string)
      modifies this
      ensures genres == Without(old(genres), g) && g !in genres
      ensures book == old(book) && form == old(form) && newGenre == old(newGenre) && errors == old(errors)
    {
      genres := Without(genres, g);
    }

    /** `handleSubmit`: validate; with a valid form, a book and a signed-in
        user, hand the whole form to `updateBook` for the book's id under
        the user's id. Otherwise the table is left alone. */
    method HandleSubmit(userId: Option<OwnerId>, table: BookTable, now: Timestamp) returns (r: Option<Result<Book>>)
      requires table.Valid()
      modifies this, table
      ensures table.Valid()
      ensures form == old(form) && genres == old(genres) && book == old(book) && newGenre == old(newGenre)
      ensures errors == Validate(form)
      ensures !FormAcceptable(old(form)) || old(book).None? || !SignedIn(userId) ==>
        r.None? && table.rows == old(table.rows) && table.nextId == old(table.nextId)
      ensures FormAcceptable(old(form)) && old(book).Some? && SignedIn(userId) ==>
        && r.Some?
        && table.nextId == old(table.nextId)
        && (Lookup(old(table.rows), old(book).value.id, userId.value).None? ==>
              r.value == Err(NOT_FOUND_OR_UNAUTHORIZED) && table.rows == old(table.rows))
        && (Lookup(old(table.rows), old(book).value.id, userId.value).Some? ==>
              && r.value == Ok(Apply(Lookup(old(table.rows), old(book).value.id, userId.value).value,
                                     EditPatch(old(form), old(genres), userId.value), now))
              && r.value.value.id == old(book).value.id && WellFormed(r.value.value)
              && r.value.value.userId == userId.value)
        && |table.rows| == |old(table.rows)|
        && forall i :: 0 <= i < |table.rows| ==>
             table.rows[i] == if Selects(IdOwner(old(book).value.id, userId.value), old(table.rows)[i])
                              then Apply(old(table.rows)[i], EditPatch(old(form), old(genres), userId.value), now)
                              else old(table.rows)[i]
    {
      ghost var accepted := FormAcceptable(form);
      var ok := ValidateForm();
      assert ok == accepted;
      if !ok || book.None? || !SignedIn(userId) {
        r := None;
      } else {
        var id, owner := book.value.id, userId.value;
        var patch := EditPatch(form, genres, owner);
        ghost var found := Lookup(table.rows, id, owner);
        if found.Some? {
          EditedRowWellFormed(found.value, form, genres, owner, now);
        }
        ghost var f, e, n := form, errors, newGenre;
        var result := table.UpdateBook(id, owner, patch, now);
        assert form == f && errors == e && newGenre == n;
        r := Some(result);
      }
    }
  }
}
