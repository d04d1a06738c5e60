/** What the "add entry" and "edit entry" dialogs have in common: the
    form's text fields, their validation, the genre list editor and the
    payload built from a submitted form. */
module Forms {
  import opened Wrappers
  import opened Lists
  import opened Text
  import opened Schema
  import opened Store

  const TITLE_REQUIRED: string := "Title is required"
  const RATING_RANGE: string := "Rating must be between 0 and 5"

  /** The text inputs of a dialog; `rating` is what the user typed. */
  datatype FormData = FormData(
    title: string,
    category: string,
    status: string,
    imageUrl: string,
    rating: string,
    notes: string)

  /** A signed-in user id, as `if (!userId) return` reads it: a missing
      or empty id means nobody is signed in. */
  predicate SignedIn(userId: Option<OwnerId>) {
    userId.Some? && userId.value != []
  }

  /** The form of a fresh "add entry" dialog. */
  const EMPTY_FORM: FormData := FormData("", DEFAULT_CATEGORY, DEFAULT_STATUS, "", "", "")

  // ---------------------------------------------------------------------
  // Validation
  // ---------------------------------------------------------------------

  /** The rating input is accepted when it is empty, or when it reads as a
      number from 0 to 5 inclusive. */
  predicate RatingAcceptable(text: string) {
    text == [] || (ParseNumber(text).Some? && 0.0 <= ParseNumber(text).value <= 5.0)
  }

  /** A form that `validateForm` lets through. */
  predicate FormAcceptable(f: FormData) {
    !IsBlank(f.title) && RatingAcceptable(f.rating)
  }

  /** `validateForm`'s error record. The record only ever holds the keys
      `title` and `rating`, so it is a value with one optional message per
      key. */
  datatype FieldErrors = FieldErrors(title: Option<string>, rating: Option<string>) {
    /** `Object.keys(errors).length` */
    function Count(): (n: nat)
      ensures n == 0 <==> this == NO_ERRORS
      ensures n <= 2
    {
      (if title.Some? then 1 else 0) + (if rating.Some? then 1 else 0)
    }
  }

  const NO_ERRORS: FieldErrors := FieldErrors(None, None)

  /** `validateForm`'s errors: a title message when the title is blank, a
      rating message when the rating is given but is not a number in
      0..5; the form is valid when there are none. */
  function Validate(f: FormData): (errors: FieldErrors)
    ensures errors.title.Some? <==> IsBlank(f.title)
    ensures errors.title.Some? ==> errors.title.value == TITLE_REQUIRED
    ensures errors.rating.Some? <==> !RatingAcceptable(f.rating)
    ensures errors.rating.Some? ==> errors.rating.value == RATING_RANGE
    ensures errors.Count() == 0 <==> FormAcceptable(f)
  {
    var n := ParseNumber(f.rating);
    FieldErrors(
      if Trim(f.title) == [] then Some(TITLE_REQUIRED) else None,
      if f.rating != [] && (n.None? || n.value < 0.0 || n.value > 5.0) then Some(RATING_RANGE) else None)
  }

  // ---------------------------------------------------------------------
  // The payload
  // ---------------------------------------------------------------------

  /** `s.trim() || null`: the trimmed text, or nothing when it is blank. */
  function NullIfBlank(s: string): (r: Option<string>)
    ensures r.None? <==> IsBlank(s)
    ensures r.Some? ==> r.value == Trim(s) && r.value != [] && IsTrimmed(r.value)
  {
    var t := Trim(s);
    if t == [] then None else Some(t)
  }

  /** `rating ? Number(rating) : null`; a rating that does not read as a
      number is never submitted, because validation stops it first. */
  function RatingValue(text: string): (r: Option<real>)
    ensures text == [] ==> r.None?
    ensures text != [] ==> r == ParseNumber(text)
    ensures RatingAcceptable(text) && text != [] ==> r.Some? && 0.0 <= r.value <= 5.0
  {
    if text == [] then None else ParseNumber(text)
  }

  /** The object the "add entry" dialog hands to `createBook`. */
  function CreateInput(f: FormData, genres: seq<string>, owner: OwnerId): (r: BookInput)
    ensures r.title == Trim(f.title) && r.userId == owner
    ensures r.category == Some(f.category) && r.status == Some(f.status)
    ensures r.genres == Some(genres)
    ensures r.imageUrl == NullIfBlank(f.imageUrl) && r.notes == NullIfBlank(f.notes)
    ensures r.rating == RatingValue(f.rating)
  {
    BookInput(Trim(f.title), Some(f.category), Some(f.status), NullIfBlank(f.imageUrl),
      RatingValue(f.rating), Some(genres), NullIfBlank(f.notes), owner)
  }

  /** The update the "edit entry" dialog hands to `updateBook`: every
      field of the form is written, the owner included. */
  function EditPatch(f: FormData, genres: seq<string>, owner: OwnerId): (p: BookPatch)
    ensures p.title == Put(Trim(f.title)) && p.userId == Put(owner)
    ensures p.category == Put(f.category) && p.status == Put(f.status)
    ensures p.genres == Put(Some(genres))
    ensures p.imageUrl == Put(NullIfBlank(f.imageUrl)) && p.notes == Put(NullIfBlank(f.notes))
    ensures p.rating == Put(RatingValue(f.rating))
  {
    BookPatch(Put(Trim(f.title)), Put(f.category), Put(f.status), Put(NullIfBlank(f.imageUrl)),
      Put(RatingValue(f.rating)), Put(Some(genres)), Put(NullIfBlank(f.notes)), Put(owner))
  }

  /** A row as a validated form leaves it: a trimmed, non-blank title,
      optional text that is trimmed and non-blank when present, and a
      rating from 0 to 5 when present. */
  predicate WellFormed(b: Book) {
    && b.title != [] && IsTrimmed(b.title)
    && (b.imageUrl.Some? ==> b.imageUrl.value != [] && IsTrimmed(b.imageUrl.value))
    && (b.notes.Some? ==> b.notes.value != [] && IsTrimmed(b.notes.value))
    && (b.rating.Some? ==> 0.0 <= b.rating.value <= 5.0)
  }

  /** A valid "add entry" form creates a well-formed row holding the chosen
      genres under the submitting owner. */
  lemma CreatedRowWellFormed(f: FormData, genres: seq<string>, owner: OwnerId, id: BookId, now: Timestamp)
    requires FormAcceptable(f)
    ensures var b := NewRow(id, CreateInput(f, genres, owner), now);
      WellFormed(b) && b.genres == Some(genres) && b.userId == owner
  {
  }

  /** A valid "edit entry" form leaves a well-formed row, whatever the row
      held before. */
  lemma EditedRowWellFormed(b: Book, f: FormData, genres: seq<string>, owner: OwnerId, now: Timestamp)
    requires FormAcceptable(f)
    ensures var r := Apply(b, EditPatch(f, genres, owner), now);
      WellFormed(r) && r.genres == Some(genres) && r.userId == owner && r.id == b.id
  {
  }

  // ---------------------------------------------------------------------
  // The genre list editor
  // ---------------------------------------------------------------------

  /** `handleAddGenre` on the pair (genre list, text in the genre input):
      a non-blank candidate not yet listed is appended trimmed and the
      input cleared; otherwise nothing changes. */
  function WithGenre(genres: seq<string>, candidate: string): (r: (seq<string>, string))
    ensures r.0 == genres <==> IsBlank(candidate) || Trim(candidate) in genres
    ensures r.0 != genres ==> r.0 == genres + [Trim(candidate)] && r.1 == []
    ensures r.0 == genres ==> r.1 == candidate
  {
    var t := Trim(candidate);
    if t != [] && t !in genres then
      assert |genres + [t]| != |genres|;
      (genres + [t], [])
    else (genres, candidate)
  }

  /** A genre list as the editor builds it: no duplicates, and every
      entry trimmed and non-empty. */
  predicate CleanGenres(genres: seq<string>) {
    Distinct(genres) && forall i :: 0 <= i < |genres| ==> genres[i] != [] && IsTrimmed(genres[i])
  }

  /** Adding a genre keeps the list clean. */
  lemma WithGenreClean(genres: seq<string>, candidate: string)
    requires CleanGenres(genres)
    ensures CleanGenres(WithGenre(genres, candidate).0)
  {
    var t := Trim(candidate);
    if t != [] && t !in genres {
      AppendFresh([t], genres);
    }
  }

  /** `handleRemoveGenre` keeps the list clean. */
  lemma WithoutClean(genres: seq<string>, g: string)
    requires CleanGenres(genres)
    ensures CleanGenres(Without(genres, g))
  {
    WithoutDistinct(genres, g);
    var r := Without(genres, g);
    forall i | 0 <= i < |r| ensures r[i] != [] && IsTrimmed(r[i]) {
      assert r[i] in genres;
    }
  }

  /** Removing a genre just added gives the list back. */
  lemma AddThenRemove(genres: seq<string>, candidate: string)
    requires !IsBlank(candidate) && Trim(candidate) !in genres
    ensures Without(WithGenre(genres, candidate).0, Trim(candidate)) == genres
  {
    var t := Trim(candidate);
    WithoutAppend(genres, [t], t);
    WithoutAbsent(genres, t);
    assert Without([t], t) == [];
  }
}
