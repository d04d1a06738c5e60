/** The "add entry" dialog: its state and handlers, with the submit
    handler writing through the `books` table. */
module CreateEntry {
  import opened Wrappers
  import opened Lists
  import opened Text
  import opened Schema
  import opened Store
  import opened Forms

  class CreateEntryForm {
    var isOpen: bool
    var form: FormData
    var genres: seq<string>
    var newGenre: string
    var errors: FieldErrors

    /** The state after `resetForm`; the dialog's openness is apart. */
    ghost predicate Pristine()
      reads this
    {
      form == EMPTY_FORM && genres == [] && newGenre == [] && errors == NO_ERRORS
    }

    /** Every list the genre editor builds is clean. */
    ghost predicate Valid()
      reads this
    {
      CleanGenres(genres)
    }

    constructor ()
      ensures Valid() && Pristine() && !isOpen
    {
      isOpen := false;
      form, genres, newGenre, errors := EMPTY_FORM, [], [], NO_ERRORS;
    }

    /** `resetForm` */
    method ResetForm()
      modifies this
      ensures Valid() && Pristine() && isOpen == old(isOpen)
    {
      form, genres, newGenre, errors := EMPTY_FORM, [], [], NO_ERRORS;
    }

    /** `handleOpenChange`: closing the dialog also resets the form. */
    method OpenChange(open: bool)
      requires Valid()
      modifies this
      ensures Valid() && isOpen == open
      ensures !open ==> Pristine()
      ensures open ==> form == old(form) && genres == old(genres) && newGenre == old(newGenre) && errors == old(errors)
    {
      isOpen := open;
      if !open {
        ResetForm();
      }
    }

    /** `validateForm`: records the errors and reports whether there are
        none. */
    method ValidateForm() returns (ok: bool)
      requires Valid()
      modifies this
      ensures Valid() && errors == Validate(form)
      ensures ok <==> FormAcceptable(form)
      ensures form == old(form) && genres == old(genres) && newGenre == old(newGenre) && isOpen == old(isOpen)
    {
      var found := Validate(form);
      ok := found.Count() == 0;
      errors := found;
    }

    /** `handleAddGenre` */
    method AddGenre()
      requires Valid()
      modifies this
      ensures Valid()
      ensures genres == WithGenre(old(genres), old(newGenre)).0
      ensures newGenre == WithGenre(old(genres), old(newGenre)).1
      ensures form == old(form) && errors == old(errors) && isOpen == old(isOpen)
    {
      WithGenreClean(genres, newGenre);
      var next := WithGenre(genres, newGenre);
      genres, newGenre := next.0, next.1;
    }

    /** `handleRemoveGenre` */
    method RemoveGenre(g: string)
      requires Valid()
      modifies this
      ensures Valid() && g !in genres
      ensures genres == Without(old(genres), g)
      ensures form == old(form) && newGenre == old(newGenre) && errors == old(errors) && isOpen == old(isOpen)
    {
      WithoutClean(genres, g);
      genres := Without(genres, g);
    }

    /** `handleSubmit`: validate; with a valid form and a signed-in user,
        insert the row built from the form, then close and reset the
        dialog. Otherwise the table is left alone. */
    method HandleSubmit(userId: Option<OwnerId>, table: BookTable, now: Timestamp) returns (created: Option<Book>)
      requires Valid() && table.Valid()
      modifies this, table
      ensures Valid() && table.Valid()
      ensures !FormAcceptable(old(form)) || !SignedIn(userId) ==>
        && created.None? && table.rows == old(table.rows) && table.nextId == old(table.nextId)
        && form == old(form) && errors == Validate(form) && genres == old(genres) && isOpen == old(isOpen)
        && newGenre == old(newGenre)
      ensures FormAcceptable(old(form)) && SignedIn(userId) ==>
        && created == Some(NewRow(old(table.nextId), CreateInput(old(form), old(genres), userId.value), now))
        && table.rows == old(table.rows) + [created.value]
        && table.nextId == old(table.nextId) + 1
        && WellFormed(created.value)
        && !isOpen && Pristine()
    {
      ghost var accepted := FormAcceptable(form);
      var ok := ValidateForm();
      assert ok == accepted;
      if !ok || !SignedIn(userId) {
        created := None;
      } else {
        CreatedRowWellFormed(form, genres, userId.value, table.nextId, now);
        var b := Submit(userId.value, table, now);
        created := Some(b);
      }
    }

    /** The successful half of `handleSubmit`: insert, close, reset. */
    method Submit(owner: OwnerId, table: BookTable, now: Timestamp) returns (created: Book)
      requires Valid() && table.Valid()
      modifies this, table
      ensures Valid() && table.Valid()
      ensures created == NewRow(old(table.nextId), CreateInput(old(form), old(genres), owner), now)
      ensures table.rows == old(table.rows) + [created] && table.nextId == old(table.nextId) + 1
      ensures !isOpen && Pristine()
    {
      var r := table.CreateBook(CreateInput(form, genres, owner), now);
      ghost var rows, nextId := table.rows, table.nextId;
      isOpen := false;
      ResetForm();
      assert table.rows == rows && table.nextId == nextId;
      created := r.value;
    }
  }
}
