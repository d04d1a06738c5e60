# tbrly: a verified model of the reading-list core

tbrly keeps a "to be read" list for each signed-in user. The model covers:

- the `books` table and its owner-scoped server actions;
- the dashboard's filter and sort panel;
- the "add entry" and "edit entry" dialogs;
- the identity provider's user webhook.

Modules follow the source files:

| module | file | models |
|---|---|---|
| `Schema` | schema.dfy | `db/schema.ts`: the `books` row, the insert and partial-update shapes, the two vocabularies |
| `Store` | store.dfy | `actions/tbr-actions.tsx`: class `BookTable`, whose `rows` the write actions reassign; reads and statistics are functions of `rows` |
| `Ordering` | ordering.dfy | the comparators of the dashboard sort and `ORDER BY updatedAt DESC`, with a stable insertion sort |
| `Filters` | filters.dfy | `components/dashboard/tbr-filters.tsx`: criteria, the filter-then-sort list, the genre choices (a loop method), class `FilterPanel` |
| `Forms` | forms.dfy | what both dialogs share: validation, the payloads built from the form, the genre editor |
| `CreateEntry` | create_form.dfy | `components/dashboard/create-tbr-button.tsx`: class `CreateEntryForm` and its handlers |
| `EditEntry` | edit_form.dfy | `components/dashboard/tbr-edit-modal.tsx`: class `EditEntryForm`, its initial state, its reload effect and submit |
| `ClerkWebhook` | webhook.dfy | `app/api/webhooks/clerk/route.ts`: the user record derived from an event, and the dispatch |
| `Text` | text.dfy | the JavaScript string primitives the source relies on: `trim`, `toLowerCase`/`includes`, `Number(...)`, number `toString()`, the or-fallback on strings, code-unit ordering |
| `Lists`, `Wrappers` | lists.dfy, wrappers.dfy | `filter(g => g !== x)` on string lists; `Option` and `Result` |

How the source's effects are modelled:

- **Time.** `new Date()` is a `now: Timestamp` parameter.
- **Signed-in user.** The user id from `useAuth` is an `Option<OwnerId>` parameter.
- **Webhook verification.** `verifyWebhook` is an `Option<Event>` parameter: the verified event, or `None` when verification throws.
- **Database.** The database is the in-memory `BookTable`. The action result envelope `{ success, data | error }` is `Result<T>`.
- **Webhook writes.** The webhook returns the user-table write it would make, as a `Write` value, next to its status and message.

Where the code and the design description disagree, the model follows the code:

- The dashboard's "recent" sort, and any unknown sort key, order by `createdAt`, not by `updatedAt`.
- The rating buckets test truthiness. A rating of 0 counts as "unrated" and is excluded from "rated" and "high".
- `books.userId` is declared as an integer foreign key to `users.id`, but every action compares it with the identity provider's string id. The model types the owner as a string (`OwnerId`) and compares it only for equality.

## Model

| member | source | states |
|---|---|---|
| Schema.StatusPatch | actions/tbr-actions.tsx:137-140 | the status update writes `status` and leaves every other field alone |
| Schema.RatingPatch | actions/tbr-actions.tsx:170-173 | the rating update writes `rating` and leaves every other field alone |
| Schema.Vocabularies | db/schema.ts:70-84 | five distinct categories and five distinct statuses; the column defaults "Book" and "Want to Read" are the first of each |
| Store.Select | actions/tbr-actions.tsx:37-40 | a WHERE clause keeps exactly the rows it matches: membership iff, a sub-multiset of the table |
| Store.Reject | actions/tbr-actions.tsx:192-195 | a DELETE leaves exactly the unmatched rows; deleted plus kept is the old table as a multiset |
| Store.SelectWithinOwner | actions/tbr-actions.tsx:74-75 | every clause names the owner, so restricting to the owner's rows first changes no result |
| Store.AtMostOneById | actions/tbr-actions.tsx:107-114 | with unique ids, an id-and-owner clause matches at most one row |
| Store.NewRow | actions/tbr-actions.tsx:14-23 | the inserted row: category and status fall back to "Book" and "Want to Read" when missing or empty, genres to `[]`, everything else copied; never an empty category or status |
| Store.Apply | actions/tbr-actions.tsx:109-112 | `SET ...updates, updatedAt`: every supplied field written, every other kept, id and `createdAt` unchanged, `updatedAt` is now |
| Store.Lookup | actions/tbr-actions.tsx:51-57 | finds a row iff one matches both id and owner, and what it finds matches both |
| Store.LookupIsolated | actions/tbr-actions.tsx:52-53 | a lookup depends only on the caller's own rows: another owner's row is indistinguishable from a missing one |
| Store.OtherOwnerFindsNothing | actions/tbr-actions.tsx:113 | with unique ids, any owner other than a row's own finds nothing under that row's id |
| Store.StatusCountsBounded | actions/tbr-actions.tsx:276-283 | the five status counts add up to at most the number of books |
| Store.RatedCountBounded | actions/tbr-actions.tsx:286-289 | the rated books are at most all books |
| Store.RatingSumBounded | actions/tbr-actions.tsx:285-287 | with ratings in 0..5, the sum lies between 0 and 5 times the rated count |
| Store.CountStatus | actions/tbr-actions.tsx:276-283 | a status count is at most the number of books, and 0 iff no book has that status |
| Store.RatedCount | actions/tbr-actions.tsx:289 | the rated count is 0 iff no book has a rating |
| Store.RatingSum | actions/tbr-actions.tsx:285-287 | with no rated book the sum is 0 |
| Store.AverageRating | actions/tbr-actions.tsx:284-288 | 0 when nothing is rated; otherwise the value whose product with the rated count is the rating sum; within 0..5 when the ratings are |
| Store.ComputeStats | actions/tbr-actions.tsx:274-290 | total is the count; each status count is `CountStatus` of that status and ratedBooks is `RatedCount`; the status counts add up to at most the total; the average is the rating sum over the rated count, 0 when nothing is rated, within 0..5 when the ratings are |
| Store.AverageBounded | actions/tbr-actions.tsx:284-288 | a sum within 0..5n divided by n > 0 lies within 0..5 |
| Store.StatsExample | actions/tbr-actions.tsx:284-289 | ratings 5, 4, none, 3 give three rated books averaging 4 |
| Store.BookTable.CreateBook | actions/tbr-actions.tsx:10-27 | succeeds and appends exactly `NewRow` with a fresh id, advancing the id counter by one; ids stay unique |
| Store.BookTable.Query | actions/tbr-actions.tsx:37-40 | a clause's rows, most recently updated first: sorted, and a permutation of the selected rows |
| Store.BookTable.GetTBREntries | actions/tbr-actions.tsx:35-46 | a permutation of the owner's rows (each as often as it is stored), newest update first |
| Store.BookTable.GetBooksByStatus | actions/tbr-actions.tsx:71-83 | a permutation of the owner's rows with that status, newest update first |
| Store.BookTable.GetBooksByCategory | actions/tbr-actions.tsx:86-98 | a permutation of the owner's rows with that category, newest update first |
| Store.BookTable.GetBookById | actions/tbr-actions.tsx:49-63 | succeeds iff a row matches both id and owner; otherwise "Book not found" |
| Store.BookTable.UpdateBook | actions/tbr-actions.tsx:101-121 | no owned row: "Book not found or unauthorized" and no change; otherwise the patched row is returned and exactly the matching row is rewritten |
| Store.BookTable.UpdateBookStatus | actions/tbr-actions.tsx:129-149 | as `UpdateBook`, the matching row getting only the new status and update time |
| Store.BookTable.UpdateBookRating | actions/tbr-actions.tsx:157-182 | a rating outside 0..5 is refused before the table is touched; otherwise as `UpdateBook` with only the rating set; success implies the rating was in range |
| Store.BookTable.DeleteBook | actions/tbr-actions.tsx:190-202 | no owned row: the not-found error and no change; otherwise the row is returned and exactly it is removed |
| Store.BookTable.BulkUpdateBookStatus | actions/tbr-actions.tsx:210-235 | an empty id list changes nothing; otherwise exactly the owner's listed rows get the status, and those are returned |
| Store.BookTable.BulkDeleteBooks | actions/tbr-actions.tsx:243-260 | an empty id list changes nothing; otherwise exactly the owner's listed rows are removed and returned |
| Store.BookTable.GetUserReadingStats | actions/tbr-actions.tsx:268-292 | exactly `ComputeStats` of the owner's rows, so its total, counts and average are those of the owner's rows only; the average is within 0..5 when the owner's ratings are |
| Store.RejectValid | actions/tbr-actions.tsx:192-195 | deleting rows keeps ids unique and below the id counter |
| Ordering.LeqTotal | components/dashboard/tbr-filters.tsx:91-108 | every comparator relates any two books one way or the other |
| Ordering.LeqTransitive | components/dashboard/tbr-filters.tsx:91-108 | every comparator is transitive |
| Ordering.SortBy | components/dashboard/tbr-filters.tsx:91 | sorting yields a sorted permutation of its input |
| Ordering.SortBySorted | components/dashboard/tbr-filters.tsx:91-108 | sorting an already sorted list gives it back unchanged |
| Text.Trim | components/dashboard/create-tbr-button.tsx:75 | `trim()` has no outer whitespace, is no longer than its input, and is empty iff the input is blank |
| Text.TrimIsInfix | components/dashboard/create-tbr-button.tsx:99 | the trimmed text is what lies between a whitespace prefix and a whitespace suffix |
| Text.TrimOfTrimmed | components/dashboard/tbr-edit-modal.tsx:102 | trimming a string with no outer whitespace gives it back |
| Text.TrimIdempotent | components/dashboard/create-tbr-button.tsx:128-129 | trimming twice is trimming once |
| Text.OrElse | components/dashboard/tbr-edit-modal.tsx:46-51 | the or-fallback on a string: a present non-empty value, else the fallback |
| Text.Lower | components/dashboard/tbr-filters.tsx:56 | `toLowerCase` keeps the length and folds character by character |
| Text.ContainsEmpty | components/dashboard/tbr-filters.tsx:54-57 | the empty search term occurs in every title |
| Text.ParseNumber | components/dashboard/create-tbr-button.tsx:81-83 | `Number(s)` of a blank string is 0 |
| Text.NumberText | components/dashboard/tbr-edit-modal.tsx:66 | a number's text is never empty |
| Text.ParseNatText | components/dashboard/tbr-edit-modal.tsx:66 | `Number(n.toString())` is `n` for every whole number `n` |
| Text.LexLeqTotal | components/dashboard/tbr-filters.tsx:47 | the code-unit order is total |
| Text.LexLeqTransitive | components/dashboard/tbr-filters.tsx:47 | the code-unit order is transitive |
| Text.LexLeqAntisymmetric | components/dashboard/tbr-filters.tsx:47 | the code-unit order is antisymmetric |
| Lists.Without | components/dashboard/create-tbr-button.tsx:135 | `filter(g => g !== x)` keeps exactly the entries other than `x` |
| Lists.WithoutDistinct | components/dashboard/create-tbr-button.tsx:134-136 | removing an entry keeps a list free of duplicates |
| Filters.Passes | components/dashboard/tbr-filters.tsx:52-88 | a passing book matches the status and category selections (or they are "all") and is in the chosen rating bucket |
| Filters.PassesIff | components/dashboard/tbr-filters.tsx:54-87 | a book passes iff its title contains the search term case-insensitively, status and category match or are "all", it shares a selected genre or none is selected, and its rating bucket matches |
| Filters.Keep | components/dashboard/tbr-filters.tsx:52-88 | the filter keeps exactly the passing books, as a sub-multiset of the input |
| Filters.OrderOf | components/dashboard/tbr-filters.tsx:91-108 | each of "title", "rating", "status" and "category" picks its own comparator, and only it; anything else, "recent" included, sorts by `createdAt`, never by `updatedAt` |
| Filters.FilteredBooks | components/dashboard/tbr-filters.tsx:51-110 | the displayed list is a permutation of the passing books, never longer than the input, sorted by the chosen key |
| Filters.FilteredBooksIdempotent | components/dashboard/tbr-filters.tsx:51-119 | filtering and sorting the displayed list again gives it back |
| Filters.DefaultPasses | components/dashboard/tbr-filters.tsx:31-36 | the initial criteria let every book through |
| Filters.DefaultShowsAll | components/dashboard/tbr-filters.tsx:101-106 | with the initial criteria every book is shown, newest `createdAt` first |
| Filters.AllGenres | components/dashboard/tbr-filters.tsx:40-48 | the genre choices are exactly the union of the books' genres, strictly ascending, without duplicates |
| Filters.Toggled | components/dashboard/tbr-filters.tsx:126-130 | toggling removes a selected genre and appends an unselected one |
| Filters.ToggledDistinct | components/dashboard/tbr-filters.tsx:127-129 | toggling keeps the selection free of duplicates |
| Filters.ToggledTwice | components/dashboard/tbr-filters.tsx:127-129 | toggling an unselected genre twice restores the selection |
| Filters.HasActiveFilters | components/dashboard/tbr-filters.tsx:141-147 | a sort key other than "recent" alone makes the filters active, and active criteria differ from the initial ones |
| Filters.ActiveIffChanged | components/dashboard/tbr-filters.tsx:141-147 | filters are active iff some criterion, the sort key included, differs from its initial value |
| Filters.FilterPanel.constructor | components/dashboard/tbr-filters.tsx:31-36 | the panel starts at the initial criteria |
| Filters.FilterPanel.ToggleGenre | components/dashboard/tbr-filters.tsx:126-130 | only the selected genres change, to their toggled list, which stays duplicate-free |
| Filters.FilterPanel.ClearFilters | components/dashboard/tbr-filters.tsx:132-139 | every criterion returns to its initial value and no filter is active |
| Forms.FieldErrors.Count | components/dashboard/create-tbr-button.tsx:89 | the number of recorded errors is 0 iff the record is empty |
| Forms.Validate | components/dashboard/create-tbr-button.tsx:72-90 | a title error iff the title is blank; a rating error iff the rating is given and is not a number in 0..5; valid iff there is no error |
| Forms.NullIfBlank | components/dashboard/create-tbr-button.tsx:102 | trim, with blank read as null: null iff blank, otherwise the trimmed, non-empty text |
| Forms.RatingValue | components/dashboard/create-tbr-button.tsx:103 | an empty rating is null; any other is `Number(text)`, and an accepted one is a number in 0..5 |
| Forms.CreateInput | components/dashboard/create-tbr-button.tsx:98-107 | the insert payload: trimmed title, category and status as chosen, image and notes trimmed with blank as null, the rating as `RatingValue`, the genre list unchanged, the signed-in owner |
| Forms.EditPatch | components/dashboard/tbr-edit-modal.tsx:101-110 | the update payload writes every field: trimmed title, category and status as chosen, image and notes trimmed with blank as null, the rating as `RatingValue`, the genre list, the signed-in owner |
| Forms.CreatedRowWellFormed | components/dashboard/create-tbr-button.tsx:94-109 | a valid form creates a row with a trimmed non-blank title, trimmed non-blank optional text and a rating in 0..5 |
| Forms.EditedRowWellFormed | components/dashboard/tbr-edit-modal.tsx:97-112 | a valid form leaves the edited row well-formed, with the form's genres and owner, whatever it held before |
| Forms.WithGenre | components/dashboard/create-tbr-button.tsx:127-132 | the list changes iff the candidate is non-blank and its trimmed form is new; it is then appended trimmed and the input cleared |
| Forms.WithGenreClean | components/dashboard/create-tbr-button.tsx:127-132 | adding keeps the list duplicate-free, with every entry trimmed and non-empty |
| Forms.WithoutClean | components/dashboard/create-tbr-button.tsx:134-136 | removing keeps the list clean |
| Forms.AddThenRemove | components/dashboard/create-tbr-button.tsx:127-136 | removing a genre just added gives the list back |
| CreateEntry.CreateEntryForm.constructor | components/dashboard/create-tbr-button.tsx:42-56 | the dialog starts closed with the empty form |
| CreateEntry.CreateEntryForm.ResetForm | components/dashboard/create-tbr-button.tsx:58-70 | the form, genres, genre input and errors return to their initial values |
| CreateEntry.CreateEntryForm.OpenChange | components/dashboard/create-tbr-button.tsx:145-150 | the dialog takes the new openness; closing also resets the form, opening keeps it |
| CreateEntry.CreateEntryForm.ValidateForm | components/dashboard/create-tbr-button.tsx:72-90 | records `Validate(form)` and returns whether the form is acceptable, changing nothing else |
| CreateEntry.CreateEntryForm.AddGenre | components/dashboard/create-tbr-button.tsx:127-132 | genres and input become `WithGenre` of the old ones, and the list stays clean |
| CreateEntry.CreateEntryForm.RemoveGenre | components/dashboard/create-tbr-button.tsx:134-136 | the genre is gone and the rest kept in order |
| CreateEntry.CreateEntryForm.HandleSubmit | components/dashboard/create-tbr-button.tsx:92-125 | an invalid form or no user: nothing is inserted, the errors are recorded and the rest of the dialog is left alone; otherwise exactly the payload's row is appended with the next id, the counter advances, and the dialog is closed and reset |
| CreateEntry.CreateEntryForm.Submit | components/dashboard/create-tbr-button.tsx:109-114 | inserts the payload's row with the next id, then closes and resets the dialog |
| EditEntry.RatingText | components/dashboard/tbr-edit-modal.tsx:50 | the rating's text is empty iff there is no rating |
| EditEntry.InitialForm | components/dashboard/tbr-edit-modal.tsx:45-52 | no book gives the empty form; otherwise the book's title and rating text, its category and status or the defaults when they are empty, and its image and notes or `""`; never an empty category or status |
| EditEntry.FormOf | components/dashboard/tbr-edit-modal.tsx:61-68 | the reload writes the book's title, category and status, and `""` for missing text |
| EditEntry.InitialMatchesReload | components/dashboard/tbr-edit-modal.tsx:45-68 | the initial state and the reload agree on any row with non-empty category and status |
| EditEntry.InitialGenres | components/dashboard/tbr-edit-modal.tsx:54 | the book's genre list, with a null list or no book read as `[]` |
| EditEntry.ReloadedPatch | components/dashboard/tbr-edit-modal.tsx:61-108 | reload then submit untouched writes back the same category, status and genres (null as `[]`), and the same title, image, notes and rating when the form can show them exactly |
| EditEntry.UnchangedEditRoundTrip | components/dashboard/tbr-edit-modal.tsx:61-112 | a well-formed row with a whole rating and a genre list passes validation and is written back as it was, bar `updatedAt` |
| EditEntry.OptionalTextRoundTrip | components/dashboard/tbr-edit-modal.tsx:65-105 | showing missing text as `""` and reading it back trimmed, blank as null, gives back a missing or trimmed non-empty value |
| EditEntry.RatingRoundTrip | components/dashboard/tbr-edit-modal.tsx:66-106 | `toString` then `Number` gives back a missing or whole rating in 0..5, which also passes validation |
| EditEntry.EditEntryForm.constructor | components/dashboard/tbr-edit-modal.tsx:45-56 | the dialog starts from `InitialForm` and `InitialGenres` with no errors |
| EditEntry.EditEntryForm.BookChanged | components/dashboard/tbr-edit-modal.tsx:59-72 | a selected book reloads the form and genres and clears the errors; no book leaves them alone |
| EditEntry.EditEntryForm.ValidateForm | components/dashboard/tbr-edit-modal.tsx:74-92 | records `Validate(form)` and returns whether the form is acceptable |
| EditEntry.EditEntryForm.AddGenre | components/dashboard/tbr-edit-modal.tsx:128-133 | genres and input become `WithGenre` of the old ones |
| EditEntry.EditEntryForm.RemoveGenre | components/dashboard/tbr-edit-modal.tsx:135-137 | the genre is gone and the rest kept |
| EditEntry.EditEntryForm.HandleSubmit | components/dashboard/tbr-edit-modal.tsx:94-126 | invalid form, no book or no user: no call and no change; otherwise, with no owned row, the not-found error and no change, else the row becomes `Apply` of the form's patch, is returned, is well-formed under the user, and no other row changes; the form state is left alone |
| ClerkWebhook.Email | app/api/webhooks/clerk/route.ts:22 | the first address, or `""` when there is none |
| ClerkWebhook.FullName | app/api/webhooks/clerk/route.ts:25 | the "first last" text is blank iff both names are missing or blank |
| ClerkWebhook.DisplayName | app/api/webhooks/clerk/route.ts:23-26 | the username if non-empty, else the trimmed full name if not blank, else "Unknown User"; never empty |
| ClerkWebhook.NewUser | app/api/webhooks/clerk/route.ts:20-30 | keyed by the event id, with the derived email and name, names falling back to "Unknown" and "User", photo to `""` |
| ClerkWebhook.UpdatedFields | app/api/webhooks/clerk/route.ts:51-60 | the updated name, first and last name are never empty |
| ClerkWebhook.UpdateMatchesCreate | app/api/webhooks/clerk/route.ts:51-62 | an update derives exactly the fields a creation would, all but the id |
| ClerkWebhook.HandleWebhook | app/api/webhooks/clerk/route.ts:6-91 | unverified: 400 and no write; created: insert; updated: update keyed by the event id; any other type: 200 and no write |
| ClerkWebhook.WriteKeyedByEventId | app/api/webhooks/clerk/route.ts:20-62 | every write is keyed by the event's user id, and only a verified event writes |

## Left out

- `books.id` has no generator in the schema. `CreateBook` assigns the table's next counter value.
- `books.userId` is modelled as the string owner id the actions compare it with, not as the integer foreign key the schema declares.
- The `users` table and the `with: { user: true }` join of `getBookById` are left out; `GetBookById` returns the row alone.
- `actions/user-actions.ts` is not part of this model. The webhook returns the write it would make instead of performing it.
- `revalidatePath` and the `console` output are left out: they do not change the table.
- The `try`/`catch` envelopes and their generic failure messages are left out: they only translate database and library exceptions, which the model cannot raise.
- The webhook's JSON bodies are left out: the user objects echoed on success, and the `error` key of the 400 body (its text is kept as the message).
- A database error inside the webhook, which the same `catch` turns into a 400, is left out.
- Ratings are `real`: floating-point rounding, NaN and infinities are not modelled.
- Store.ComputeStats: states the average definitionally as a rational number, without floating-point rounding.
- Text.Lower: folds only the ASCII letters A-Z; the rest of Unicode case mapping is left out.
- Text.ParseNumber: reads signed decimal literals only; exponents, hexadecimal, binary and octal forms and `Infinity` read as NaN here, while JavaScript accepts them.
- Text.NumberText: writes at most 17 fraction digits and never exponent notation, so it is JavaScript's shortest round-trip text only for whole numbers below 10^21 (JavaScript writes larger ones in exponent notation). The round trip is proved for whole numbers only (`Text.ParseNatText`, `EditEntry.RatingRoundTrip`).
- Ordering.SortBy: `localeCompare` is modelled as code-unit order, which differs from locale collation (case, accents).
- Strings are sequences of Unicode scalar values, not of UTF-16 code units.
- The JavaScript sort is modelled as a stable insertion sort. Its exact placement of ties is not a promise; the contracts state sortedness and permutation only.
- The optimistic update, delete and undo flows of `tbr-card.tsx` and `delete-tbr-modal.tsx` are left out. They only sequence transitions and toasts around callbacks that the shown files never wire to list state.
- Toasts, the `onSuccess` and `onClose` callbacks, `isPending`, the Enter-key shortcut and all JSX are left out. The dialog's `onClose` after a successful edit belongs to its parent.
- The edit dialog's `HandleSubmit` writes before it learns the outcome; a failed write leaves the form as it was, like the source.
- `onFilteredBooksChange` and the memoisation are left out: the displayed list is a function of the books and the criteria.
