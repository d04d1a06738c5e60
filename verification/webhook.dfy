/** The identity provider's webhook: a verified `user.created` or
    `user.updated` event becomes a user record to insert or update; any
    other event is acknowledged, and an event that fails verification is
    refused. Verification itself is a parameter: the event it yields, or
    nothing. */
module ClerkWebhook {
  import opened Wrappers
  import opened Text

  const USER_CREATED: string := "user.created"
  const USER_UPDATED: string := "user.updated"

  const UNKNOWN_USER: string := "Unknown User"
  const UNKNOWN_FIRST_NAME: string := "Unknown"
  const UNKNOWN_LAST_NAME: string := "User"

  const CREATED_MESSAGE: string := "New user created"
  const UPDATED_MESSAGE: string := "User updated successfully"
  const RECEIVED_MESSAGE: string := "Webhook received"
  const VERIFY_ERROR: string := "Error verifying webhook"

  /** The parts of the event's user object the handler reads; the nullable
      ones are options, and each email address is its text. */
  datatype UserEventData = UserEventData(
    id: string,
    emailAddresses: seq<string>,
    imageUrl: Option<string>,
    firstName: Option<string>,
    lastName: Option<string>,
    username: Option<string>)

  datatype Event = Event(eventType: string, data: UserEventData)

  /** `UserInput`: a `users` row without its id and timestamps. */
  datatype UserInput = UserInput(
    clerkId: string,
    email: string,
    name: string,
    firstName: string,
    lastName: string,
    photo: string)

  /** The `Partial<UserInput>` written on `user.updated`: every field but
      `clerkId`. */
  datatype UserFields = UserFields(
    email: string,
    name: string,
    firstName: string,
    lastName: string,
    photo: string)

  /** The user-table call the handler makes. */
  datatype Write = AddUser(user: UserInput) | UpdateUser(clerkId: string, fields: UserFields) | NoWrite

  datatype Response = Response(status: nat, message: string, write: Write)

  /** `email_addresses[0]?.email_address || ""` */
  function Email(d: UserEventData): (e: string)
    ensures |d.emailAddresses| == 0 ==> e == []
    ensures |d.emailAddresses| > 0 ==> e == d.emailAddresses[0]
  {
    if |d.emailAddresses| == 0 then [] else OrElse(Some(d.emailAddresses[0]), [])
  }

  /** `${first_name || ""} ${last_name || ""}` */
  function FullName(d: UserEventData): (name: string)
    ensures IsBlank(name) <==> IsBlank(OrElse(d.firstName, [])) && IsBlank(OrElse(d.lastName, []))
  {
    var first, last := OrElse(d.firstName, []), OrElse(d.lastName, []);
    var name := first + " " + last;
    assert forall i :: 0 <= i < |first| ==> name[i] == first[i];
    assert forall i :: 0 <= i < |last| ==> name[|first| + 1 + i] == last[i];
    name
  }

  /** The display name: the username when there is one, else the trimmed
      full name when it is not blank, else "Unknown User". It is never
      empty. */
  function DisplayName(d: UserEventData): (name: string)
    ensures name != []
    ensures d.username.Some? && d.username.value != [] ==> name == d.username.value
    ensures (d.username.None? || d.username.value == []) && !IsBlank(FullName(d)) ==> name == Trim(FullName(d))
    ensures (d.username.None? || d.username.value == []) && IsBlank(FullName(d)) ==> name == UNKNOWN_USER
    ensures d.username.None? || d.username.value == [] ==> IsTrimmed(name)
  {
    OrElse(d.username, OrElse(Some(Trim(FullName(d))), UNKNOWN_USER))
  }

  /** The record inserted on `user.created`. */
  function NewUser(d: UserEventData): (u: UserInput)
    ensures u.clerkId == d.id && u.email == Email(d) && u.name == DisplayName(d)
    ensures u.firstName == OrElse(d.firstName, UNKNOWN_FIRST_NAME) && u.lastName == OrElse(d.lastName, UNKNOWN_LAST_NAME)
    ensures u.photo == OrElse(d.imageUrl, [])
    ensures u.name != [] && u.firstName != [] && u.lastName != []
  {
    UserInput(d.id, Email(d), DisplayName(d), OrElse(d.firstName, UNKNOWN_FIRST_NAME),
      OrElse(d.lastName, UNKNOWN_LAST_NAME), OrElse(d.imageUrl, []))
  }

  /** The fields written on `user.updated`. */
  function UpdatedFields(d: UserEventData): (f: UserFields)
    ensures f.name != [] && f.firstName != [] && f.lastName != []
  {
    UserFields(Email(d), DisplayName(d), OrElse(d.firstName, UNKNOWN_FIRST_NAME),
      OrElse(d.lastName, UNKNOWN_LAST_NAME), OrElse(d.imageUrl, []))
  }

  /** An update derives exactly the fields a creation would, all but the
      id. */
  lemma UpdateMatchesCreate(d: UserEventData)
    ensures var u := NewUser(d);
      UpdatedFields(d) == UserFields(u.email, u.name, u.firstName, u.lastName, u.photo)
  {
  }

  /** `POST`: dispatch on the verified event's type. */
  function HandleWebhook(verified: Option<Event>): (r: Response)
    ensures verified.None? ==> r == Response(400, VERIFY_ERROR, NoWrite)
    ensures verified.Some? ==> r.status == 200
    ensures verified.Some? && verified.value.eventType == USER_CREATED ==>
      r.write == AddUser(NewUser(verified.value.data)) && r.message == CREATED_MESSAGE
    ensures verified.Some? && verified.value.eventType == USER_UPDATED ==>
      r.write == UpdateUser(verified.value.data.id, UpdatedFields(verified.value.data)) && r.message == UPDATED_MESSAGE
    ensures verified.Some? && verified.value.eventType != USER_CREATED && verified.value.eventType != USER_UPDATED ==>
      r.write == NoWrite && r.message == RECEIVED_MESSAGE
  {
    match verified
    case None => Response(400, VERIFY_ERROR, NoWrite)
    case Some(evt) =>
      if evt.eventType == USER_CREATED then Response(200, CREATED_MESSAGE, AddUser(NewUser(evt.data)))
      else if evt.eventType == USER_UPDATED then Response(200, UPDATED_MESSAGE, UpdateUser(evt.data.id, UpdatedFields(evt.data)))
      else Response(200, RECEIVED_MESSAGE, NoWrite)
  }

  /** Every write is keyed by the event's own user id, and only a
      verified event writes. */
  lemma WriteKeyedByEventId(verified: Option<Event>)
    ensures var w := HandleWebhook(verified).write;
      && (w.AddUser? ==> verified.Some? && w.user.clerkId == verified.value.data.id)
      && (w.UpdateUser? ==> verified.Some? && w.clerkId == verified.value.data.id)
      && (verified.None? ==> w.NoWrite?)
  {
  }
}
