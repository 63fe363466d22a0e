/** The records that script.js keeps in the browser's local storage. A field that a
    record lacks (`undefined`), a `null` form field and an empty string are all falsy
    in JavaScript and are all the empty string here. */
module Records {
  import opened JsArray

  /** A donor or recipient record (`donors` / `recipients`), or the session copy in
      `currentUser`. Recipients have no `available` flag (false here, as `undefined` is
      falsy); `bloodGroup` and `bloodType` are legacy aliases of `blood` that only the
      repair pass reads; `role` is set on the session copy by the login. */
  datatype User = User(
    name: string,
    email: string,
    phone: string,
    password: string,
    blood: string,
    location: string,
    available: bool,
    registeredAt: string,
    bloodGroup: string,
    bloodType: string,
    role: string)

  /** A blood request (`requests`): `to` is the donor's display name and `from` the
      recipient's; `status` is "pending" until a donor responds. */
  datatype Request = Request(
    id: string,
    to: string,
    from: string,
    bloodType: string,
    location: string,
    message: string,
    date: string,
    status: string,
    respondedAt: Option<string>)

  /** A message of a script.js chat thread. */
  datatype ChatMessage = ChatMessage(text: string, sender: string, timestamp: string)

  /** The record's email is `email`: the test the code's lookups by email apply. */
  function HasEmail(email: string): User -> bool
  {
    (u: User) => u.email == email
  }

  /** The request's id is `id`. */
  function HasId(id: string): Request -> bool
  {
    (r: Request) => r.id == id
  }

  /** No two records of `users` share an email. */
  ghost predicate UniqueEmails(users: seq<User>)
  {
    forall i, j :: 0 <= i < j < |users| ==> users[i].email != users[j].email
  }
}
