/** Rows of the hosted database's tables, the database client's error value and
    the reply a request handler sends. Shared by every other module. */
module Tables {

  datatype Option<+T> = None | Some(value: T)

  datatype Result<+T, +E> = Ok(value: T) | Err(error: E)

  /** User, group and profile identifiers are opaque strings (uuids). */
  type Id = string

  /** A row of `profile`; `id` is its primary key and equals the user's id. */
  datatype Profile = Profile(id: Id, username: string, sessionHours: int)

  /** The columns of a profile that the friends list joins in. */
  datatype ProfileSummary = ProfileSummary(username: string, sessionHours: int)

  /** A row of `friends`; `id` is assigned by the database, `status` holds
      "pending", "accept" or "decline". */
  datatype Friendship = Friendship(id: nat, requester: Id, receiver: Id, status: string)

  /** A row of `groups`; `id` is its primary key. */
  datatype Group = Group(id: Id, name: string, creator: Id)

  /** A row of `group_members`; the pair is unique. */
  datatype Membership = Membership(groupId: Id, userId: Id)

  /** A row of `group_payments`: one settled contribution, in dollars. */
  datatype Payment = Payment(groupId: Id, userId: Id, amount: real)

  /** An error object from the database client: a Postgres error code and its message. */
  datatype DbError = DbError(code: string, message: string)

  /** Postgres' code for a unique-constraint violation. */
  const UniqueViolation: string := "23505"

  /** The error a unique or primary key reports when an insert would repeat a key. */
  const DuplicateKey: DbError := DbError(UniqueViolation, "duplicate key value violates unique constraint")

  /** What a handler answers: a status code with the message or error text of
      its JSON body (empty when the body carries data only), or nothing at all
      when the handler throws before answering. */
  datatype Reply = Reply(status: nat, message: string) | NoReply

  /** JavaScript truthiness of an optional string taken from a JSON body:
      a missing field and the empty string are both falsy. */
  predicate Truthy(s: Option<string>) {
    s.Some? && s.value != ""
  }

  /** `err?.message || fallback`: the error's text when it has a non-empty one. */
  function ErrorText(err: Option<string>, fallback: string): (r: string)
    ensures Truthy(err) ==> r == err.value
    ensures !Truthy(err) ==> r == fallback
    ensures fallback != "" ==> r != ""
  {
    if Truthy(err) then err.value else fallback
  }
}
