/** Shapes shared by the resolvers and the request context. */
module Types {
  import opened Wrappers

  /** The claim carried by a verified session token: the authenticated user's id. */
  datatype AuthUser = AuthUser(id: nat)

  /** The field names the mutations tag their errors with (`"email"`, `"name"`,
      `"password"`, `"id"`, `"to"`). */
  datatype Path = Email | Name | Password | Id | To

  /** A field-tagged error as returned in a mutation response's `errors` list. */
  datatype MutationError = MutationError(path: Path, msg: string)

  /** JavaScript truthiness of an optional string: `undefined`, `null` and the
      empty string are all falsy. */
  predicate Truthy(s: Option<string>) {
    s.Some? && s.value != ""
  }
}
