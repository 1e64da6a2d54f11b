# Social-todos server: credentials, teams, friend requests and request context

A Dafny model of the decision logic of a GraphQL social-networking backend:

- **Registration validation and credential codec** (`src/utils/auth.ts`): the
  field checks on a registration, the salted key derivation that turns a password
  (or a provider's fixed secret) into stored credentials, and the check of a
  presented password against them.
- **Team membership** (`src/resolvers/TeamResolver.ts`): `isPublic`, `joinTeam`
  and `createTeam` as guarded updates of a store of teams and memberships.
- **Friend requests** (`src/resolvers/friends/FriendRequestResolver.ts`): sending,
  the two listing queries and answering, over a store of users, requests and a log
  of published notifications.
- **Request context** (`src/app.ts`): which token is verified for a request, and
  how an error raised as type-graphql's `ForbiddenError` is reported to the client.

Modules: `Wrappers` (Option, Result), `Types` (the authenticated user, the
field-tagged mutation error, JavaScript truthiness of optional strings), `Base64`
(section 4 of RFC 4648), `Auth`, `Teams`, `FriendRequests`, `Session`.

The libraries are parameters of the model. PBKDF2 (section 5.2 of RFC 8018) is
`Auth.Kdf`: any deterministic function from (secret, salt) to 64 bytes. The 16
random salt bytes come in as an argument. `validator.isEmail` is a predicate
argument. `jwt.verify` is `Session.JwtVerify`: a function from (token, secret)
to either the decoded user or the error the library throws. The URL returned by the image upload is an argument.
The database is modelled by immutable stores with auto-increment counters.
Publishing on the pub/sub engine appends to a log. Every operation is synchronous
and atomic.

Base64 is modelled concretely, with a decoder, and not only through its length.
Verification compares base64 strings, so "a different derived key is rejected"
needs the encoding to be injective. `Base64.DecodeEncode` proves that.

Two behaviours of the code that are easy to miss:

- The provider secrets are checked on every call of `getEncryptedCredentials`,
  after the salt is drawn, and not once at startup. The check also runs for
  plain local passwords.
- A value counts as "set" by JavaScript truthiness. An empty `GOOGLE_PASS`, an
  empty team password or an empty `authorization` header all count as absent.

## Model

| member | source | states |
|---|---|---|
| Base64.Encode | src/utils/auth.ts:26 | The base64 text of n bytes has 4*ceil(n/3) characters. |
| Base64.DecodeEncode | src/utils/auth.ts:33-36 | Decoding the base64 text of any byte string gives back that byte string. |
| Base64.EncodeInjective | src/utils/auth.ts:46-49 | Two byte strings with the same base64 text are equal, so comparing the encoded strings compares the keys. |
| Auth.ValidateRegister | src/utils/auth.ts:9-23 | The email field reports an error iff the email is empty or not an email. The name field reports one iff its length is outside [10,100]. The password field reports one iff its length is outside [5,30]. There are at most three errors, each with its field's own message, strictly ordered email, name, password. |
| Auth.NameBoundaries | src/utils/auth.ts:14-16 | Names of 10 and 100 characters pass. Names of 9 and 101 fail. |
| Auth.PasswordBoundaries | src/utils/auth.ts:18-20 | Passwords of 5 and 30 characters pass. Empty, 4- and 31-character passwords fail. |
| Auth.ChecksIndependent | src/utils/auth.ts:9-23 | No check short-circuits another: whether a field is reported depends only on that field. |
| Auth.AllChecksFail | src/utils/auth.ts:9-23 | ("not-an-email", "short", "") yields exactly three errors, tagged email, name, password in that order. |
| Auth.MinimalInputPasses | src/utils/auth.ts:9-23 | ("a@b.com", a 10-character name, a 5-character password) yields no errors. |
| Auth.Derive | src/utils/auth.ts:26-37 | The stored salt is the base64 text of the random bytes (24 characters). The stored key is the base64 text of Kdf(secret, salt text) (88 characters). Both decode back to those bytes. |
| Auth.GetEncryptedCredentials | src/utils/auth.ts:25-38 | Fails iff either provider secret is unset or empty, whatever the flags. On success the salt is exactly the base64 text of the random bytes: 24 characters, within its 30-character column. The key is exactly the base64 text of Kdf under that salt text: 88 characters, within its 100-character column. The Kdf input is the password with no flag, GITHUB_PASS with only `github`, and GOOGLE_PASS whenever `google` is set. |
| Auth.VerifyPassword | src/utils/auth.ts:46-50 | Acceptance implies the stored text is 88 characters and decodes to Kdf(input, salt). |
| Auth.VerifyIssuedCredentials | src/utils/auth.ts:25-50 | Round trip: a password verifies against the credentials derived from it with no flags. Any input verifies iff its Kdf value under the stored salt equals the password's. |
| Auth.ProviderIgnoresPassword | src/utils/auth.ts:27-32 | With `github` or `google` set, the supplied password does not affect the result. |
| Auth.GoogleOverridesGithub | src/utils/auth.ts:31-32 | Setting both flags gives the same result as setting `google` alone. |
| Auth.FreshSaltsDiffer | src/utils/auth.ts:26 | Different random bytes give different stored salts. |
| Teams.JoinTeam | src/resolvers/TeamResolver.ts:31-38 | Succeeds iff the user is not yet a member and the team exists. An existing membership returns [id/Duplicado] and leaves the store unchanged. A missing team returns [id/No existe] and leaves the store unchanged. Success returns the team and adds exactly the new row (user, team, not admin); nothing else changes. |
| Teams.DuplicateBeforeMissing | src/resolvers/TeamResolver.ts:33-36 | An existing membership is reported as Duplicado even when the team is gone. |
| Teams.JoinTwiceIsDuplicate | src/resolvers/TeamResolver.ts:33-34 | After a successful join, joining again reports Duplicado and changes nothing. |
| Teams.JoinTeamPreservesValid | src/resolvers/TeamResolver.ts:33-37 | Joining keeps the store invariant: a user appears at most once per team. |
| Teams.CreateTeam | src/resolvers/TeamResolver.ts:46-62 | Fails only when a truthy password meets unset provider secrets; then the store is unchanged. On success it adds exactly one team, under a fresh id, with the given name and image, plus the creator's admin row. The team is public iff no truthy password was given; password and salt are null together. For a truthy password, the stored password and salt are exactly the credentials `getEncryptedCredentials` issues for it, with no provider flag, so the password verifies against them. |
| Teams.PublicTeamsHaveNoCredentials | src/resolvers/TeamResolver.ts:15-17 | In a consistent store, `isPublic` holds exactly for the teams with no salt. A created team is public iff it has no salt, and a private one stores an 88-character key. |
| Teams.CreatorIsSoleAdmin | src/resolvers/TeamResolver.ts:56-58 | After a successful creation the store invariant holds, and the creator, as admin, is the new team's only member. |
| FriendRequests.SendFriendRequest | src/resolvers/friends/FriendRequestResolver.ts:12-43 | Succeeds iff the receiver exists and no request me->to is stored. A missing receiver returns [id/No existe]; a duplicate returns [to/Duplicado]; in both cases the store is unchanged. Success returns the receiver and adds exactly one pending request me->to under a fresh id. Existing requests and users are unchanged, exactly one NEW_FRIEND_REQUEST notification carrying the new request is published, and the store invariant holds. |
| FriendRequests.ReverseRequestDoesNotBlock | src/resolvers/friends/FriendRequestResolver.ts:22-33 | After a sends a request to b, b can still send one to a, unless b had already done so: the reverse request is not a duplicate. |
| FriendRequests.Select | src/resolvers/friends/FriendRequestResolver.ts:52-55 | A table scan returns exactly the rows the filter keeps. In a well-keyed table each row appears once. |
| FriendRequests.MyFriendRequests | src/resolvers/friends/FriendRequestResolver.ts:51-56 | Returns exactly the requests whose receiver is the caller, each once. |
| FriendRequests.MyPendientFriendRequests | src/resolvers/friends/FriendRequestResolver.ts:60-68 | Returns exactly the caller's sent requests not yet accepted, each once. |
| FriendRequests.AnswerFriendRequest | src/resolvers/friends/FriendRequestResolver.ts:72-92 | Returns true iff the request exists; otherwise nothing changes. Every other request, the users and the notification log are untouched. Accepting sets only that request's state to true. Rejecting removes only that request. |
| FriendRequests.AcceptIdempotent | src/resolvers/friends/FriendRequestResolver.ts:82-84 | Accepting twice leaves the same store as accepting once. |
| FriendRequests.AnswerIgnoresCaller | src/resolvers/friends/FriendRequestResolver.ts:72-88 | The outcome does not depend on who answers: the receiver is never checked. |
| FriendRequests.AnswerPreservesValid | src/resolvers/friends/FriendRequestResolver.ts:78-88 | Answering keeps every request stored under its own id, below the counter. |
| Session.VerifyToken | src/app.ts:20-26 | Never throws. Yields a user exactly when `jwt.verify` under the fixed secret "TypeGraphQL" returns a claim, and then it is that claim. Every thrown error, whatever its kind, yields no user. |
| Session.VerifyTokenDependsOnOutcomeOnly | src/app.ts:20-26 | Only the verification under "TypeGraphQL" matters. Two verifiers that agree there give the same user. Two verifiers that both throw give the same absent user, whatever they throw. |
| Session.BuildContext | src/app.ts:69-82 | The request is passed through. The consulted token is the connection's when a connection exists and the header's otherwise. With no truthy consulted token the user is null; otherwise the user is the verification of that token. |
| Session.ConnectionOverridesHeader | src/app.ts:71-74 | Over a subscription connection, the HTTP header plays no part, even when it is set. |
| Session.SameTokenSameUser | src/app.ts:69-78 | A token gives the same user whether it arrives on the connection or in the header. |
| Session.FormatError | src/app.ts:63-68 | A ForbiddenError becomes a plain error with the fixed "not authenticated" message. Every other error passes unchanged. No formatted error is a ForbiddenError. |
| Session.FormatErrorIdempotent | src/app.ts:63-68 | Formatting an already formatted error changes nothing. |

## Left out

- `getSocialUser` (federated login through Google token verification and the GitHub user API): it consists of outbound network calls.
- The internals of PBKDF2, of the random generator and of JWT verification: these are foreign libraries, so they are parameters here. Token issuance (`jwt.sign`) is not in the modelled files.
- Server bootstrap (`start`, `setParser`, `setIndexRoute`, schema building): this is HTTP and middleware wiring.
- The `@Authorized()` gate: its checker (`src/auth/AuthChecker`) is not part of this model. The resolvers take the already authenticated user.
- The `teams` and `team` queries (src/resolvers/TeamResolver.ts:19-27): they are plain reads with relation loading.
- Relation loading, ORM persistence, the file upload and the pub/sub engine: the store abstraction stands in for them. The upload's URL is a parameter, and publishing appends to a log.
- Asynchrony, including the un-awaited save on acceptance: every operation is modelled as synchronous and atomic.
- Teams.CreateTeam: models only one thrown error, the missing provider secrets. Failing uploads and saves are not modelled. In the source a failing second save can leave a team without an admin, so the model claims no atomicity for the source's creation.
- FriendRequests.SendFriendRequest: takes the new request's sender id from the authenticated user. The source looks the sender up and would store a request without a sender if that user row were missing. Failing saves and publishes are not modelled.
- Ids are naturals. The GraphQL arguments `id`, `to` and `requestId`, and the authenticated user's id, are JavaScript numbers in the source. A negative or fractional id matches no row there; the model cannot express one, so it does not model that case.
- FriendRequests.Select: promises no order, because the database promises none.
- Auth.ValidateRegister: lengths count Unicode scalar values. `validator.isLength` also discounts variation selectors (U+FE0E, U+FE0F), which the model does not.
- The exception payloads of the catch branches are opaque. The one payload modelled, for createTeam, is the `"{}"` that `JSON.stringify` yields for an `Error`.
