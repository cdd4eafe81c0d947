# Study-group server: a Dafny model

This project models the Express back end of a study-group app. The app does three things:

- Users sign up. The username defaults to the part of the email before the `@`.
- Users send friend requests. They accept or decline them, and list their accepted friends.
- Users create and join groups. They deposit money into a group through a hosted checkout page. A webhook from the payment processor is meant to record each settled payment. Two read handlers report a group's total and each member's contribution.

As the app is wired, the webhook records nothing. `express.json()` is registered for every route (server/index.js:13), ahead of the webhook's own `express.raw` parser (server/index.js:351). The JSON parser consumes the body first, so the signature check at server/index.js:356 receives a parsed object instead of the raw bytes and throws. Every delivery then gets 400. The model takes the signature check's outcome as a parameter, so it describes the webhook as it would run if the raw body reached that check (see "## Left out").

Every handler except login, signup and the webhook sits behind a bearer-token middleware. The middleware resolves the caller's user through the identity provider.

Modules:

- `Tables`: the rows of the hosted database (`profile`, `friends`, `groups`, `group_members`, `group_payments`). It also has the database client's error value and a handler's reply.
- `Auth`: the bearer-token middleware. It covers token extraction and the missing / invalid / ok outcomes. `req.user` is a field of a `Request` object.
- `Profiles`: the signup username default and the profile lookups by username and by id.
- `Friends`: the `friends` table and its constraints. It has the filters the request, respond and list handlers run, the status update, and the friends-list projection.
- `Groups`: the `groups` and `group_members` tables, their keys, and the lookup the join handler runs.
- `Ledger`: the deposit handler (validation and the dollars-to-cents conversion) and the webhook reconciler. It also has the two aggregators: the `reduce` total and the per-user `forEach` map, written as a loop.
- `Server`: the class `Datastore`. It holds the tables as sequence fields and has one method per handler. Each method states its reply for every branch and the whole new state of the tables it may modify. Every mutating handler keeps the class invariant `Valid()`: the primary keys, the membership key, memberships of existing groups, and well-formed `friends` rows.

Outcomes of foreign calls are method parameters:

- the identity provider's answer (a `Lookup`, or a `getUser` function);
- the payment processor's checkout answer (`Result<url, message>`);
- the webhook signature check (`Result<Event, message>`);
- each database failure that is not one of the key constraints modelled here (`Option<DbError>`).

A `.single()` or `.maybeSingle()` query returns a row only when exactly one row matches:

- `.single()` returns an error for zero rows and for several rows.
- `.maybeSingle()` returns no row and no error for zero rows, and an error for several rows.

Every handler treats "no row" and "error" alike, so the model only asks whether exactly one row matches.

Lemmas prove when this is the same as "some row matches":

- For `groups`, under the primary key on `id` (`Groups.SingleIffExists`).
- For `friends`, under "one row per pair of users" (`Friends.ExistingIffLinked`, `Friends.PendingFoundIff`). No database key enforces that property. It is not part of the class invariant either (see below).

Two behaviours of the code are modelled as written and proved:

- **Duplicate webhook deliveries.** The webhook keeps no record of the sessions it has seen. A completed checkout delivered twice is recorded twice (`Ledger.DuplicateDeliveryRecordedTwice`).
- **Friend-request duplicate check.** The duplicate check's query error is ignored. So is its "more than one row" error. In both cases the insert goes ahead. So "one row per pair of users" is kept only while that check succeeds (`Friends.RequestKeepsPairsUnique`, `Friends.RepeatedPairBreaksUniqueness`). For that reason it is not part of the class invariant.

## Model

| member | source | states |
|---|---|---|
| Auth.FindFrom | server/server/middleware/verifyUser.js:11 | the first position at or after `from` where the pattern occurs; `None` exactly when it occurs nowhere there |
| Auth.ExtractToken | server/server/middleware/verifyUser.js:11 | `authorization?.replace('Bearer ', '')`: a token exactly when there is a header |
| Auth.ExtractFromBearerHeader | server/server/middleware/verifyUser.js:11 | a header `"Bearer " + t` yields exactly `t` |
| Auth.ExtractWithoutBearer | server/server/middleware/verifyUser.js:11 | a header that does not contain `"Bearer "` passes through unchanged |
| Auth.ExtractRemovesFirstOccurrence | server/server/middleware/verifyUser.js:11 | the token is the header with its first `"Bearer "` cut out: prefix before it plus suffix after it |
| Auth.EmptyTokenIff | server/server/middleware/verifyUser.js:11-13 | the token is empty exactly when the header is `""` or `"Bearer "` |
| Auth.VerifyUser | server/server/middleware/verifyUser.js:10-21 | missing or empty token: 401 "Missing token", provider never asked, `next` not called; provider error or no user: 401 "Invalid token", provider asked once with the token, `next` not called; otherwise no reply, `req.user` set to the provider's user and `next` called exactly once |
| Tables.ErrorText | server/index.js:69-71 | `err?.message \|\| fallback`: the error text when it is non-empty, the fallback otherwise; never empty when the fallback is not, so a failed signup always carries an error text |
| Auth.ReplaceFirst | server/server/middleware/verifyUser.js:11 | JavaScript's `String.replace` with a string pattern: a string without the pattern is unchanged, and one with it loses one occurrence of the pattern and gains the replacement |
| Profiles.LocalPart | server/index.js:81 | `email.split('@')[0]`: a prefix of the email with no `@`, followed in the email by `@` unless it is the whole email |
| Profiles.LocalPartUnique | server/index.js:81 | those three properties determine the local part: any string with them is it |
| Profiles.LocalPartOfAddress | server/index.js:81 | for `local + "@" + domain` with no `@` in `local`, the local part is `local` |
| Profiles.DefaultUsername | server/index.js:81 | `username \|\| email.split('@')[0]`: the given username when it is truthy, the email's local part otherwise |
| Profiles.Named | server/index.js:106-110 | the `.eq('username', name)` filter: the profiles with that username, and only those |
| Profiles.FindByUsername | server/index.js:106-114 | the `.single()` lookup by username: an id only of a profile with that username, and none when no profile has it or several different ones do |
| Profiles.ProfileOf | server/index.js:413-425 | the profile joined to a payment row: present exactly when a profile has that id, and it is that profile |
| Profiles.SummaryOf | server/index.js:199-204 | the joined `(username, session_hours)`: present exactly when the profile exists, and then holding that profile's username and session hours |
| Profiles.InsertKeepsIdsUnique | server/index.js:76-84 | inserting a profile under an id not yet present keeps the primary key |
| Friends.Between | server/index.js:122-126 | the rows joining the two users in either direction, and only those; empty when there are none |
| Friends.AtMostOneBetween | server/index.js:122-126 | while one row per pair holds, at most one row joins two users |
| Friends.ExistingIffLinked | server/index.js:122-130 | while one row per pair holds, `.maybeSingle()` finds a row (409 "Already Friends") exactly when the pair already has one in either direction |
| Friends.PendingFrom | server/index.js:159-168 | the pending rows from the requester to the receiver, and only those |
| Friends.AtMostOnePending | server/index.js:159-168 | while one row per pair holds, at most one pending row goes from a requester to a receiver |
| Friends.PendingFoundIff | server/index.js:159-172 | while one row per pair holds, the lookup finds a row exactly when a pending request from the requester to me exists |
| Friends.RequestKeepsWellFormed | server/index.js:132-138 | appending a pending request between two different users under a fresh id keeps every row constraint |
| Friends.RequestKeepsPairsUnique | server/index.js:122-138 | when the pair has no row yet, the appended request keeps one row per pair |
| Friends.RepeatedPairBreaksUniqueness | server/index.js:122-138 | when the pair already has a row, the appended request gives a second row for the pair |
| Friends.SetStatus | server/index.js:175-179 | `update({status}).match({id})`: every row with that id gets the status, every other row is unchanged |
| Friends.SetStatusChangesOneRow | server/index.js:175-179 | with distinct ids, the update changes the status of the one row with that id and nothing else |
| Friends.RespondKeepsWellFormed | server/index.js:175-179 | setting a row to accept or decline keeps every row constraint, and one row per pair when it held |
| Friends.RespondMessage | server/index.js:186-189 | "Friend request accepted." for accept, "Friend request declineed." for decline |
| Friends.AcceptedOf | server/index.js:196-207 | the accepted rows in which the user is either party, and only those |
| Friends.OtherParty | server/index.js:215-221 | for a row that involves me, the party it joins me with |
| Friends.FriendIds | server/index.js:214-220 | one id per accepted row |
| Friends.FriendIdsIff | server/index.js:196-220 | a user is on my list exactly when an accepted row joins us in either direction |
| Friends.FriendsSymmetric | server/index.js:196-220 | b is on a's list exactly when a is on b's |
| Friends.AcceptMakesFriends | server/index.js:175-220 | once a request is accepted, each party is on the other's list |
| Groups.WithId | server/index.js:276-281 | the groups with that id, and only those; empty when there are none |
| Groups.SingleIffExists | server/index.js:276-285 | with group ids unique, the `.single()` lookup finds the group exactly when it exists |
| Groups.JoinKeepsWellFormed | server/index.js:288-304 | joining an existing group one is not a member of keeps the keys and memberships of existing groups |
| Groups.CreateKeepsWellFormed | server/index.js:234-262 | a new group under a fresh id has no members; adding it, and then its creator as a member, keeps every constraint |
| Ledger.JsRound | server/index.js:331 | `Math.round`: an integer within half of `x`, halves going up |
| Ledger.Cents | server/index.js:331 | `Math.round(amount * 100)`: within half a cent of the amount in cents |
| Ledger.Dollars | server/index.js:371 | `amount_total / 100`: the dollars that are exactly that many cents |
| Ledger.CentsRoundTrip | server/index.js:331 | dollars to cents and back moves an amount by at most half a cent |
| Ledger.ExactCents | server/index.js:331 | a whole number of cents survives dollars-to-cents exactly |
| Ledger.PositiveAmountCents | server/index.js:318-331 | a positive amount gives non-negative cents, zero exactly when it is under half a cent |
| Ledger.Deposit | server/index.js:311-349 | 400 "Invalid amount" exactly for a missing, zero or negative amount, and then no checkout session; otherwise exactly one session of the rounded cents, quantity 1, usd, with user and group metadata; 200 with the url exactly when the processor answers one, 500 "Failed to create checkout session" otherwise |
| Ledger.Reconcile | server/index.js:366-381 | the ledger after a verified event: the old rows kept as a prefix, plus exactly one row with the session's group, user and `amount_total / 100` for a completed checkout whose insert succeeds, and nothing otherwise |
| Ledger.PaymentsFor | server/index.js:389-392 | the `.eq('group_id', groupId)` filter: the group's rows, and only those; none when the group has no rows |
| Ledger.SumAmounts | server/index.js:398 | the `reduce`: not negative when no amount is |
| Ledger.GroupTotal | server/index.js:389-398 | the group's total: 0 for a group with no rows, and not negative when no amount is |
| Ledger.PaymentsForAppend | server/index.js:389-392 | the group filter distributes over concatenation |
| Ledger.SumAppend | server/index.js:398 | the `reduce` over a concatenation is the sum of the two reductions |
| Ledger.TotalAfterAppend | server/index.js:389-398 | appending a row raises its own group's total by its amount and leaves every other total unchanged |
| Ledger.TotalAfterWebhook | server/index.js:366-383 | a verified event raises the session's group total by `amount_total / 100` when it is a completed checkout whose insert succeeds, and changes no total otherwise |
| Ledger.DuplicateDeliveryRecordedTwice | server/index.js:366-383 | the same completed event delivered twice appends two identical rows and counts twice in the total |
| Ledger.DepositThenWebhook | server/index.js:311-383 | a deposit of whole cents, once its session completes, raises the group total by exactly the amount deposited |
| Ledger.DepositTwelveFifty | server/index.js:331 | 12.50 becomes a 1250-cent session, and settling it adds 12.50 to the total |
| Ledger.Aggregate | server/index.js:423-434 | the `forEach` loop: it completes exactly when every row's user has a profile; then its keys are exactly the distinct users, each total is that user's sum, each username is that user's profile's, and no rows give an empty map |
| Ledger.UserSum | server/index.js:425-433 | one user's running `total`: not negative when no amount is |
| Ledger.UserSumBounded | server/index.js:425-433 | with non-negative amounts, no user's total exceeds the group's `reduce` total |
| Ledger.UserSumSnoc | server/index.js:425-433 | one more row adds its amount to its own user's total and to no other |
| Ledger.TallyStep | server/index.js:423-433 | one pass of the `forEach` body keeps the map exact: keys the users seen so far, each total that user's sum, each username from the profile |
| Ledger.UsersInOrder | server/index.js:423-434 | the distinct users of the rows, each once |
| Ledger.UserSumAbsent | server/index.js:428-432 | a user with no rows sums to 0 |
| Ledger.SumOverAppendRow | server/index.js:423-434 | a new row adds its amount to the sum over the users exactly when its user is among them |
| Ledger.SumOverAppendUser | server/index.js:423-434 | adding a user to the list adds that user's sum |
| Ledger.ContributionsAddUp | server/index.js:398-434 | the per-user totals, over the distinct users, add up to the `reduce` total |
| Ledger.ContributionsMatchTotal | server/index.js:386-436 | a group's contributions add up to its total |
| Server.Datastore.Signup | server/index.js:59-98 | provider error or no user: 400 with the error text or "Signup failed.", never empty; taken id or insert failure: 500 "Insert failed" and no change; otherwise 200 and exactly one profile appended with the default username and 0 hours |
| Server.Datastore.RequestFriend | server/index.js:100-149 | unknown username or failed lookup: 404; the sender themself: 400; an existing row in either direction when the check succeeds: 409; insert failure: 500; otherwise 200, exactly one pending row from sender to receiver appended under the next row id, and the next id advanced by one; no change on any non-200 reply; one row per pair is kept whenever the check succeeds |
| Server.Datastore.RespondToRequest | server/index.js:151-190 | action outside accept/decline: 400; no single pending request from the requester to me, or a failed lookup: 404; update failure: 500; otherwise 200 and only that row's status becomes the action; no change on any non-200 reply |
| Server.Datastore.ListFriends | server/index.js:192-224 | query failure: 500; otherwise the joined profile of the other party of each accepted row, in row order |
| Server.Datastore.CreateGroup | server/index.js:226-266 | no name: 400; group insert failure: 500 and no change; otherwise the group is appended, and then either 500 with no membership (the group stays) or 201 with the creator's membership appended |
| Server.Datastore.JoinGroup | server/index.js:268-305 | missing id: 400; unknown group or failed lookup: 404; already a member, or any unique-key error: 409; other insert failure: 500; otherwise 200 and exactly one membership appended; no change on any non-200 reply |
| Server.Datastore.Webhook | server/index.js:351-384 | a failed signature check: 400 "Webhook Error: ..." and no change; otherwise 200 `{received: true}`, even when the insert fails; exactly one row from the metadata and `amount_total / 100` appended for a completed checkout whose insert succeeds, no change otherwise |
| Server.Datastore.Total | server/index.js:386-404 | query failure: 500; otherwise the sum of the group's amounts |
| Server.Datastore.Contributions | server/index.js:406-437 | query failure: 500; a row whose user has no profile: no reply; otherwise keys exactly the group's distinct users, each total that user's sum, each username from that user's profile |

## Left out

- The login handler (server/index.js:20-57) and `/protected`: they only pass through the identity provider's answer, and `/protected` echoes the user's email.
- cors and dotenv wiring, `app.listen` and console logging: they make no decisions about requests.
- Server.Datastore.Webhook: the model assumes that the raw body reaches the signature check. As wired, the global `express.json()` parser (server/index.js:13) consumes the body first, `constructEvent` throws, and every delivery gets 400 with no row recorded. The `verified` parameter stands for the check's outcome, so `Ledger.DepositThenWebhook` and `Ledger.DepositTwelveFifty` describe a path that this wiring never takes.
- The payment processor's API and the HMAC check behind `stripe.webhooks.constructEvent`: they are foreign library calls, so their outcomes are parameters. The checkout session's success and cancel urls, mode and product name are not modelled.
- The identity provider (`signUp`, `getUser`) and the database client's query builder: their answers are parameters. The filter strings and join selectors become filters over sequences.
- IEEE doubles: amounts are exact reals, `Math.round(x)` is `floor(x + 0.5)`, and `amount_total / 100` is exact division. Floating-point drift in `reduce` and `+=` is not modelled.
- JavaScript coercion of `amount` (strings, NaN, `true`): the amount is an optional number.
- Async interleaving and concurrent deliveries: each handler is one atomic step on the datastore.
- Webhook sessions without metadata: a completed session always carries the group and user ids set at deposit time.
- The order of rows a query returns is taken to be table order. The friends list and the contributions map follow it.
- The database's foreign keys from `friends`, `group_members` and `group_payments` to `profile` and `groups`, other than "memberships name existing groups": without them the handlers behave as modelled, and a failed insert is covered by the error parameters.
- The middleware is not composed with the handlers. `Auth.VerifyUser` is proved on its own, and each handler behind it takes the id of the resolved user.
- Server.Datastore.RequestFriend: `nextFriendId` stands for the database's identity column. The returned row (`request[0]`) is not part of the reply.
- Server.Datastore.ListFriends: the reply carries the list as a separate out-parameter; the row ids and statuses in the query's result are not modelled.
- Server.Datastore.CreateGroup: the group's id is generated by the database and is a parameter; a repeated id gives the primary key's error.
- Server.Datastore.Contributions: the thrown exception for a missing profile is modelled as no reply; the process's unhandled-rejection behaviour is not.
