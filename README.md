# Members-only message board: a Dafny model of its authentication core

The board (`app.js`) lets people sign up, log in, raise their account to
member or admin with a shared passcode, and post short messages once they are
members. Under the Express, passport, bcrypt and Postgres wiring sits a small
sequential state machine. This project models that machine and proves its
rules:

- **State.** There is a `users` table (id → email, password digest, first and
  last name, `is_member`, `is_admin`). There is a `messages` table (title,
  text, author id). There is the session slot of the client making requests,
  which holds nothing or a user id.
- **Operations.** Each route handler is one operation: sign-up, login
  (passport's LocalStrategy callback), join-club, new-message (GET and POST),
  logout and the index page. serializeUser/deserializeUser are modelled too.
  Every handler is a guard followed by at most one table write.

Modules, leaf first:

- `Bcrypt` (bcrypt.dfy): bcrypt's `hash` and `compare`, injected as two
  function values. bcrypt's promise that a plaintext matches its own digest
  is the predicate `Sound`. The lemmas that need it take it as a hypothesis.
- `Store` (store.dfy): the two tables as values. The users-table statements
  (lookup by email, INSERT, the flag UPDATEs) and the index page's join are
  functions here. The SELECT by id is `Passport.Deserialize`, and the messages
  INSERT is an append inside `App.Board.PostMessage`.
- `Passport` (passport.dfy): the LocalStrategy callback, `Serialize` and
  `Deserialize`.
- `Routes` (routes.dfy): the handlers' responses, the new-message guard, the
  GET pages, the index view flags and the join-club passcode decision.
- `App` (app.dfy): class `Board`. It holds the tables and the session slot as
  fields. It has one method per handler that changes something. The class
  invariant says three things: every session id names an existing row, every
  message's author exists, and emails are unique.
- `Properties` (properties.dfy) and `Scenarios` (scenarios.dfy): properties
  that relate several operations, and request sequences on a fresh board.

Modelling choices:

- `is_member` and `is_admin` are nullable columns (`Option<bool>`). The code
  only tests their JavaScript truthiness (`!req.user.is_member`,
  `is_admin || false`).
- The schema is not part of this model, so two facts are explicit
  assumptions. Their defaults on insert are the configuration value
  `Config.defaults`. Email uniqueness is part of `UserTable.Valid`, and an
  INSERT of a present email fails and goes to `next(err)`.
- `POST /join-club` has no login check. For an anonymous visitor both bcrypt
  comparisons still run. A passcode that matches nothing still answers 400.
  A passcode that matches makes `req.user.id` throw. That case is modelled as
  the `Unhandled` response with no write.
- Login failures keep the code's two distinct messages ("Incorrect email",
  "Incorrect password"). Both redirect to `/login`. Collapsing them into one
  generic failure would be a hardening the code does not do.
- An unknown session id is not claimed to make the request anonymous.
- Login goes through passport-local, which refuses an empty email or
  password with "Missing credentials" before the strategy callback runs.
  `Login` models that refusal; sign-up accepts an empty password, so such an
  account cannot log in again.

## Model

| member | source | states |
|---|---|---|
| `Store.FindByEmailFrom` | app.js:138-142 | a found row is stored under its id and has the email; nothing found means no row from the start id on has the email |
| `Store.FindByEmail` | app.js:138-142 | the email lookup finds a row with that email, and finds nothing exactly when no row has it |
| `Store.Insert` | app.js:65-72 | the INSERT fails exactly when the email is already present; otherwise it adds exactly one row under a fresh id, holding the given digest, names and the column defaults, and keeps the table valid |
| `Store.SetFlag` | app.js:107-114 | the UPDATE sets the chosen flag of that one row to true, leaves its other columns and every other row as they were, never clears a flag and keeps the table valid |
| `Store.Listing` | app.js:22-26 | the index join lists only rows whose author exists, each carrying that author's names; when every author exists it lists every message, in order, joined with its author |
| `Passport.Authenticate` | app.js:136-153 | the LocalStrategy callback succeeds exactly when some row has the email and the password matches its digest, and then yields that row; "Incorrect email" exactly when no row has the email; "Incorrect password" exactly when the row exists and the password does not match |
| `Passport.Serialize` | app.js:161-163 | the session keeps only the user's id: reading it back against any later table yields that table's current row for the user |
| `Passport.Deserialize` | app.js:165-172 | reading the session's id back yields the row stored under it now, and nothing for an unknown id |
| `Routes.MayPostMessage` | app.js:180 | the guard of both /new-message handlers passes only for a logged-in user whose `is_member` is true; an admin who is not a member is denied |
| `Routes.JoinClubPage` | app.js:86-91 | GET /join-club redirects to /login exactly when no one is logged in |
| `Routes.NewMessagePage` | app.js:179-184 | GET /new-message redirects to /login unless the user is logged in and `is_member` is truthy |
| `Routes.IndexFlagsOf` | app.js:28-46 | anonymous: all flags false and no name; logged in: the flags are the columns' truthiness (NULL counts as false) and the first name falls back to "Guest" when empty |
| `Routes.IndexPage` | app.js:20-46 | GET / renders the index with those flags; when every author exists, row i is message i joined with its author's first and last name |
| `Routes.Elevation` | app.js:96-117 | the member digest takes precedence: membership when it matches, admin only when it fails and the admin digest matches, no grant when neither does |
| `App.Board.Principal` | app.js:161-172 | a request's user is the row the session's id names now, and is absent exactly when the session is empty |
| `App.Board.Home` | app.js:20-46 | the index shows every message, in insertion order, with its title, text, author id and the author's first and last name, under the current user's flags |
| `App.Board.SignUp` | app.js:56-83 | a mismatched confirmation answers 400 with no change; a present email goes to the error handler with no change; otherwise exactly one row holding the bcrypt digest is added, the session holds its id and the client goes to /join-club |
| `App.Board.Login` | app.js:124-131 | an empty email or password is refused with "Missing credentials" before the strategy runs; otherwise, on success the session holds the user's id and the client goes to /; on failure the session is unchanged and the client goes to /login with the message; no table changes |
| `App.Board.JoinClub` | app.js:93-119 | no match answers 400 with no change; a match for an anonymous visitor throws with no change; otherwise only the flag the decision grants is set on the session user's row, then the client goes to / |
| `App.Board.PostMessage` | app.js:187-204 | unless the user is a member, the client goes to /login and nothing is written; otherwise exactly one message with the title, text and the session user's id is appended |
| `App.Board.Logout` | app.js:207-214 | the session is emptied and the client goes to / |
| `Properties.SignUpThenAuthenticate` | app.js:65-77 | given bcrypt's promise, the strategy callback accepts the email and password of a row inserted by sign-up and yields that row; the full login also needs both fields non-empty (`App.Board.Login`, `Scenarios.SignUpLogOutLogIn`) |
| `Properties.ElevationSeenOnNextRequest` | app.js:161-172 | the session keeps only the id, so a flag set after login is seen on the next request, and nothing else in the row changes |
| `Properties.SetFlagIdempotent` | app.js:106-118 | repeating an elevation leaves the table as the first one did |
| `Properties.SetFlagNeverDemotes` | app.js:106-118 | no elevation clears a flag on any row |
| `Properties.AdminAloneCannotPost` | app.js:180-182 | an admin who is not a member is denied the message form and the post |
| `Properties.BothDigestsMatchGrantsMember` | app.js:106-115 | a passcode matching both digests grants membership, never admin |
| `Scenarios.SignUpLogOutLogIn` | app.js:56-83 | given bcrypt's promise and a non-empty email and password, sign-up, logout, then login with the same credentials succeeds and the session holds the id of the row sign-up created with that email |
| `Scenarios.MembershipUnlocksPosting` | app.js:187-199 | a new non-member's post is refused with nothing written; after joining with the member passcode the same post appends exactly one message carrying the id of the row sign-up created with that email |
| `Scenarios.AnonymousCannotPost` | app.js:179-190 | an anonymous visitor is sent to /login by both /new-message handlers and nothing is written |
| `Scenarios.MismatchedConfirmation` | app.js:61-63 | a mismatched confirmation answers 400, creates no row and logs no one in |
| `Scenarios.JoinClubTwice` | app.js:106-110 | joining twice with the member passcode succeeds both times and the second changes nothing |

## Left out

- Express setup, body parsing, EJS rendering and `app.listen` (app.js:1-17, app.js:216) are I/O plumbing. Responses are values of `Routes.Response`.
- bcrypt's salting, cost factor and constant-time comparison are bcrypt's business. The random salt is a parameter of `SignUp`.
- The schema (`db/pool.js` and the migrations) is not part of this model. Email uniqueness and the flag defaults are explicit assumptions, as above.
- passport's own behaviour is not modelled: cookie handling, `req.login`/`req.logout` errors, and what it does with a session id that no longer resolves. Rows are never deleted, so the board's invariant keeps every session id resolvable.
- DB errors other than a duplicate email (the 500 paths), async callback ordering and concurrent requests are not modelled. Each handler is one atomic step.
- Only one client's session slot is modelled. Several browsers would each hold their own slot with the same rules.
- Store.Listing: when some message's author is missing, it states only that every listed row carries an existing author's names, not which message each row came from. The board's invariant rules that case out.
- Store.Listing, Routes.IndexPage and App.Board.Home list the joined rows in message insertion order, and their index-by-index ensures depend on that chosen order. The query has no ORDER BY, so the program promises only which rows appear, not their order.
- How user ids are generated is a schema fact not shown: the model gives each inserted row the next unused id and does not advance the counter when an INSERT is refused (a database sequence would).
- The session's flash-message list (`req.session.messages`, filled by `failureMessage: true`) is not part of the modelled state; `FlashRedirect` carries the message in the response instead, and the `/login` form never displays it.
- Message ids (an id column) are not modelled; nothing in the board reads them.
- Missing form fields (`undefined` in `req.body`) are not modelled. Form fields are strings, and an empty first name is the falsy case of `first_name || "Guest"`.
- `GET /sign-up` and `GET /login` only render a form and are not modelled.
