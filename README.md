# Event registration platform — verified model of the backend core

This project is a Dafny model of the backend of an event-registration platform:
an Express API over a Prisma database of events, registrations and users.

The heart of it is the **registration workflow** of `POST /events/:id/register` and `DELETE /events/:id/register`. Each (user, event) pair is a small state machine: no row → CONFIRMED → CANCELLED → CONFIRMED … The workflow:

- guards registering with the event's capacity, counted over CONFIRMED rows only;
- reuses the pair's one row instead of inserting a duplicate.

Around it the model covers:

- the rest of the `/events` router: single-event lookup with the confirmed count, and event creation;
- the `/admin` router:
  - the registration listing, with its filter and newest-first order;
  - the spreadsheet export, with its order (event date, then newest first) and the mapping from registration to row;
  - event update;
  - event deletion with its cascade;
- the `/auth` router: sign-up, with the input check, unique email and role USER, and login, with one 401 for an unknown email or a wrong password;
- the two middlewares:
  - `authenticate` checks the `Bearer` header (section 2.1 of RFC 6750) and extracts the token;
  - `requireAdmin` is the role gate.

The database is the class `Store.Db`. It has one `map` per table, and its `Valid()` invariant holds:

- primary keys;
- the unique (userId, eventId) pair;
- the unique email;
- the registration's foreign keys.

Each route is a method that reads the tables and then writes them. Its contract states, for every branch, the exact reply and the exact new tables. The capacity rule `WithinCapacity` (no event has more CONFIRMED registrations than its capacity admits) is shown to be preserved by every write the routes make except `PUT /admin/events/:id`. `AdminRoutes.ReplaceKeepsCapacityIff` states exactly when an update keeps the rule.

Library calls are function-typed parameters, so nothing is assumed about them:

| parameter | stands for |
|---|---|
| `verify` | `jwt.verify` (`None` where it throws) |
| `sign` | `jwt.sign` |
| `hash` | `bcrypt.hash` |
| `matches` | `bcrypt.compare` |
| `toIso` | `Date.prototype.toISOString` |

Other modelling choices:

- Dates and creation times are integers, compared as instants; `now` is the time of the call.
- New primary keys come from a key mint. Each new key is longer than every key issued before.
- `String.prototype.split` with a one-character separator is `Strings.Split`. It is proved to be the inverse of `Strings.Join`.

The model covers these store throws. Each becomes the route's 500 answer, and nothing is written:

- update of a missing event;
- delete of a missing event;
- insert of a registration whose user no longer exists (foreign-key violation).

`Scenarios` verifies two request sequences from the route contracts alone:

- **One seat:** A registers and B is refused. A cancels and B registers. Then both are refused for capacity, because the capacity check comes before the duplicate check.
- **Row reuse:** a user registers, cancels twice, and registers again. The second registration gets 200 with the same row, and a further attempt is a duplicate.

## Model

| member | source | states |
|---|---|---|
| Http.StatusCode | backend/src/routes/events.ts:105-127 | an error reply is sent with its own status; `res.json` is 200, `res.status(201)` is 201, and `res.status(204).send()` (backend/src/routes/admin.ts:124, the admin delete) is 204, so every success is 2xx |
| Strings.Split | backend/src/middleware/auth.ts:18 | `split` on one character gives at least one field, no field holds the separator, and joining the fields with it gives the string back |
| Strings.SplitWithoutSeparator | backend/src/middleware/auth.ts:18 | a string without the separator splits into itself alone |
| Strings.SplitAfterField | backend/src/middleware/auth.ts:18 | splitting `p + sep + t` with `p` separator-free yields `p` followed by the fields of `t` |
| Strings.SplitJoin | backend/src/middleware/auth.ts:18 | round trip: splitting the join of separator-free fields returns those fields |
| Strings.FirstFieldIsLongestPrefix | backend/src/routes/admin.ts:62 | `s.split(sep)[0]` is a prefix of `s` with no separator that ends at the end of `s` or at a separator |
| Middleware.BearerToken | backend/src/middleware/auth.ts:18 | `authHeader.split(' ')[1]` after the "Bearer " prefix is the text after the prefix up to the next space or the end |
| Middleware.Authentication | backend/src/middleware/auth.ts:11-27 | every refusal of `authenticate` is a 401 |
| Middleware.AdminGate | backend/src/middleware/auth.ts:29-35 | the chain `authenticate, requireAdmin` lets through only a user whose role is "ADMIN" |
| Middleware.RejectsWithoutBearer | backend/src/middleware/auth.ts:12-16 | a missing header, or one not starting with exactly "Bearer ", gives 401 "Unauthorized" |
| Middleware.AuthenticationPassIff | backend/src/middleware/auth.ts:18-26 | the request passes if and only if the header has the prefix and its token verifies, then with the token's own payload; a failed verification gives 401 "Invalid token" |
| Middleware.AdminGatePassIff | backend/src/middleware/auth.ts:29-35 | the admin chain passes if and only if authentication passes with role exactly "ADMIN"; an authenticated non-admin gets 403, an unauthenticated request keeps its 401 |
| Middleware.Request.constructor | backend/src/middleware/auth.ts:4-9 | a request starts with no `user`, no `next` call and no answer |
| Middleware.Request.Authenticate | backend/src/middleware/auth.ts:11-27 | on success `req.user` is the decoded payload and `next` is called exactly once; on failure a 401 is sent, `req.user` is untouched and `next` is not called |
| Middleware.Request.RequireAdmin | backend/src/middleware/auth.ts:29-35 | `next` is called if and only if `req.user` is present with role "ADMIN"; otherwise 403 is sent, a missing user included |
| Middleware.IsBearer | backend/src/middleware/auth.ts:13 | `startsWith('Bearer ')` holds exactly when the first seven characters are "Bearer " with that case and the space |
| Middleware.IsAdmin | backend/src/middleware/auth.ts:30 | `req.user?.role === 'ADMIN'`: an admin is a present user with role "ADMIN"; a missing user is not an admin |
| Middleware.RunChain | backend/src/routes/admin.ts:8 | running the middlewares on a request reaches the handler exactly when the gate function passes, with the same user |
| Store.StatusName | backend/src/routes/admin.ts:65 | the export writes CONFIRMED as "CONFIRMED" and CANCELLED as "CANCELLED", and nothing else gets either name |
| Store.RoleName | backend/src/middleware/auth.ts:30 | a role's name is "ADMIN" exactly for the admin role and "USER" exactly for the user role |
| Store.EventOf | backend/src/routes/events.ts:50-58 | the stored event carries its key and the supplied title, description, date, capacity and location |
| Store.FindPair | backend/src/routes/events.ts:94-101 | the lookup by (userId, eventId) returns a row of that pair, and returns none only if no row of the pair exists |
| Store.FindPairFindsRow | backend/src/routes/events.ts:94-101 | under the unique pair constraint, the lookup by a row's own user and event finds exactly that row |
| Store.FindByEmail | backend/src/routes/auth.ts:18 | the lookup by email returns a user with that email, and returns none only if no user has it |
| Store.WithStatus | backend/src/routes/events.ts:109-112 | a status update replaces that row by the same row with the new status (same id, user, event and creation time), changes no other row, and adds or removes no key |
| Store.WithoutEvent | backend/src/routes/admin.ts:116-118 | `deleteMany({ eventId })` leaves no row of the event, keeps every row of other events, and every remaining row is an unchanged original row |
| Store.ZeroCountIffNoneConfirmed | backend/src/routes/events.ts:26-30 | the `_count` of CONFIRMED registrations is zero exactly when no registration of the event is CONFIRMED |
| Store.StatusChangeCount | backend/src/routes/events.ts:109-112 | a status change moves only its own event's confirmed count, by one up on reactivation and one down on cancelling a confirmed row |
| Store.InsertCount | backend/src/routes/events.ts:119-125 | inserting a CONFIRMED row raises its event's confirmed count by one and leaves other counts alone |
| Store.CascadeCount | backend/src/routes/admin.ts:116-118 | after the cascade the deleted event counts zero and every other event keeps its count |
| Store.FindPairIgnoresStatus | backend/src/routes/events.ts:140-157 | a status change keeps the pair constraint and the pair lookup finds the same row, so cancel and re-register reuse one row |
| Store.CancelIdempotent | backend/src/routes/events.ts:154-157 | cancelling twice leaves the same table as cancelling once |
| Store.DeleteNeedsCascade | backend/src/routes/admin.ts:116-122 | deleting an event that still has registrations would break the foreign key; after the cascade it does not |
| Store.MintedKey | backend/src/routes/events.ts:119-125 | each generated key is one longer than the number of keys issued before it |
| Store.Db.NewKey | backend/src/routes/events.ts:119-125 | a generated primary key is used by no table |
| Store.Db.CreateRegistration | backend/src/routes/events.ts:119-125 | `registration.create` adds exactly one CONFIRMED row for (user, event) at time `now` under a new key, and keeps every constraint |
| Store.Db.UpdateStatus | backend/src/routes/events.ts:109-112 | `registration.update` of the status changes that row only, and returns the updated row |
| Store.Db.DeleteRegistrationsOf | backend/src/routes/admin.ts:116-118 | `registration.deleteMany` removes exactly the event's registrations |
| Store.Db.CreateEvent | backend/src/routes/events.ts:50-58 | `event.create` adds one event with the given fields under a new key that no registration refers to |
| Store.Db.UpdateEvent | backend/src/routes/admin.ts:93-102 | `event.update` replaces the five fields of that id only |
| Store.Db.DeleteEvent | backend/src/routes/admin.ts:120-122 | `event.delete` removes exactly that event, once no registration refers to it |
| Store.Db.CreateUser | backend/src/routes/auth.ts:25-31 | `user.create` adds exactly one user with the given email, password and role, keeping emails unique |
| EventRoutes.HasSeatBelowSeats | backend/src/routes/events.ts:88-91 | passing the capacity check leaves room for one more confirmed registration |
| EventRoutes.OneMoreKeepsCapacity | backend/src/routes/events.ts:88-125 | one more confirmed registration for an event that passed the capacity check keeps every event within capacity |
| EventRoutes.Register | backend/src/routes/events.ts:68-132 | unknown event → 404; full event → 400 capacity, even for a confirmed user; confirmed row → 400 duplicate; cancelled row → same row set CONFIRMED, 200; no row → one new CONFIRMED row, 201; user gone → 500. Only a success writes, raising this event's confirmed count by exactly one, and capacity is preserved |
| EventRoutes.Reactivate | backend/src/routes/events.ts:107-114 | the pair's cancelled row becomes CONFIRMED in place, the count rises by one, capacity is preserved |
| EventRoutes.ReactivationCounts | backend/src/routes/events.ts:107-114 | confirming a cancelled row adds one confirmed registration to its own event and changes no other event's count |
| EventRoutes.EnrolmentCounts | backend/src/routes/events.ts:118-127 | inserting a confirmed row under a new key adds one to its event's count only |
| EventRoutes.Enrol | backend/src/routes/events.ts:118-127 | a first CONFIRMED row for the pair is added, the count rises by one, capacity is preserved |
| EventRoutes.Cancel | backend/src/routes/events.ts:135-164 | no row → 404 with nothing written; any row, confirmed or already cancelled, is set CANCELLED and returned, other rows untouched; no count rises |
| EventRoutes.GetEvent | backend/src/routes/events.ts:21-43 | unknown id → 404; otherwise the event with the number of its CONFIRMED registrations |
| EventRoutes.CreateEvent | backend/src/routes/events.ts:46-65 | answers 201 with a new event of the given fields, no registrations, and capacity preserved |
| EventRoutes.Guard | backend/src/routes/events.ts:46 | the single-event lookup runs without middleware, `POST /` behind `authenticate, requireAdmin`, registering and cancelling behind `authenticate` |
| EventRoutes.RegisterFor | backend/src/routes/events.ts:68-132 | for the given user, in the order the handler checks: an unknown event is 404; an event with no free seat is 400 "Event is at full capacity"; an existing CONFIRMED row is 400 "Already registered"; an existing CANCELLED row is answered and stored with only its status changed to CONFIRMED, keeping its id and creation time (200); no row and a stored user gives a new row created at `now` (201); no row and no stored user is 500. A success is that user's CONFIRMED row for the event, the only row written, raising the count by one; any error writes nothing |
| EventRoutes.CancelFor | backend/src/routes/events.ts:135-164 | for the given user: 404 without a row, otherwise that user's own row answered and stored as CANCELLED |
| EventRoutes.Serve | backend/src/routes/events.ts:21-164 | a call refused by its middleware answers the middleware's error and writes nothing; the lookup is read-only with the event and its confirmed count; an admin's `POST /` creates one event of the given fields; register and cancel act for `req.user.id`, the token's own user, write neither the events nor the users table, with register answering 404, full 400, duplicate 400, reactivation 200 keeping the row's creation time, new row 201 created at `now`, or 500 as the handler checks them; every call keeps capacity |
| AdminRoutes.JoinOf | backend/src/routes/admin.ts:19-22 | the included user is the registration's user (id, email) and the included event is its event (id, title, date, location) |
| AdminRoutes.Selects | backend/src/routes/admin.ts:15 | an absent or empty `eventId` selects every registration; otherwise only registrations of that event are selected |
| AdminRoutes.PrecedesTotalPreorder | backend/src/routes/admin.ts:41-44 | both orderings (`createdAt` descending; event `date` ascending then `createdAt` descending) compare any two rows, are transitive, and let two rows swap only when every sort key ties |
| AdminRoutes.HeadPrecedesAll | backend/src/routes/admin.ts:23 | an element that may precede every row still may after one more row is inserted |
| AdminRoutes.Insert | backend/src/routes/admin.ts:23 | inserting into a sorted sequence keeps it sorted and adds exactly that row |
| AdminRoutes.Sort | backend/src/routes/admin.ts:23 | `orderBy` returns the same rows, as a multiset, in sorted order |
| AdminRoutes.FindMany | backend/src/routes/admin.ts:17-24 | `findMany` returns every selected row exactly once, sorted |
| AdminRoutes.ListRegistrations | backend/src/routes/admin.ts:11-31 | the listing is exactly the selected registrations, each once, newest first, each the stored row, and of the requested event when one is given |
| AdminRoutes.ListingCoversSelection | backend/src/routes/admin.ts:13-15 | a registration is selected if and only if no eventId (or an empty one) is given or it belongs to that event |
| AdminRoutes.DatePart | backend/src/routes/admin.ts:62 | `toISOString().split('T')[0]` is the prefix of the ISO string that ends where the string ends or at its first 'T' |
| AdminRoutes.SheetRowOf | backend/src/routes/admin.ts:59-67 | an export row copies title, location, email and status, and each date is a prefix of the ISO string without a 'T' that ends at the string's end or at its first 'T' |
| AdminRoutes.SelectionWithoutFilter | backend/src/routes/admin.ts:36-45 | with no filter the export selects one joined row per stored registration |
| AdminRoutes.Worksheet | backend/src/routes/admin.ts:59-68 | one sheet row per ordered registration, each the mapping of the registration at the same position |
| AdminRoutes.Export | backend/src/routes/admin.ts:34-85 | one worksheet row per registration, in event-date ascending then createdAt descending order, each row mapped from its registration |
| AdminRoutes.ReplaceKeepsCapacityIff | backend/src/routes/admin.ts:93-102 | an update keeps the capacity rule if and only if the event's confirmed count fits the new capacity; the route does not check this |
| AdminRoutes.UpdateEvent | backend/src/routes/admin.ts:88-109 | replaces the five fields of that event only; an unknown id gives 500 with nothing written |
| AdminRoutes.DeleteEvent | backend/src/routes/admin.ts:112-129 | removes the event's registrations, then the event; no registration refers to it afterwards, other registrations and counts are unchanged; an unknown id gives 500 with nothing written |
| AdminRoutes.Serve | backend/src/routes/admin.ts:8 | no admin handler runs and nothing is written unless the caller is authenticated with role ADMIN; behind the gate the listing is sorted newest first over the selection, the export is the ordered worksheet, PUT replaces that event only (500 when unknown), DELETE cascades (500 when unknown); listing and export write nothing |
| AuthRoutes.SessionOf | backend/src/routes/auth.ts:33-34 | the answer shows the user's id, email and the name of the stored role ("USER" exactly for a plain user), not the password, and the token is signed over the same id and role |
| AuthRoutes.NewEmailKeepsUnique | backend/src/routes/auth.ts:18-31 | inserting a user whose email is absent keeps emails unique |
| AuthRoutes.SignUp | backend/src/routes/auth.ts:9-39 | missing or empty email or password → 400; email in use → 400; otherwise exactly one new user with role USER and the hashed password, answered with id, email and role (no password) and a token over its own id and role; errors leave the users unchanged |
| AuthRoutes.Login | backend/src/routes/auth.ts:41-63 | unknown email and wrong password both give 401 "Invalid credentials"; success exactly when a user with that email has a matching password, answered with that user and a token over its own id and role |

## Left out

- Concurrency: register's check-then-write is not atomic in the source. The model covers sequential calls only, so capacity is not claimed under interleaving.
- `GET /events` (the list of all events ordered by date) is not part of this model.
- The frontend, its `fetch` wrapper and the seeding script are not part of this model.
- Prisma itself is not modelled. The tables are in-memory maps, and queries are functions on them, with no SQL or transactions. The `_count` include is a set cardinality.
- bcrypt and jsonwebtoken are parameters:
  - the salt rounds and the salt's randomness fall into `hash`;
  - the secret and the `'7d'` expiry fall into `sign` and `verify`.
- exceljs is not modelled: no workbook, no column widths or headers, no HTTP headers and no `res.end()`. Only the row order and the row mapping are.
- `parseInt` and `new Date(...)` on request bodies are not modelled. Capacity arrives as an integer and dates as integers.
- The routes validate neither event fields nor `capacity > 0`, and the model does not add such checks. The capacity rule therefore uses `max(0, capacity)` seats.
- EventRoutes.CreateEvent and AdminRoutes.UpdateEvent: every request body is taken to carry all five event fields. A missing field is not modelled: `event.create` without `title` throws (500), and `event.update` keeps the column of a missing `title`, `description` or `location`, since Prisma ignores `undefined` in `data`.
- The 500 catch-alls: only the store throws named above are modelled. Failures of the database connection, of bcrypt, and of request bodies that are not JSON are left out.
- AuthRoutes.Login: email and password are strings. A missing field, on which Prisma or bcrypt throws, is left out.
- AdminRoutes.ListRegistrations: the included event also carries its location (the query selects only id, title and date), because the listing and the export share one joined row.
- Key generation: keys are minted strings rather than the database's generated ids; only their freshness is modelled.
