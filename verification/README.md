# Lipcode mentoring service — a Dafny model

This project models the core of a mentor–mentee matching web application. The back end is a
FastAPI service over SQLite; the front end is a Vue single-page app. The model covers the parts
that decide what the service accepts, stores and returns:

- **Store and entities** (`Model`): users with a role (mentor or mentee), their credentials, and
  profile fields. Match requests carry a status (pending, accepted, rejected, cancelled). Ids are
  allocated as SQLite does: one more than the largest id in use. The database is a pair of
  sequences. Every handler is a pure function. It returns the new store together with
  `Ok(value)` or `Err(HttpError(status, detail))`. An exception the Python code does not catch
  becomes a 500.
- **Credentials** (`Credentials`, `Dependencies`): password hashing and checking, and the claims
  an access token carries. A bearer token is resolved to a user, then gated by role. The 401, 404,
  403 and 500 outcomes are modelled in the order the code tries them.
- **Sign-up and login** (`AuthRoutes`, `Schemas`): duplicate e-mails are refused, a skills list is
  stored for mentors, and the login token lifetime is fixed.
- **Match requests** (`MatchRequests`, `MatchInvariants`): create, list incoming, list outgoing,
  accept, reject and cancel. Each guard returns its HTTP status and its exact message. The
  lemmas prove which store invariants every operation keeps. They also prove the one invariant
  that accept breaks.
- **Mentor list** (`Mentors`, `SqlLike`, `SkillsJson`, `Ordering`):
  - the role filter;
  - the skill filter, written in SQL as `LIKE '%"skill"%'` against the JSON text of the skills;
  - sorting by name or by the skills text, with SQLite's code-point collation, where NULL sorts
    first;
  - converting rows to list items.
  
  `SkillsJson` is the `json.dumps`/`json.loads` pair for a list of strings. It uses the default
  `ensure_ascii` escaping.
- **Profile** (`Users`): the current user's profile, profile updates and the image-upload checks.
  Images are served back, or a placeholder redirect is returned.
- **Front end**:
  - the router's navigation guard (`NavGuard`);
  - the toast queue (`Toasts`);
  - the error-to-message handler (`ErrorHandler`);
  - the client-side image checks and the image URL (`UserService`).

The code and the written design disagree in two places. The model follows the code:

- The design calls the skill filter case-sensitive. The code uses SQL `LIKE`, which in SQLite
  ignores case for ASCII letters. The code also treats `%` and `_` in the query as wildcards.
  `SqlLike` models exactly this.
- The design sorts "by skill" on a mentor's first skill. The code orders by the whole stored JSON
  text. `Mentors.GetMentorsOrderedBySkillText` states the code's order.

## Model

| member | source | states |
|---|---|---|
| Model.NextUserId | back-end/app/models/user.py:20 | a new user id is positive and larger than every id in use, so it is fresh |
| Model.NextRequestId | back-end/app/models/user.py:40 | a new match-request id is positive and larger than every id in use |
| Model.PendingCountAtMostOne | back-end/app/routers/match_requests.py:62-71 | in a valid store, each mentee has at most one pending request |
| Model.AcceptedCountAtMostOne | back-end/app/routers/match_requests.py:173-182 | in a valid store, each mentor has at most one accepted request |
| Schemas.RoleSchemaMatchesModel | back-end/app/schemas/user.py:6-8 | the request-schema role values parse to exactly the stored roles, and back |
| Schemas.StatusSchemaMatchesModel | back-end/app/schemas/user.py:10-14 | the four status strings parse to exactly the stored statuses, and back |
| Schemas.EnumValuesDistinct | back-end/app/models/user.py:7-15 | different roles and different statuses have different wire values |
| Schemas.ViewsAndMessage | back-end/app/schemas/user.py:90-102 | the incoming and outgoing views agree on id, mentor, mentee and status; only the incoming view carries the message |
| Schemas.ValidateSignup | back-end/app/schemas/user.py:17-21 | a sign-up body is accepted iff the e-mail is acceptable to the `EmailStr` validator and the role is "mentor" or "mentee", otherwise 422; the validated body holds the normalised address |
| Schemas.ValidateLogin | back-end/app/schemas/user.py:24-26 | a login body is accepted iff the e-mail is acceptable, otherwise 422; the validated body holds the normalised address |
| Schemas.ParseUpdate | back-end/app/schemas/user.py:60-74 | an update body parses iff its role parses; a skills list makes it a mentor update that carries exactly those skills |
| Credentials.HashThenVerify | back-end/app/utils/auth.py:12-20 | a password checks against its own stored hash |
| Credentials.Expiry | back-end/app/utils/auth.py:30-33 | a token expires after the given non-zero lifetime, or after 60 minutes when none is given |
| Credentials.CreateAccessToken | back-end/app/utils/auth.py:22-48 | the token carries the caller's claims plus iss, aud, iat, nbf, jti and exp, with iat = nbf = now |
| Credentials.IssuedNotAfterExpiry | back-end/app/utils/auth.py:30-43 | with a non-negative lifetime, a token is never issued after it expires |
| Credentials.VerifyToken | back-end/app/utils/auth.py:53-71 | verification yields no claims exactly when decoding fails, and otherwise yields the decoded claims unchanged |
| Decimal.ParseIntRoundTrip | back-end/app/core/dependencies.py:29 | the subject written as `str(id)` into a token reads back as the same integer |
| Decimal.NatToStringInjective | front-end/src/composables/useToast.ts:25 | different counters give different decimal texts, so toast ids never collide |
| Dependencies.GetCurrentUser | back-end/app/core/dependencies.py:10-48 | 401 iff the token does not verify; 500 iff its subject is not an integer; 401 "User not found" iff no user has that id; otherwise the user with that id |
| Dependencies.GetCurrentMentor | back-end/app/core/dependencies.py:50-57 | the authenticated user is returned iff it is a mentor; a mentee gets 403 |
| Dependencies.GetCurrentMentee | back-end/app/core/dependencies.py:59-66 | the authenticated user is returned iff it is a mentee; a mentor gets 403 |
| Dependencies.AuthenticationBeforeRole | back-end/app/core/dependencies.py:50-66 | an authentication error is reported before any role check, and is the same for both role gates |
| Dependencies.ExactlyOneGate | back-end/app/core/dependencies.py:50-66 | an authenticated user passes exactly one of the mentor and mentee gates |
| AuthRoutes.Signup | back-end/app/routers/auth.py:19-49 | 400 iff the e-mail is taken, leaving the store as it was; otherwise exactly one user is appended, with a fresh id, the hashed password and "[]" skills for a mentor |
| AuthRoutes.Login | back-end/app/routers/auth.py:59-82 | 401 unless the first user with that e-mail has a matching password; otherwise a token whose subject, e-mail, name, role and user id are that user's, expiring 3600 seconds after issue |
| AuthRoutes.LoginSucceedsIff | back-end/app/routers/auth.py:62-68 | login succeeds iff some user has that e-mail and the password checks against the first such user |
| AuthRoutes.SignupThenLogin | back-end/app/routers/auth.py:25-80 | after a successful sign-up, logging in with the same e-mail and password succeeds as the new user |
| AuthRoutes.SignupKeepsUsers | back-end/app/routers/auth.py:33-47 | sign-up changes no existing user and no match request |
| AuthRoutes.SignupThenOtherSpelling | back-end/app/routers/auth.py:23-80 | after a sign-up, every spelling of the address that normalises to the same address logs in as the new user, and signs up only to be refused with 400 |
| AuthRoutes.SignupKeepsValid | back-end/app/routers/auth.py:25-47 | sign-up keeps every store invariant (unique ids and e-mails, readable ASCII skills, resolvable requests, per-mentee and per-mentor limits) |
| MatchRequests.Create | back-end/app/routers/match_requests.py:23-91 | 400 without a mentor of that id; 403 for another mentee; 400 on an active request to that mentor; 400 on another pending request; otherwise exactly one pending request with a fresh id is appended and its view returned |
| MatchRequests.Incoming | back-end/app/routers/match_requests.py:100-118 | the listing holds exactly the views of requests addressed to the mentor |
| MatchRequests.Outgoing | back-end/app/routers/match_requests.py:127-144 | the listing holds exactly the views of requests sent by the mentee |
| MatchRequests.ListingsFollowStoreOrder | back-end/app/routers/match_requests.py:105-134 | both listings keep store order: the listing of a concatenation is the concatenation of the listings |
| MatchRequests.Accept | back-end/app/routers/match_requests.py:154-195 | 404 unless the mentor owns a request of that id; 400 if the mentor already has an accepted request; otherwise that request alone becomes accepted, whatever its previous status |
| MatchRequests.Reject | back-end/app/routers/match_requests.py:205-234 | 404 unless the mentor owns the request; otherwise that request alone becomes rejected, from any status |
| MatchRequests.Cancel | back-end/app/routers/match_requests.py:244-273 | 404 unless the mentee owns the request; otherwise that request alone becomes cancelled, from any status |
| MatchRequests.AcceptPendingOnly | back-end/app/routers/match_requests.py:161-185 | the corrected accept: 404 when the caller has no such request, 400 when the caller already has an accepted request, 400 "not pending" when the request found is not pending, and success exactly when none applies, changing only that request to accepted |
| MatchInvariants.CreateKeepsValid | back-end/app/routers/match_requests.py:49-83 | creating a request keeps every store invariant |
| MatchInvariants.CreateKeepsPairUnique | back-end/app/routers/match_requests.py:49-59 | creating a request keeps at most one active request per mentor–mentee pair |
| MatchInvariants.RejectKeepsValid | back-end/app/routers/match_requests.py:212-226 | rejecting keeps every store invariant and the per-pair limit |
| MatchInvariants.CancelKeepsValid | back-end/app/routers/match_requests.py:251-265 | cancelling keeps every store invariant and the per-pair limit |
| MatchInvariants.AcceptKeepsValid | back-end/app/routers/match_requests.py:173-187 | accepting keeps every store invariant, including one accepted mentee per mentor |
| MatchInvariants.OnlyTheAskedRequestChanges | back-end/app/routers/match_requests.py:161-263 | accept, reject and cancel change only the status of the request with the given id |
| MatchInvariants.AcceptedMentorAcceptsNothingMore | back-end/app/routers/match_requests.py:173-182 | a mentor with an accepted request can accept no other request |
| MatchInvariants.CancelPendingFreesMentee | back-end/app/routers/match_requests.py:62-71 | once a mentee cancels the pending request, that mentee has no pending request left |
| MatchInvariants.CreateAppearsLast | back-end/app/routers/match_requests.py:74-134 | a created request appears last in the mentor's incoming listing and in the mentee's outgoing listing |
| MatchInvariants.AcceptReopensClosedPair | back-end/app/routers/match_requests.py:154-195 | from an empty valid store, the steps create, reject, create again and accept the first request all succeed, and they leave two active requests for one pair |
| MatchInvariants.AcceptPendingOnlyAgreesOnPending | back-end/app/routers/match_requests.py:161-195 | on a pending request, the corrected accept behaves exactly as the original |
| MatchInvariants.AcceptPendingOnlyKeepsPairUnique | back-end/app/routers/match_requests.py:49-59 | the corrected accept keeps at most one active request per pair |
| MatchInvariants.AcceptPendingOnlyRefusesNonPending | back-end/app/routers/match_requests.py:161-185 | with unique request ids, the corrected accept refuses every one of the caller's requests that is no longer pending, and leaves the store unchanged |
| MatchInvariants.AcceptPendingOnlyRefusesClosed | back-end/app/routers/match_requests.py:173-185 | the corrected accept refuses the rejected request of the counterexample trace |
| SkillsJson.DecodeEncode | back-end/app/routers/users.py:32-136 | the skills text written by the profile update reads back as the same list |
| SkillsJson.EncodeIsAscii | back-end/app/routers/users.py:136 | the stored skills text contains only ASCII characters |
| SkillsJson.QuotedItemOccurs | back-end/app/routers/mentors.py:33 | every skill of the list occurs in the stored text in its quoted, escaped form |
| SqlLike.OccurrenceMatches | back-end/app/routers/mentors.py:33 | a needle occurring in the text satisfies `LIKE '%needle%'` |
| SqlLike.WideNeedleNeverMatchesAscii | back-end/app/routers/mentors.py:33 | a needle with a non-ASCII character never matches an ASCII-only text |
| Ordering.StrLeTotal | back-end/app/routers/mentors.py:36-40 | any two texts are comparable in code-point order |
| Ordering.StrLeTransitive | back-end/app/routers/mentors.py:36-40 | code-point order is transitive |
| Ordering.StrLeAntisymmetric | back-end/app/routers/mentors.py:36-40 | code-point order is antisymmetric |
| Mentors.SelectMentors | back-end/app/routers/mentors.py:28-33 | a user is selected iff it is a mentor and, when a skill is given, passes the skill filter |
| Mentors.SortBy | back-end/app/routers/mentors.py:36-40 | the rows come out sorted on the key and are a permutation of the input |
| Mentors.Ordered | back-end/app/routers/mentors.py:36-42 | "name" and "skill" sort the rows; any other value keeps store order; the rows are a permutation |
| Mentors.ListItem | back-end/app/routers/mentors.py:46-63 | an item is built iff the stored skills parse; it carries the mentor's id, e-mail, name, bio or "", image path and parsed skills |
| Mentors.ListItems | back-end/app/routers/mentors.py:45-65 | the list is built iff every row converts, item by item, otherwise 500 |
| Mentors.GetMentors | back-end/app/routers/mentors.py:20-65 | one item per selected mentor, sorted by name when asked; 500 iff some selected mentor's skills do not parse |
| Mentors.GetMentorsListsSelected | back-end/app/routers/mentors.py:28-65 | every listed item is the item of a selected mentor, and every selected mentor is listed |
| Mentors.GetMentorsOrderedBySkillText | back-end/app/routers/mentors.py:38-40 | ordering by skill sorts the items by the stored skills text, not by the first skill |
| Mentors.ReadableSkillsNeverFail | back-end/app/routers/mentors.py:47 | in a valid store, listing mentors never fails |
| Mentors.PlainSkillListedAsWritten | back-end/app/routers/mentors.py:31-33 | a mentor whose list holds a plain ASCII skill is found by that skill |
| Mentors.WideSkillNeverListed | back-end/app/routers/mentors.py:31-33 | in a valid store, a skill with a non-ASCII character never finds any mentor |
| Mentors.WideSkillExample | back-end/app/routers/mentors.py:31-33 | a mentor who saved the skill "리액트" is not found by that skill |
| Mentors.ListMembershipFindsExactly | back-end/app/routers/mentors.py:31-33 | the corrected filter lists exactly the mentors whose skill list contains the skill |
| Mentors.SavedSkillIsFound | back-end/app/routers/mentors.py:31-33 | with the corrected filter, a mentor who saved "리액트" is found by that skill |
| Users.ProfileOf | back-end/app/routers/users.py:27-56 | the profile carries the user's id, e-mail, role, name, bio or "", the `/images/<role>/<id>` path, and a mentor's parsed skills; 500 when they do not parse |
| Users.StoreImage | back-end/app/routers/users.py:84-132 | an image is stored iff it opens as JPEG or PNG, is 500–1000 pixels per side, saves with a format and is at most 1 MiB; each failure, in the order the code checks, is a 400 with its own message |
| Users.ImageFileNamesDistinct | back-end/app/routers/users.py:125-126 | two different users never get the same image file name, whatever the formats |
| Users.Updated | back-end/app/routers/users.py:79-136 | the update sets the name and bio, sets the image only when one is sent, sets the skills only for a mentor body, and keeps id, e-mail, role and password |
| Users.UpdateProfile | back-end/app/routers/users.py:66-142 | 403 iff the body names another user; every failure raised before the commit (403 and the image 400s) leaves the store unchanged, while the 500 of unreadable skills comes after it; success replaces only the caller and returns the new profile |
| Users.GetProfileImage | back-end/app/routers/users.py:150-166 | an unknown role is a 500; a missing user of that role is a 404; otherwise the stored bytes, or a redirect to the role's placeholder |
| Users.ProfileImageUrlResolves | back-end/app/routers/users.py:29-162 | the image route, called with the role and id a profile shows, returns that user's image |
| Users.MentorSkillsRoundTrip | back-end/app/routers/users.py:134-142 | a mentor's profile after an update shows exactly the skills sent |
| Users.UpdateKeepsValid | back-end/app/routers/users.py:66-142 | a profile update keeps every store invariant |
| Users.UploadedImageIsServed | back-end/app/routers/users.py:125-162 | after an accepted upload, the image route returns exactly the stored bytes |
| NavGuard.RouteFor | front-end/src/router/index.ts:5-48 | a path resolves to the one static route it matches, ASCII case ignored and one trailing slash optional, and to the catch-all iff it matches none |
| NavGuard.ResolvesToOwnRoute | front-end/src/router/index.ts:7-42 | each declared path resolves to its own route |
| NavGuard.PathSpellingsResolveAlike | front-end/src/router/index.ts:5-48 | a path resolves as its lower-cased form does, and as the same path with one slash appended |
| NavGuard.ProfileSpellingsNeedToken | front-end/src/router/index.ts:25-58 | without a token, "/profile/" and "/Profile" are sent to /login as "/profile" is |
| NavGuard.Guard | front-end/src/router/index.ts:52-68 | redirect to /login iff the route needs auth and no token is stored; redirect to / iff it needs a guest and a token is stored; otherwise proceed |
| NavGuard.GuardSeesOnlyFlagsAndPresence | front-end/src/router/index.ts:52-68 | the decision depends only on the two route flags and on whether a token is present |
| NavGuard.TableDecisions | front-end/src/router/index.ts:7-68 | without a token, protected pages go to /login; with one, login and sign-up go to / |
| NavGuard.RedirectTargetProceeds | front-end/src/router/index.ts:13-68 | the page a redirect leads to lets the same visitor through, so redirects do not loop |
| NavGuard.MentorListOpenToAnyToken | front-end/src/router/index.ts:31-59 | the mentor list opens for any token, whatever the role in the route's meta |
| Toasts.AddToast | front-end/src/composables/useToast.ts:24-38 | a toast is appended with the id `toast-<counter>`, and the counter advances by one |
| Toasts.FindToast | front-end/src/composables/useToast.ts:40-45 | finds the first toast with the given id, or reports that there is none |
| Toasts.RemoveToast | front-end/src/composables/useToast.ts:40-45 | removing an unknown id changes nothing; removing a known id drops one toast and keeps the counter |
| Toasts.Notify | front-end/src/composables/useToast.ts:47-61 | each shortcut adds one toast of its kind with the given title and message |
| Toasts.IdNumberOfToastId | front-end/src/composables/useToast.ts:25 | the counter can be read back from a toast id |
| Toasts.WfIdsDistinct | front-end/src/composables/useToast.ts:21-25 | in a well-formed queue, toast ids are pairwise distinct |
| Toasts.AddKeepsWf | front-end/src/composables/useToast.ts:21-38 | adding keeps the queue well formed, and the new id was not in use |
| Toasts.RemoveKeepsWf | front-end/src/composables/useToast.ts:40-45 | removing keeps the queue well formed |
| ErrorHandler.BaseMessage | front-end/src/composables/useErrorHandler.ts:17-28 | the message is the body's error, else its detail, else the error's message, else the default, the first non-empty one winning |
| ErrorHandler.HandleError | front-end/src/composables/useErrorHandler.ts:17-44 | a known status (401, 403, 404, 500) replaces the message; one error toast with that message is added and the message returned |
| ErrorHandler.MessageNeverEmpty | front-end/src/composables/useErrorHandler.ts:17-39 | with a non-empty default, the shown message is never empty |
| ErrorHandler.StatusDecidesAlone | front-end/src/composables/useErrorHandler.ts:31-39 | for a known status, the message does not depend on the response body |
| ErrorHandler.HandleErrorKeepsWf | front-end/src/composables/useErrorHandler.ts:41-43 | handling an error keeps the toast queue well formed |
| UserService.ValidateImageFile | front-end/src/services/user.ts:37-51 | a file is valid iff its type is JPEG or PNG and it is at most 1 MiB; the type error is reported first |
| UserService.SizeLimitMatchesServer | front-end/src/services/user.ts:45-48 | the client size limit is the server's 1 MiB limit |
| UserService.TypeCheckedFirst | front-end/src/services/user.ts:39-48 | a file of the wrong type gets the type error whatever its size |
| UserService.UrlMatchesProfile | front-end/src/services/user.ts:17-19 | the client's image URL ends with the path the server puts in the profile |

## Left out

- Password hashing is an opaque, deterministic function parameter. SHA-256 itself is not modelled.
- Token signing and decoding (python-jose) are not modelled. `VerifyToken` takes the decoder's
  outcome as a parameter; the signature and expiry checks happen inside it. The audience is not
  checked at all (`verify_aud` is off), so no audience check is modelled.
- The clock (`datetime.utcnow`) and `uuid4` are parameters. Timestamps are whole seconds.
- Base64 decoding and Pillow are not modelled. The image's format, size and saved bytes are an
  `ImageProbe` parameter. The crop arithmetic is not modelled, because only the saved bytes reach
  the store.
- Database sessions, transactions, the `created_at`/`updated_at` columns and concurrent requests
  are not modelled. A handler that raises leaves the store as it was.
- Application wiring is not modelled: the `/api` prefix, CORS, the static `/images` mount and
  table creation in `back-end/main.py`, and `back-end/app/core/config.py` and `database.py`.
- Users.ProfileImageUrlResolves: states what the image handler returns for the role and id a
  profile shows, not what a browser gets for the profile's address. `back-end/main.py:44` serves
  that handler under `/api/images/...`, while the profile's `/images/...` address and the client's
  URL (`UserService.UrlMatchesProfile`) reach the static file mount of `back-end/main.py:49`,
  which serves files from disk and never the image bytes kept in the database. Since the wiring
  is not modelled, the model does not claim that the address shown in a profile serves the image.
- Schemas.ValidateSignup: which texts `EmailStr` accepts and how it normalises them (domain
  lower-casing, blanks, a display name) is decided by the external validator. Both are
  parameters (`EmailRules`), and the model relies only on the same rules serving signup and login.
- NavGuard.RouteFor: percent-encoding, query strings and hash fragments of the visited location are
  not modelled; the path is taken as the router hands it to its matcher.
- The front end's HTTP client, localStorage access, `convertImageToBase64`, the Pinia store, the
  type declarations and console output are not modelled. A stored token is an optional string.
- Request-body validation by FastAPI is modelled only where a handler depends on it:
  `ValidateSignup`, `ParseUpdate`, and integer ids. A missing `Authorization` header is not
  modelled.
- Decimal.ParseInt: does not accept the surrounding whitespace, the `_` digit separators and the
  non-ASCII Unicode decimal digits that Python's `int()` accepts. Tokens issued by the service never contain them.
- SkillsJson.Decode: accepts only the layout `json.dumps` writes for a list of strings. Any other
  JSON reads as unparseable, which gives a 500. Skills are only ever written by `json.dumps` or as
  `"[]"`.
- Mentors.SortBy: SQLite leaves the order of equal keys unspecified. The model fixes one admissible
  order, a stable sort, and states only sortedness and permutation.
- Mentors.GetMentors: with no order requested, rows come back in store order. SQLite does not
  promise this.
- Common.LowerAscii: Python's `str.lower` is modelled for ASCII letters only. Pillow format names
  are ASCII.
- SqlLike.Like: SQLite's case folding is modelled for ASCII only, as SQLite does it by default.
- ErrorHandler.HandleError: assumes the error has the `ApiError` shape with string fields. The
  truthiness of non-string values is not modelled.
- NavGuard.Guard: the routes' `role` meta is never read by the guard, and the model reflects that.
  Lazy loading of route components is not modelled.

## Findings

| source | as written | input that shows it | evidently intended | confidence | as-written member | corrected member |
|---|---|---|---|---|---|---|
| back-end/app/routers/match_requests.py:173-185 | accept checks only that the mentor has no accepted request, not that the request is still pending | mentee 2 asks mentor 1 (request 1), mentor 1 rejects it, mentee 2 asks again (request 2), mentor 1 accepts request 1: both requests are now active for the same pair | only a pending request can be accepted, so a pair never has two active requests | not executed; high | MatchInvariants.AcceptReopensClosedPair | MatchInvariants.AcceptPendingOnlyKeepsPairUnique |
| back-end/app/routers/mentors.py:31-33 | the skill filter searches the JSON text for `"skill"`, but `json.dumps` writes non-ASCII characters as `\uXXXX` escapes | a mentor saves the skills ["리액트"]; listing mentors with skill=리액트 returns nobody | a mentor is listed when the skill is in the mentor's skill list | not executed; high | Mentors.WideSkillExample | Mentors.SavedSkillIsFound |
