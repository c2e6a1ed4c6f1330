# Mergington High School activities service: a Dafny model

This project models the core of a small school web service in which students
sign up for extracurricular activities. It covers the in-memory user registry
(`users_db`), account registration and login, bearer-token claims, the identity
and role guards, and the activity rosters (`activities`) with their signup and
unregister rules.

The model is functional. The service's state is `App.AppState`: the user store
(`Auth.UserDb`, the records by email plus the dict's insertion order) and the
activity map (`Roster.Activities`, where each roster is a `seq` of emails).
Every endpoint is a pure function from a state and its inputs to
`Http.Result`. `Ok` carries the new state and the response. `Err` carries the
`HTTPException` raised, as one `Http.HttpError` constructor per exception, with
its status code and detail text. A failed request has no new state, so the
state the caller had stays as it was.

Modules follow the source files:
- `Models` holds the record shapes of src/models.py, with their defaults.
- `Auth` holds src/auth.py.
- `Roster` and `App` hold src/app.py.
- `Passwords` and `Jose` stand in for the bcrypt and JWT libraries.
- `Wrappers`, `Sequences` and `Http` are small helpers.

Clocks, randomness and libraries become parameters or symbolic terms:
- `now` is an integer number of seconds, and a `timedelta` is a number of seconds.
- The bcrypt salt is a parameter, `salt`.
- A password digest is a term that records its salt and password. `VerifyPassword` compares what bcrypt compares: the first 72 bytes of each password's UTF-8 encoding. Among passwords of at most 72 bytes a digest accepts exactly its own. Beyond that, up to passlib's limit of 4096 UTF-8 bytes, it also accepts any password that shares those 72 bytes.
- A JWT is a term `Signed(payload, key, alg)`, or `Malformed(text)` for anything else a client sends. `Jose.Decode` accepts a signed term only when the key matches, the algorithm is allowed, `now <= exp` and the payload has no `aud` claim (python-jose rejects an audience claim when the caller names no audience). The other registered-claim checks python-jose makes are not modelled; the section "Left out" below lists them.

## Model

| member | source | states |
|---|---|---|
| `Models.RolesClosed` | src/models.py:9-13 | There are exactly three roles, student, teacher and admin. Each has a distinct string value that reads back to the same role. |
| `Models.ModelDefaults` | src/models.py:16-47 | An omitted registration role means student, a `User` is active unless stated otherwise, and both `TokenData` fields may be absent. |
| `Passwords.GetPasswordHash` | src/auth.py:40-42 | A fresh digest verifies the password it was made from. |
| `Passwords.VerifyPassword` | src/auth.py:35-37 | The digest's own password always verifies, and among passwords of at most 72 UTF-8 bytes no other one does. |
| `Passwords.DigestBindsPassword` | src/auth.py:35-37 | Among passwords of at most 72 UTF-8 bytes, a digest verifies its own password and no other, whatever the salt. |
| `Passwords.LongPasswordsShareDigest` | src/auth.py:35-42 | bcrypt reads only the first 72 bytes: two passwords within passlib's limit of 4096 UTF-8 bytes that share a prefix of at least 72 bytes verify against each other's digests. |
| `Passwords.Utf8Injective` | src/auth.py:35-42 | Distinct passwords have distinct UTF-8 encodings, so below the 72-byte cut no two passwords collide. |
| `Jose.Encode` | src/auth.py:53 | Encoding yields a signed token that carries exactly the given payload, key and algorithm. |
| `Jose.Decode` | src/auth.py:60 | The library's acceptance rule: text that is not a token, another key, an algorithm outside the list, a passed `exp` and an `aud` claim are each rejected, and what is accepted is the token's own payload. |
| `Jose.DecodeEncode` | src/auth.py:53-60 | A token whose claims are only `sub` and `role`, signed with the service key, decodes to its payload until `exp`, and not after. |
| `Jose.AudienceRejected` | src/auth.py:60 | A correctly signed, unexpired token that carries an `aud` claim is still rejected, because the service names no audience. |
| `Jose.ForeignKeyRejected` | src/auth.py:60 | A token signed with any other key is rejected. |
| `Auth.InitialUsers` | src/auth.py:24-32 | The initial store holds exactly one user, `admin@mergington.edu`. That user is an active administrator whose digest verifies `admin123`, and the store satisfies its invariant. |
| `Auth.CreateAccessToken` | src/auth.py:45-54 | The token copies every input claim except `exp` and adds `exp`. `exp` is `now + delta` when the delta is truthy, and `now + 15 minutes` when it is `None` or zero. |
| `Auth.DecodeAccessToken` | src/auth.py:57-73 | Decoding succeeds exactly when the library accepts the token and it has a `sub` claim. Every failure is "Could not validate credentials". The subject comes back present, and the role only if the token carries one. |
| `Auth.AuthenticateUser` | src/auth.py:76-83 | Returns the stored record itself exactly when the email is known and the password verifies, and otherwise nothing. |
| `Auth.GetCurrentUser` | src/auth.py:86-96 | A token that does not decode fails with 401 "Could not validate credentials". A subject that is not stored fails with 401 "User not found". Otherwise the result is the live stored record of the subject. |
| `Auth.RequireRole` | src/auth.py:99-108 | The user passes unchanged exactly when their role is in the allow-list. Otherwise the request fails with 403. |
| `Auth.RoleChecker` | src/auth.py:99-108 | The `require_role` dependency resolves the caller first and propagates that failure, then applies the allow-list. |
| `Auth.GetCurrentStudent` | src/auth.py:112-114 | There is no role check: every authenticated user passes, and failures are those of the identity guard. |
| `Auth.GetCurrentTeacher` | src/auth.py:117-119 | Admits exactly teachers and administrators. A student gets 403, and a caller the identity guard rejects gets that guard's error. |
| `Auth.GetCurrentAdmin` | src/auth.py:122-124 | Admits exactly administrators. Any other authenticated user gets 403, and a caller the identity guard rejects gets that guard's error. |
| `Auth.IssuedTokenDecodes` | src/auth.py:45-73 | A token issued with a subject and at most a role claim, as `login` issues it, decodes to exactly that subject and role up to its expiry second, and fails with 401 after it. |
| `Auth.ZeroDurationFallsBack` | src/auth.py:48-51 | A zero or absent duration yields a token that is valid for 15 minutes and expired one second later. |
| `Auth.RoleClaimIgnored` | src/auth.py:86-96 | Two tokens that differ only in their `role` claim resolve to the same user, or fail the same way. |
| `Auth.StaleRoleClaimDoesNotElevate` | src/auth.py:86-124 | A token claiming `admin` does not pass the admin guard for a user whom the store holds as a student. |
| `Auth.NoRoleHierarchy` | src/auth.py:99-108 | A single-role allow-list admits exactly that role. An administrator does not pass a student-only list. |
| `Roster.SeedActivitiesValid` | src/app.py:44-99 | The nine seeded activities are within capacity and have no repeated participant. |
| `Roster.SeedChessClub` | src/app.py:45-50 | The seeded Chess Club has 12 places and two participants. |
| `Roster.SeedMathClub` | src/app.py:87-92 | The seeded Math Club has 10 places and two participants. |
| `Roster.Signup` | src/app.py:212-247 | The checks run in a fixed order: a non-student is forbidden, then a missing activity gives 404, then an enrolled email gives "already signed up", then a roster at or over capacity gives "full". On success the email is appended to that roster only, and every other activity is unchanged. |
| `Roster.Unregister` | src/app.py:250-271 | There is no role check. A missing activity gives 404 and an absent email gives "not signed up". Success happens exactly when the email is on the roster. Then its first occurrence leaves that roster, the participants before and after it keep their order, and other activities are unchanged. |
| `Roster.SignupPreservesRosterValid` | src/app.py:231-246 | Because of the membership and `>=` guards, a successful signup keeps every roster within capacity and free of repeats. |
| `Roster.UnregisterPreservesRosterValid` | src/app.py:262-270 | A successful unregister keeps every roster valid, and the email is no longer on the roster. |
| `Roster.SignupUnregisterRoundTrip` | src/app.py:245-270 | Unregistering right after a successful signup restores the activities exactly. |
| `Roster.SignupTwiceRejected` | src/app.py:231-236 | A second signup for the same activity is refused with "already signed up". |
| `Roster.SignupFresh` | src/app.py:238-246 | A student who is not on the roster and has a free place joins at the end of it. |
| `Roster.SignupAllWithinCapacity` | src/app.py:238-246 | While places remain, new and distinct students joining one after another all succeed, and the roster grows by exactly their emails in order. |
| `Roster.FullActivityRefuses` | src/app.py:238-243 | A full activity refuses a new student with "Activity is full". |
| `Roster.FillThenFull` | src/app.py:232-246 | Once new students have taken every free place, the next new student is refused as full. |
| `Roster.ChessClubFillsUp` | src/app.py:45-50 | Ten new students join the seeded Chess Club, and an eleventh is refused as full. |
| `Roster.MathClubUnknownNotSignedUp` | src/app.py:262-267 | Unregistering from the seeded Math Club someone who never signed up gives "not signed up". |
| `Sequences.RemoveFirst` | src/app.py:270 | `list.remove` shortens the list by one and removes exactly one occurrence of the email, as a multiset. |
| `Sequences.RemoveFirstAtFirstIndex` | src/app.py:270 | `list.remove` cuts out the element at the first index holding the email. |
| `Sequences.RemoveFirstSplit` | src/app.py:270 | Removing the first occurrence keeps the order of the elements before and after it. |
| `Sequences.RemoveFirstOfAppended` | src/app.py:246 | Removing an element just appended, which was not there before, restores the list. |
| `Sequences.RemoveFirstNoDuplicates` | src/app.py:270 | On a list without repeats, removal keeps it without repeats and removes the element entirely. |
| `App.InitialState` | src/app.py:43-99 | The start-up state satisfies every invariant, holds only the administrator account, and has exactly the nine seeded activities. |
| `App.Register` | src/app.py:109-148 | The checks run in a fixed order: a registered email gives 400, then a domain other than `@mergington.edu` gives 400, then a teacher or admin role gives 403. Success happens exactly for a new school email with the student role. It adds one key at the end of the order, stores an active student record whose digest verifies the password, leaves other users and the activities unchanged, and returns that record without its digest. |
| `App.Login` | src/app.py:151-175 | An unknown email or a wrong password gives 401, whatever the account's state. An inactive account gives 403 only after the credentials check out. Otherwise the result is a bearer token signed with the service key under HS256, with claims `sub` = email and `role` = stored role, expiring 480 minutes after `now`. |
| `App.GetMe` | src/app.py:178-186 | Returns the caller's live record without its digest, or the identity guard's failure. |
| `App.GetAllUsers` | src/app.py:189-200 | Non-administrators get the guard's failure. An administrator gets every stored user exactly once, in registration order, without digests. |
| `App.GetActivities` | src/app.py:206-209 | Any authenticated caller gets the activities exactly as stored. |
| `App.SignupForActivity` | src/app.py:212-247 | Authentication failures come first, then the roster's outcome. Only the activities change, and the message names the activity. |
| `App.UnregisterFromActivity` | src/app.py:250-271 | Authentication failures come first, then the roster's outcome. Only the activities change. |
| `App.RegisterPreservesValid` | src/app.py:134-141 | Registration keeps the store's invariant: each key is listed once in order, and each record sits under its own email. |
| `App.RosterOperationsPreserveValid` | src/app.py:212-271 | Signup and unregister through the service keep every invariant of the state. |
| `App.SignupUnregisterRestoresState` | src/app.py:245-271 | A signup followed by an unregister with the same token restores the whole state. |
| `App.LoginThenWhoAmI` | src/app.py:168-186 | For its whole eight-hour life, a login token resolves to the caller's stored record. |
| `App.RegisterThenLogin` | src/app.py:134-175 | A newly registered user can log in with the chosen password, and the token names them as a student. |
| `App.AdminListsUsers` | src/app.py:189-200 | At start-up the administrator logs in with the seeded password and lists exactly one user, themself. |
| `App.StudentCannotListUsers` | src/app.py:189-190 | A valid student token gets 403 from the user listing. |
| `App.ExpiredTokenCannotListUsers` | src/app.py:189-190 | An expired login token gets the identity guard's 401 "Could not validate credentials" from the user listing, not 403. |

## Behaviour worth noting

Each of these is how the code behaves, and the model follows it:
- Signup checks the caller's role before it looks the activity up, so a teacher asking for a missing activity gets 403, not 404.
- Signup refuses when `len(participants) >= max_participants`. On rosters within capacity this is the same as refusing at equality.
- `create_access_token` tests `if expires_delta:`, so a zero duration counts as absent and yields a 15-minute token.
- Registration refuses the teacher and admin roles for every caller. The comment at src/app.py:127 speaks of letting a first account through without authentication, but no such branch exists.
- `get_current_student` performs no role check. Its docstring (src/auth.py:113) says "student role or higher", but every authenticated user passes, so it adds nothing to `get_current_user`.
- Participants are a list, and unregister removes only the first occurrence.
- Tokens are accepted up to and including their `exp` second, because python-jose refuses only when `exp` lies before the current second.

## Left out

- FastAPI wiring is not modelled: app construction, CORS, the static mount, the root redirect, `response_model` serialisation and status 201. `Depends` chains are modelled as explicit function calls.
- A request with no bearer header is not modelled. `HTTPBearer` rejects it inside the framework before any modelled code runs.
- bcrypt and HS256 cryptography are not modelled. Digests and tokens are symbolic terms, and the randomness of the salt is a parameter.
- Expiry and signature checks happen inside python-jose and are assumed as described above. The `WWW-Authenticate` header on the login 401 is not modelled.
- Jose.Decode: models only the signature, algorithm, `exp` and `aud` checks. python-jose also rejects a future `nbf`, a non-integer `iat`, a non-string `jti` and any `at_hash` claim (the service passes no `access_token`), and it accepts a token with no `exp` at all, which the model's payloads cannot express. The tokens this service issues never carry those claims, which is why `Jose.DecodeEncode` and `Auth.IssuedTokenDecodes` are stated only for payloads whose claims are `sub` and `role`.
- Passwords.DigestBindsPassword: the "no other password" half holds only for passwords of at most 72 UTF-8 bytes, because bcrypt truncates longer ones. `Login` therefore accepts any password of at most 4096 UTF-8 bytes that agrees with the stored one on its first 72 bytes, as `Passwords.LongPasswordsShareDigest` states.
- Passwords.LongPasswordsShareDigest: stated only for passwords of at most 4096 UTF-8 bytes. passlib raises `PasswordSizeError` for a longer password in both hashing and verifying (its bcrypt handler checks the size again after encoding the password), and no endpoint catches it, so `register` with such a password, or `login` with one for a known email, ends in a server error with no state change. The model does not represent that error: its `Register` and `Login` hash and compare over-long passwords like any other.
- Passwords containing a NUL character: passlib's bcrypt refuses them with an exception, which would end `register` or `login` with a server error. The model hashes and compares them like any other password.
- Wall-clock time becomes the `now` parameter, in whole seconds. Sub-second `datetime` precision is dropped because JWT `exp` values are whole seconds.
- Pydantic's `EmailStr` validation and normalisation are not modelled. Only the explicit `@mergington.edu` suffix check is.
- Concurrency is not modelled. Requests are sequential state transitions, and the code has no locking.
- `App.GetAllUsers` requires the store invariant `UserDb.Valid()`, which holds in every reachable state. That invariant is what lets the model's separate order list stand for the dict's own iteration order.
- The browser client, src/static/app.js, is not modelled.
