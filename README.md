# User-record state machine of the authentication service

This project is a Dafny model of the user-record core of an authentication service. It also proves properties of that model. The service exists in two generations, and both are modelled.

* **The current service** (`AuthServiceOAuth`) has these use cases:
  * registration by e-mail, with a duplicate check;
  * password login for active local accounts;
  * Google sign-in, which either creates an account or links an existing one;
  * refresh-token rotation;
  * the administrator's role update, soft delete and user listing;
  * password change;
  * unique-username generation.
* **The older service** (`AuthService`) has registration by username, login, refresh and explicit revocation. It stores only a salted hash of each refresh secret. A token is usable only while a hash is stored, the hash verifies the secret, the token has not expired and it has not been revoked.

Every use case follows the same pattern: load one `User` row, check guards, change fields, save. Each use case is one atomic step.

## Modules

| Module | Contents |
|---|---|
| `Common` | nullable values (`Option`), keys (`Guid`), time in seconds, the seven-day refresh lifetime, C#'s lifted comparisons on `DateTime?` (false when the value is null) |
| `Crypto` | BCrypt and `PasswordHasher<User>` modelled as an ideal salted hash: a digest verifies exactly the secret it was made from (`VerifyHash`) |
| `Usernames` | the e-mail local part, decimal counters and the username loop |
| `OAuthUsers` | for the current service: the user record, the guards each use case checks, the field updates each use case makes, the listing order |
| `OAuthService` | class `AuthServices` over `users: map<Guid, User>`, one method per use case. The invariant `Valid()` (`WellFormed`) says every record sits under its own key and usernames and e-mail addresses are unique |
| `LegacyUsers` | the same layering for the older service |
| `LegacyService` | the same layering for the older service; its invariant says records sit under their keys and usernames are unique |
| `Scenarios` | client methods that chain use cases and prove store-level consequences from the contracts alone |

Mutating a loaded record in place is modelled as replacing the record in the map.

The following are parameters of the operations:

* the clock (`now`);
* `Guid.NewGuid()` (`freshId`, which must not be a stored key);
* the random refresh secret;
* the hash salt;
* the result of Google token validation (`Option<GooglePayload>`).

### Behaviour of the code that deserves attention

The model follows the code in each of these points.

* The code applies no normalisation of its own to e-mail addresses or usernames: it lower-cases and trims nothing before storing or comparing.
* The current service stores refresh tokens in clear text and compares them directly.
* Refresh expiry differs between the two services:
  * the current service rejects only when expiry < now, so a token is still accepted at its exact expiry instant;
  * the older service rejects when expiry <= now.
* A null expiry never counts as expired, because the comparison on a null value is false.
* `GoogleAuthAsync` does not check `IsActive`, so a soft-deleted account matched by Google is signed in (`Scenarios.GoogleSignInIgnoresDeactivation`).
* `ChangePasswordAsync` does not check `IsActive` either.
* Linking a Local account to Google changes its provider to Google. The password hash stays, but password login and password change are then refused (`OAuthUsers.LinkedAccountLosesPasswordLogin`).
* The Google lookup takes any record that matches on Google id or on e-mail. The code therefore does not keep Google ids unique: a second record matched by e-mail can receive a subject that another record already holds. The model does not claim that Google ids are unique.

## Model

| member | source | states |
|---|---|---|
| Common.LiftedLess | AuthServiceOAuth/Services/AuthServices.cs:196 | definition: C#'s lifted `<` on `DateTime?`, false when the stored value is null |
| Common.LiftedAtMost | AuthService/Service/AuthServices.cs:151 | definition: C#'s lifted `<=` on `DateTime?`, false when the stored value is null (also line 72) |
| Crypto.Hash | AuthServiceOAuth/Services/AuthServices.cs:39 | a fresh digest verifies the secret it was made from |
| Crypto.Verify | AuthServiceOAuth/Services/AuthServices.cs:79 | definition: `BCrypt.Verify` (also line 315) and `VerifyHashedPassword(...) != Failed` in the older service |
| Crypto.Matches | AuthService/Service/AuthServices.cs:145-146 | definition: a hash is stored and verifies the secret, the negation of the test that rejects an empty hash or a `Failed` verification |
| Crypto.VerifyHash | AuthService/Service/AuthServices.cs:127-146 | a digest verifies a candidate iff the candidate is the hashed secret, whatever the salt |
| Usernames.LocalPart | AuthServiceOAuth/Services/AuthServices.cs:362 | the base name is a prefix of the e-mail address, contains no '@', and stops at the first '@' when there is one |
| Usernames.Decimal | AuthServiceOAuth/Services/AuthServices.cs:368 | the counter's text is non-empty, all digits, and has no leading zero |
| Usernames.ParseDecimalOfDecimal | AuthServiceOAuth/Services/AuthServices.cs:368 | reading a counter's text back gives the counter (round trip) |
| Usernames.DecimalInjective | AuthServiceOAuth/Services/AuthServices.cs:368 | two different counters never print the same |
| Usernames.AttemptInjective | AuthServiceOAuth/Services/AuthServices.cs:362-370 | different iterations of the loop test different names (the base name, then base+1, base+2, ...) |
| Usernames.LeastFreeNameUnique | AuthServiceOAuth/Services/AuthServices.cs:360-373 | at most one name is the first free attempt, so the loop's result is determined by the table |
| Usernames.Attempt | AuthServiceOAuth/Services/AuthServices.cs:363-369 | definition: the name tested on the k-th pass of the loop (the base name, then base + "1", base + "2", ...) |
| Usernames.IsLeastFreeName | AuthServiceOAuth/Services/AuthServices.cs:363-369 | definition: the first attempt that is not taken, every earlier attempt being taken |
| Usernames.GenerateUniqueUsername | AuthServiceOAuth/Services/AuthServices.cs:360-373 | the result is never an existing username; it is the local part if that is free, otherwise local part + k for the least k >= 1 that is free; the loop terminates because each failed test uses up a distinct taken name |
| OAuthUsers.IssueAccessToken | AuthServiceOAuth/Services/AuthServices.cs:326-350 | the token carries the user's id, username, role and provider, the e-mail or "" when there is none, and expires 24 hours after issue |
| OAuthUsers.NewLocalUser | AuthServiceOAuth/Services/AuthServices.cs:34-44 | a registered account has role "User", provider "Local", is active, has no Google id, and its hash verifies the password |
| OAuthUsers.NewGoogleUser | AuthServiceOAuth/Services/AuthServices.cs:124-138 | a created Google account has role "User", provider "Google", no password hash, Google id = subject, is active, and matches the payload |
| OAuthUsers.StartSession | AuthServiceOAuth/Services/AuthServices.cs:87-89 | a session start changes only the refresh token, its expiry (now + 7 days) and the login time; it is a rotation plus the login time |
| OAuthUsers.RotateSession | AuthServiceOAuth/Services/AuthServices.cs:204-205 | a refresh sets the token to the new one and its expiry to now + 7 days, and changes no other field |
| OAuthUsers.LinkGoogle | AuthServiceOAuth/Services/AuthServices.cs:142-154 | linking fills the Google id only when it was null or empty and otherwise keeps it, turns Local into Google and never produces Local, overwrites the picture, sets the login time, and keeps the password hash, activity, role, refresh token and its expiry |
| OAuthUsers.WithRole | AuthServiceOAuth/Services/AuthServices.cs:270 | a role update changes the role and nothing else |
| OAuthUsers.Deactivate | AuthServiceOAuth/Services/AuthServices.cs:295 | a soft delete clears IsActive and changes nothing else |
| OAuthUsers.WithPassword | AuthServiceOAuth/Services/AuthServices.cs:320 | a password change changes only the hash, which verifies the new password; the refresh token and its expiry are untouched |
| OAuthUsers.NewSessionRefusesOldToken | AuthServiceOAuth/Services/AuthServices.cs:191-205 | after a session start or rotation with a different token, the previous token is refused at every time |
| OAuthUsers.NewSessionAcceptsNewToken | AuthServiceOAuth/Services/AuthServices.cs:186-205 | on an active account the new token is accepted exactly up to and including now + 7 days (expiry == now passes) |
| OAuthUsers.DeactivatedUserLockedOut | AuthServiceOAuth/Services/AuthServices.cs:72-74 | after a soft delete, neither the login guard nor the refresh guard accepts the record, whatever the credentials |
| OAuthUsers.LinkedAccountLosesPasswordLogin | AuthServiceOAuth/Services/AuthServices.cs:148-152 | linking keeps the password hash but the linked record fails the login guard and the change-password guard |
| OAuthUsers.LinkedAccountMatchesAgain | AuthServiceOAuth/Services/AuthServices.cs:120-147 | a linked record still matches the same payload on the next sign-in |
| OAuthUsers.ChangedPasswordLogsIn | AuthServiceOAuth/Services/AuthServices.cs:315-320 | after a password change the new password logs in, a different old one no longer does, and refresh acceptance is unchanged |
| OAuthUsers.Respond | AuthServiceOAuth/Services/AuthServices.cs:57-66 | definition: the token response built from the saved record and the new refresh token |
| OAuthUsers.Info | AuthServiceOAuth/Services/AuthServices.cs:229-239 | definition: the profile projection of a record, also used by the listing at lines 248-257 |
| OAuthUsers.CanLogIn | AuthServiceOAuth/Services/AuthServices.cs:71-82 | the login guard (exact e-mail, active, Local, password verifies); any record it accepts also passes the change-password account check |
| OAuthUsers.AcceptsRefresh | AuthServiceOAuth/Services/AuthServices.cs:186-199 | definition: the refresh guard (active, same token, expiry not strictly before now) |
| OAuthUsers.MatchesGoogle | AuthServiceOAuth/Services/AuthServices.cs:120-122 | the Google lookup (same Google id, or same non-null e-mail); a payload without an e-mail matches by Google id only |
| OAuthUsers.HasLocalPassword | AuthServiceOAuth/Services/AuthServices.cs:310 | definition: the change-password account check (Local and a hash is stored) |
| OAuthUsers.InsertByNewest | AuthServiceOAuth/Services/AuthServices.cs:244-246 | definition: one insertion step of the newest-first ordering |
| OAuthUsers.SortByNewest | AuthServiceOAuth/Services/AuthServices.cs:244-246 | definition: the newest-first ordering of the listing |
| OAuthUsers.InsertByNewestCorrect | AuthServiceOAuth/Services/AuthServices.cs:244-246 | inserting into a newest-first list keeps it newest first and adds exactly the one entry |
| OAuthUsers.IsNullOrEmpty | AuthServiceOAuth/Services/AuthServices.cs:144 | definition: `string.IsNullOrEmpty` on a nullable string |
| OAuthUsers.NewestFirst | AuthServiceOAuth/Services/AuthServices.cs:245 | definition: the order `OrderByDescending(u => u.CreatedAt)` gives, newest account first |
| OAuthUsers.SortByNewestCorrect | AuthServiceOAuth/Services/AuthServices.cs:244-246 | the listing order is newest account first and is a permutation of its input |
| OAuthService.EmailTaken | AuthServiceOAuth/Services/AuthServices.cs:27 | definition: the duplicate check of RegisterAsync (some record has exactly this e-mail) |
| OAuthService.LoginPossible | AuthServiceOAuth/Services/AuthServices.cs:71-82 | definition: some stored record passes the login guard |
| OAuthService.GoogleMatchExists | AuthServiceOAuth/Services/AuthServices.cs:120-124 | definition: the Google lookup finds a record |
| OAuthService.AddKeepsWellFormed | AuthServiceOAuth/Services/AuthServices.cs:46 | adding a record under a fresh key, with an unused username and an unused e-mail, keeps keys, usernames and e-mails unique |
| OAuthService.UpdateKeepsWellFormed | AuthServiceOAuth/Services/AuthServices.cs:270-271 | an update that keeps key, username and e-mail keeps the table well formed |
| OAuthService.AuthServices.constructor | AuthServiceOAuth/Services/AuthServices.cs:19-23 | a new service sees an empty, well-formed table |
| OAuthService.AuthServices.Register | AuthServiceOAuth/Services/AuthServices.cs:25-67 | on an exactly equal stored e-mail: "Email already exists" and no change; otherwise exactly one record is added under the fresh key, with the least free username, a Local active "User" account whose hash verifies the password, and a refresh token valid until now + 7 days; the invariant is kept |
| OAuthService.AuthServices.Login | AuthServiceOAuth/Services/AuthServices.cs:69-102 | succeeds iff some active Local user with this exact e-mail has a hash that verifies the password; every failure is the same "Invalid credentials" with no change; success changes only that record's session fields |
| OAuthService.AuthServices.GoogleAuth | AuthServiceOAuth/Services/AuthServices.cs:104-180 | an invalid token gives "Invalid Google token"; a record matching on Google id or non-null e-mail is linked and handed a new session; with no match, a Google account with the least free username is created (or the call fails when the payload has no e-mail); the invariant is kept |
| OAuthService.AuthServices.RefreshToken | AuthServiceOAuth/Services/AuthServices.cs:182-218 | "User not found" for a missing or inactive user, "Invalid refresh token" for a different token, "Refresh token expired" when the expiry is strictly before now, each with no change; succeeds iff the record accepts the token, and then only the token and its expiry change |
| OAuthService.AuthServices.GetUserById | AuthServiceOAuth/Services/AuthServices.cs:220-240 | returns the user's profile, or KeyNotFound for an unknown id |
| OAuthService.AuthServices.TakenUsernames | AuthServiceOAuth/Services/AuthServices.cs:366 | definition: the usernames the loop's query tests against |
| OAuthService.AuthServices.Listing | AuthServiceOAuth/Services/AuthServices.cs:248-257 | definition: the set of profiles projected from the table |
| OAuthService.AuthServices.GetAllUsers | AuthServiceOAuth/Services/AuthServices.cs:242-259 | one entry per stored user, each the profile of a stored user, every stored user present, newest account first |
| OAuthService.AuthServices.CollectRows | AuthServiceOAuth/Services/AuthServices.cs:244-246 | the projected rows cover every stored user exactly once in count |
| OAuthService.AuthServices.UpdateUserRole | AuthServiceOAuth/Services/AuthServices.cs:261-284 | KeyNotFound and no change for an unknown id; otherwise only that record's role changes and its profile is returned |
| OAuthService.AuthServices.DeleteUser | AuthServiceOAuth/Services/AuthServices.cs:286-299 | KeyNotFound and no change for an unknown id; otherwise only IsActive is cleared, and no record is ever removed |
| OAuthService.AuthServices.ChangePassword | AuthServiceOAuth/Services/AuthServices.cs:301-324 | KeyNotFound, InvalidOperation (not Local or no hash) and Unauthorized (wrong current password) in that order, each with no change; succeeds iff none applies, and then only the password hash changes |
| LegacyUsers.AcceptsRefreshSecret | AuthService/Service/AuthServices.cs:145-159 | definition: the checks of ValidateRefreshTokenAsync on a loaded record |
| LegacyUsers.HasActiveToken | AuthService/Service/AuthServices.cs:72 | definition: the negation of the early-return test of RevokeRefreshTokenAsync |
| LegacyUsers.IssueAccessToken | AuthService/Service/AuthServices.cs:94-115 | the token carries username, id and role and expires one day after issue |
| LegacyUsers.WithRefreshSecret | AuthService/Service/AuthServices.cs:124-134 | the stored hash verifies exactly the new secret and no other; expiry is now + 7 days; revocation is cleared; identity, password and role are kept |
| LegacyUsers.Revoked | AuthService/Service/AuthServices.cs:77-79 | revocation removes the hash, sets the expiry to DateTime.MinValue and stamps the revocation time, keeping identity, password and role |
| LegacyUsers.SavedSecretValidatesUntilExpiry | AuthService/Service/AuthServices.cs:124-162 | round trip: a just-saved secret is accepted at every time strictly before now + 7 days and refused from then on |
| LegacyUsers.RotationRefusesPreviousSecret | AuthService/Service/AuthServices.cs:56-62 | after a new secret is saved, the previously presented secret is refused at every time (single-use rotation) |
| LegacyUsers.RevokedRefusesEverySecret | AuthService/Service/AuthServices.cs:77-79 | after revocation every secret is refused at every time |
| LegacyUsers.RevokedHasNoActiveToken | AuthService/Service/AuthServices.cs:72-75 | after revocation there is no active token, so a second revoke returns true and changes nothing |
| LegacyUsers.AcceptedSecretIsActive | AuthService/Service/AuthServices.cs:72-79 | whenever some secret would be accepted, revoke sees an active token and revokes it |
| LegacyService.UsernameTaken | AuthService/Service/AuthServices.cs:42 | definition: the duplicate check of RegisterAsync, which also decides the null return of LoginAsync at lines 31-32 |
| LegacyService.ValidateRefreshToken | AuthService/Service/AuthServices.cs:136-162 | rejects a missing user, a missing hash, a secret the hash does not verify, expiry <= now, and a set RevokedOn; when the record passes all of them, returns it |
| LegacyService.ValidateMeansAccepted | AuthService/Service/AuthServices.cs:136-162 | validation succeeds iff the user exists and its record accepts the secret at now |
| LegacyService.AuthServices.constructor | AuthService/Service/AuthServices.cs:22-27 | a new service sees an empty, well-formed table |
| LegacyService.AuthServices.Register | AuthService/Service/AuthServices.cs:40-54 | null and no change when the username exists; otherwise exactly one "User" record is added, with no refresh state and a hash that verifies the password |
| LegacyService.AuthServices.GenerateAndSaveRefreshToken | AuthService/Service/AuthServices.cs:124-134 | returns the secret and stores a digest of it (which verifies that secret and no other), with expiry now + 7 days and no revocation |
| LegacyService.AuthServices.CreateTokenResponse | AuthService/Service/AuthServices.cs:85-92 | the pair is the record's access token and the newly saved secret |
| LegacyService.AuthServices.Login | AuthService/Service/AuthServices.cs:29-38 | null and no change for an unknown username or a password that fails; otherwise a token pair, with the stored refresh hash replaced by the new secret's |
| LegacyService.AuthServices.RefreshToken | AuthService/Service/AuthServices.cs:56-62 | succeeds iff validation succeeds, then replaces the stored hash with the new secret's; otherwise null and no change |
| LegacyService.AuthServices.RevokeRefreshToken | AuthService/Service/AuthServices.cs:64-82 | false for an unknown user; true otherwise, revoking only when a non-expired, non-revoked hash is stored and changing nothing in any other case |
| Scenarios.DuplicateRegistration | AuthServiceOAuth/Services/AuthServices.cs:27-30 | a second registration with the same e-mail fails with "Email already exists", adds nothing, and keeps the first account |
| Scenarios.DeletedUserLockedOut | AuthServiceOAuth/Services/AuthServices.cs:286-299 | after a soft delete the record remains, and both login and refresh are refused |
| Scenarios.GoogleLinksLocalAccount | AuthServiceOAuth/Services/AuthServices.cs:120-152 | Google sign-in with a local account's e-mail links that account: same key, provider Google, Google id set, password hash kept |
| Scenarios.GoogleSignInIgnoresDeactivation | AuthServiceOAuth/Services/AuthServices.cs:120-163 | a soft-deleted account matched by Google id is still signed in and handed a refresh token |
| Scenarios.RefreshTokenSingleUse | AuthServiceOAuth/Services/AuthServices.cs:191-205 | after a successful refresh the same token is refused as "Invalid refresh token" |
| Scenarios.LegacyRotation | AuthService/Service/AuthServices.cs:29-62 | the login secret refreshes once before its expiry, and replaying it afterwards is refused |
| Scenarios.LegacyRevokeTwice | AuthService/Service/AuthServices.cs:64-82 | revoking twice returns true both times, the second call changes nothing, and no secret validates afterwards |

## Left out

- The password-reset OTP flow. It is only declared in the interface and called from the controller; the service implements none of it. Its fields are carried unchanged in the record.
- Signing of access tokens: the HMAC key, issuer and audience are configuration. Tokens are opaque values made of their claims and expiry.
- The random generator and Base64 encoding of refresh secrets. The secret is a parameter.
- Random Guids. The fresh key is a parameter that must not already be stored.
- Hash internals. BCrypt and `PasswordHasher` are an ideal salted hash.
- `PasswordHasher`'s "success, rehash needed" result. It counts as success.
- Google's signature and audience checks. Their outcome is the optional payload.
- Reading the clock. Each operation sees one `now`, though the source reads `DateTime.UtcNow` several times within one call.
- Overflow of `AddDays(7)` near `DateTime.MaxValue`, and 32-bit overflow of the username counter.
- Database failures, including a `SaveChangesAsync` that throws, and constraint violations.
- Concurrency. The two saves of RegisterAsync form one step, and races between requests are not modelled.
- Controllers, host configuration, administrator seeding, e-mail delivery, migrations and DTO validation attributes. One such attribute limits roles to "User" and "Admin" before UpdateUserRoleAsync is called; the modelled service accepts any role text, as the service itself does.
- Database collation. String equality inside database queries is modelled as exact ordinal equality. This covers the e-mail checks of RegisterAsync, LoginAsync and the Google lookup, the Google id, and the username checks of the username loop and of the older service. The services run on SQL Server and set no collation. A case-insensitive collation that ignores trailing blanks would also treat `Bob@x.com` as a duplicate of `bob@x.com`, and `Bob` as a taken name when `bob` is.
- Digest contents. A digest carries its preimage so that verification has a definition. The claim that the older service stores only the hash of a refresh secret holds by the type of the stored field. It is not a proof that a digest reveals nothing.
- The order of `FirstOrDefaultAsync` results, which the source does not fix. It is a nondeterministic choice among matching rows. Uniqueness of e-mails and usernames makes Login and the older service's Login deterministic; the Google lookup stays nondeterministic when several rows match.
- LegacyService.AuthServices.Login: a record with no password hash is refused, where `PasswordHasher` would throw. Register never stores such a record.
- OAuthService.AuthServices.GetAllUsers: ties in `CreatedAt` are ordered by the database. The contract states only newest-first order and membership, not the order of ties.
