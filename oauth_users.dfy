/** The user record of the current (OAuth-capable) service, the guards its use
    cases check on a loaded record, the field updates they make, and the user
    listing's order. Everything here is a value; the store that holds the
    records and applies the updates is the class in module OAuthService. */
module OAuthUsers {

  import opened Common
  import opened Crypto

  const LocalProvider: string := "Local"
  const GoogleProvider: string := "Google"
  const DefaultRole: string := "User"

  /** Access tokens live 24 hours (`AddHours(24)`). */
  const AccessTokenLifetime: nat := 24 * SecondsPerHour

  /** One row of the Users table. `role` and `authProvider` are free text, as in
      the source: the service writes only "User", "Local" and "Google" itself,
      and UpdateUserRoleAsync accepts any role text (the request validation that
      limits roles to "User" and "Admin" sits in front of the service and is not
      modelled). The three password-reset fields exist in
      the table but no modelled operation reads or writes them. */
  datatype User = User(
    id: Guid,
    username: string,
    email: Option<string>,
    passwordHash: Option<Digest>,
    role: string,
    refreshToken: Option<string>,
    refreshTokenExpiryTime: Option<Time>,
    authProvider: string,
    googleId: Option<string>,
    profilePicture: Option<string>,
    createdAt: Time,
    lastLoginAt: Option<Time>,
    isActive: bool,
    passwordResetOtp: Option<string>,
    passwordResetOtpExpiry: Option<Time>,
    passwordResetAttempts: int)

  /** The part of a verified Google ID token the service reads. */
  datatype GooglePayload = GooglePayload(subject: string, email: Option<string>, picture: Option<string>)

  /** A signed access token, kept opaque: the claims it carries and its expiry.
      Issuer, audience and the HMAC signature are configuration and are not modelled. */
  datatype AccessToken = AccessToken(
    nameIdentifier: Guid, name: string, email: string, role: string, authProvider: string, expires: Time)

  /** `TokenResponseDto`. */
  datatype TokenResponse = TokenResponse(
    accessToken: AccessToken, refreshToken: string, userId: Guid, username: string,
    email: Option<string>, profilePicture: Option<string>, role: string)

  /** `UserInfoDto`. */
  datatype UserInfo = UserInfo(
    id: Guid, username: string, email: Option<string>, role: string, authProvider: string,
    createdAt: Time, lastLoginAt: Option<Time>, isActive: bool)

  /** The exceptions the service throws, with their messages. `NullReference` is
      what `email.Split` throws on a Google payload without an e-mail address. */
  datatype AuthError =
    | InvalidOperation(message: string)
    | Unauthorized(message: string)
    | KeyNotFound(message: string)
    | NullReference

  datatype Result<+T> = Ok(value: T) | Err(error: AuthError)

  /** `string.IsNullOrEmpty`. */
  predicate IsNullOrEmpty(s: Option<string>)
  {
    s.None? || s.value == ""
  }

  // ----- what the service hands out -----

  /** `GenerateAccessToken`: the email claim is "" when the user has none. */
  function IssueAccessToken(u: User, now: Time): (t: AccessToken)
    ensures t.nameIdentifier == u.id && t.name == u.username && t.role == u.role
    ensures t.authProvider == u.authProvider && t.expires == now + AccessTokenLifetime
    ensures u.email.None? ==> t.email == ""
    ensures u.email.Some? ==> t.email == u.email.value
  {
    AccessToken(u.id, u.username, if u.email.Some? then u.email.value else "", u.role, u.authProvider,
                now + AccessTokenLifetime)
  }

  function Respond(u: User, refreshToken: string, now: Time): TokenResponse
  {
    TokenResponse(IssueAccessToken(u, now), refreshToken, u.id, u.username, u.email, u.profilePicture, u.role)
  }

  function Info(u: User): UserInfo
  {
    UserInfo(u.id, u.username, u.email, u.role, u.authProvider, u.createdAt, u.lastLoginAt, u.isActive)
  }

  // ----- guards checked on a loaded record -----

  /** LoginAsync accepts this record for these credentials: it is the active user
      with this e-mail (compared exactly), a Local account with a password hash,
      and the password verifies. */
  predicate CanLogIn(u: User, email: string, password: string)
    ensures CanLogIn(u, email, password) ==> HasLocalPassword(u)
  {
    && u.email == Some(email)
    && u.isActive
    && u.authProvider == LocalProvider
    && Matches(password, u.passwordHash)
  }

  /** RefreshTokenAsync accepts this record: active, the stored token equals the
      presented one, and the stored expiry is not strictly before `now`. */
  predicate AcceptsRefresh(u: User, token: string, now: Time)
  {
    u.isActive && u.refreshToken == Some(token) && !LiftedLess(u.refreshTokenExpiryTime, now)
  }

  /** The lookup predicate of GoogleAuthAsync. Two null e-mail addresses do not
      match, so a payload without an e-mail address is matched by Google id only. */
  predicate MatchesGoogle(u: User, p: GooglePayload)
    ensures p.email.None? ==> (MatchesGoogle(u, p) <==> u.googleId == Some(p.subject))
  {
    u.googleId == Some(p.subject) || (u.email == p.email && u.email.Some?)
  }

  /** ChangePasswordAsync's account check. */
  predicate HasLocalPassword(u: User)
  {
    u.authProvider == LocalProvider && u.passwordHash.Some?
  }

  /** What no use case ever changes on an existing record. */
  predicate SameAccount(u: User, v: User)
  {
    && v.id == u.id && v.username == u.username && v.email == u.email && v.createdAt == u.createdAt
    && v.passwordResetOtp == u.passwordResetOtp && v.passwordResetOtpExpiry == u.passwordResetOtpExpiry
    && v.passwordResetAttempts == u.passwordResetAttempts
  }

  // ----- the records the use cases create -----

  /** The record RegisterAsync adds before its second save. */
  function NewLocalUser(id: Guid, username: string, email: string, password: string, salt: nat, now: Time): (u: User)
    ensures u.role == DefaultRole && u.authProvider == LocalProvider && u.isActive
    ensures Matches(password, u.passwordHash)
    ensures u.googleId.None? && u.refreshToken.None?
  {
    User(id, username, Some(email), Some(Hash(password, salt)), DefaultRole, None, None,
         LocalProvider, None, None, now, None, true, None, None, 0)
  }

  /** The record GoogleAuthAsync adds when no user matches the payload. */
  function NewGoogleUser(id: Guid, username: string, p: GooglePayload, now: Time): (u: User)
    ensures u.role == DefaultRole && u.authProvider == GoogleProvider && u.isActive
    ensures u.passwordHash.None? && u.googleId == Some(p.subject)
    ensures MatchesGoogle(u, p)
  {
    User(id, username, p.email, None, DefaultRole, None, None,
         GoogleProvider, Some(p.subject), p.picture, now, None, true, None, None, 0)
  }

  // ----- the field updates the use cases make -----

  /** Register, Login and Google sign-in: a new refresh token valid for seven
      days, and the login time. */
  function StartSession(u: User, token: string, now: Time): (v: User)
    ensures SameAccount(u, v)
    ensures v == RotateSession(u, token, now).(lastLoginAt := Some(now))
  {
    u.(refreshToken := Some(token), refreshTokenExpiryTime := Some(now + RefreshTokenLifetime),
       lastLoginAt := Some(now))
  }

  /** RefreshTokenAsync: a new refresh token valid for seven days; the login time
      is left alone. */
  function RotateSession(u: User, token: string, now: Time): (v: User)
    ensures SameAccount(u, v)
    ensures v.passwordHash == u.passwordHash && v.isActive == u.isActive && v.role == u.role
    ensures v.refreshToken == Some(token) && v.refreshTokenExpiryTime == Some(now + RefreshTokenLifetime)
    ensures v.(refreshToken := u.refreshToken, refreshTokenExpiryTime := u.refreshTokenExpiryTime) == u
  {
    u.(refreshToken := Some(token), refreshTokenExpiryTime := Some(now + RefreshTokenLifetime))
  }

  /** GoogleAuthAsync on a matched record: the Google id is filled in only when
      empty, a Local account becomes Google (never the reverse), the picture is
      overwritten, and the password hash is never touched. */
  function LinkGoogle(u: User, p: GooglePayload, now: Time): (v: User)
    ensures SameAccount(u, v)
    ensures v.passwordHash == u.passwordHash && v.isActive == u.isActive && v.role == u.role
    ensures IsNullOrEmpty(u.googleId) ==> v.googleId == Some(p.subject)
    ensures !IsNullOrEmpty(u.googleId) ==> v.googleId == u.googleId
    ensures v.authProvider != LocalProvider
    ensures u.authProvider == LocalProvider ==> v.authProvider == GoogleProvider
    ensures u.authProvider != LocalProvider ==> v.authProvider == u.authProvider
    ensures v.profilePicture == p.picture && v.lastLoginAt == Some(now)
    ensures v.refreshToken == u.refreshToken && v.refreshTokenExpiryTime == u.refreshTokenExpiryTime
  {
    u.(googleId := if IsNullOrEmpty(u.googleId) then Some(p.subject) else u.googleId,
       authProvider := if u.authProvider == LocalProvider then GoogleProvider else u.authProvider,
       profilePicture := p.picture,
       lastLoginAt := Some(now))
  }

  /** UpdateUserRoleAsync. */
  function WithRole(u: User, role: string): (v: User)
    ensures SameAccount(u, v) && v.role == role
    ensures v.(role := u.role) == u
  {
    u.(role := role)
  }

  /** DeleteUserAsync: a soft delete. */
  function Deactivate(u: User): (v: User)
    ensures SameAccount(u, v) && !v.isActive
    ensures v.(isActive := u.isActive) == u
  {
    u.(isActive := false)
  }

  /** ChangePasswordAsync. */
  function WithPassword(u: User, password: string, salt: nat): (v: User)
    ensures SameAccount(u, v) && Matches(password, v.passwordHash)
    ensures v.refreshToken == u.refreshToken && v.refreshTokenExpiryTime == u.refreshTokenExpiryTime
    ensures v.(passwordHash := u.passwordHash) == u
  {
    u.(passwordHash := Some(Hash(password, salt)))
  }

  // ----- properties of the guards and updates -----

  /** Rotation: once a session is started or rotated with a new token, the
      previous token is refused at every time. */
  lemma NewSessionRefusesOldToken(u: User, oldToken: string, newToken: string, now: Time, later: Time)
    requires oldToken != newToken
    ensures !AcceptsRefresh(StartSession(u, newToken, now), oldToken, later)
    ensures !AcceptsRefresh(RotateSession(u, newToken, now), oldToken, later)
  {
  }

  /** The token just handed out is accepted by an active account up to and
      including its expiry instant, and refused one second later. */
  lemma NewSessionAcceptsNewToken(u: User, token: string, now: Time, later: Time)
    requires u.isActive
    ensures AcceptsRefresh(RotateSession(u, token, now), token, later) <==> later <= now + RefreshTokenLifetime
    ensures AcceptsRefresh(StartSession(u, token, now), token, later) <==> later <= now + RefreshTokenLifetime
  {
  }

  /** After a soft delete neither LoginAsync nor RefreshTokenAsync accepts the record. */
  lemma DeactivatedUserLockedOut(u: User, email: string, password: string, token: string, now: Time)
    ensures !CanLogIn(Deactivate(u), email, password)
    ensures !AcceptsRefresh(Deactivate(u), token, now)
  {
  }

  /** Linking a Google identity keeps the password hash but ends password login:
      LoginAsync and ChangePasswordAsync demand a Local account. */
  lemma LinkedAccountLosesPasswordLogin(u: User, p: GooglePayload, now: Time, email: string, password: string)
    ensures LinkGoogle(u, p, now).passwordHash == u.passwordHash
    ensures !CanLogIn(LinkGoogle(u, p, now), email, password)
    ensures !HasLocalPassword(LinkGoogle(u, p, now))
  {
  }

  /** A linked record is found again by the same Google subject. */
  lemma LinkedAccountMatchesAgain(u: User, p: GooglePayload, now: Time)
    requires MatchesGoogle(u, p)
    ensures MatchesGoogle(LinkGoogle(u, p, now), p)
  {
  }

  /** A password change lets in the new password only, and keeps the session. */
  lemma ChangedPasswordLogsIn(u: User, email: string, current: string, next: string, salt: nat, now: Time, token: string)
    requires CanLogIn(u, email, current)
    ensures CanLogIn(WithPassword(u, next, salt), email, next)
    ensures current != next ==> !CanLogIn(WithPassword(u, next, salt), email, current)
    ensures AcceptsRefresh(WithPassword(u, next, salt), token, now) == AcceptsRefresh(u, token, now)
  {
  }

  // ----- the user listing -----

  /** `OrderByDescending(u => u.CreatedAt)`: newest account first. */
  ghost predicate NewestFirst(s: seq<UserInfo>)
  {
    forall i, j :: 0 <= i < j < |s| ==> s[i].createdAt >= s[j].createdAt
  }

  function InsertByNewest(x: UserInfo, s: seq<UserInfo>): seq<UserInfo>
  {
    if s == [] || x.createdAt >= s[0].createdAt then [x] + s else [s[0]] + InsertByNewest(x, s[1..])
  }

  /** A stable sort by creation time, newest first. */
  function SortByNewest(s: seq<UserInfo>): seq<UserInfo>
  {
    if s == [] then [] else InsertByNewest(s[0], SortByNewest(s[1..]))
  }

  lemma {:induction false} InsertByNewestCorrect(x: UserInfo, s: seq<UserInfo>)
    requires NewestFirst(s)
    ensures NewestFirst(InsertByNewest(x, s))
    ensures multiset(InsertByNewest(x, s)) == multiset(s) + multiset{x}
  {
    if s == [] || x.createdAt >= s[0].createdAt {
    } else {
      var t := InsertByNewest(x, s[1..]);
      InsertByNewestCorrect(x, s[1..]);
      assert s == [s[0]] + s[1..];
      assert forall k :: 0 <= k < |t| ==> t[k] in multiset(s[1..]) + multiset{x};
      assert forall k :: 0 <= k < |t| ==> s[0].createdAt >= t[k].createdAt by {
        forall k | 0 <= k < |t| ensures s[0].createdAt >= t[k].createdAt {
          assert t[k] in multiset(t);
          if t[k] != x {
            assert t[k] in multiset(s[1..]);
            var m :| 0 <= m < |s[1..]| && s[1..][m] == t[k];
            assert s[m + 1] == t[k];
          }
        }
      }
    }
  }

  /** The listing holds exactly the given entries, newest first. */
  lemma {:induction false} SortByNewestCorrect(s: seq<UserInfo>)
    ensures NewestFirst(SortByNewest(s))
    ensures multiset(SortByNewest(s)) == multiset(s)
  {
    if s != [] {
      SortByNewestCorrect(s[1..]);
      InsertByNewestCorrect(s[0], SortByNewest(s[1..]));
      assert s == [s[0]] + s[1..];
    }
  }
}
