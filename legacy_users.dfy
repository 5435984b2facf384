/** The user record of the older service, which keeps only a salted hash of the
    refresh secret and records explicit revocation, with the checks and updates
    its use cases apply to a loaded record. */
module LegacyUsers {

  import opened Common
  import opened Crypto

  const DefaultRole: string := "User"

  /** Access tokens live one day (`AddDays(1)`). */
  const AccessTokenLifetime: nat := SecondsPerDay

  /** One row of the Users table. A hash text that is null or "" is `None`:
      `IsNullOrEmpty` treats the two alike and `PasswordHasher` verifies nothing
      against "". */
  datatype User = User(
    id: Guid,
    username: string,
    passwordHash: Option<Digest>,
    role: string,
    refreshTokenHash: Option<Digest>,
    refreshTokenExpiryTime: Option<Time>,
    revokedOn: Option<Time>)

  /** The claims of the signed access token (`CreateToken`), kept opaque. */
  datatype AccessToken = AccessToken(name: string, nameIdentifier: Guid, role: string, expires: Time)

  /** `TokenResponseDto`: the access token and the refresh secret in clear. */
  datatype TokenPair = TokenPair(accessToken: AccessToken, refreshToken: string)

  function IssueAccessToken(u: User, now: Time): (t: AccessToken)
    ensures t.name == u.username && t.nameIdentifier == u.id && t.role == u.role
    ensures t.expires == now + AccessTokenLifetime
  {
    AccessToken(u.username, u.id, u.role, now + AccessTokenLifetime)
  }

  /** The checks of ValidateRefreshTokenAsync on a loaded record: a hash is
      stored and verifies the secret, the expiry has not been reached (expiry
      equal to `now` already fails, unlike the current service), and the token
      was not revoked. */
  predicate AcceptsRefreshSecret(u: User, secret: string, now: Time)
  {
    && Matches(secret, u.refreshTokenHash)
    && !LiftedAtMost(u.refreshTokenExpiryTime, now)
    && u.revokedOn.None?
  }

  /** RevokeRefreshTokenAsync has something to revoke: a hash is stored, it has
      not expired and it was not revoked before. */
  predicate HasActiveToken(u: User, now: Time)
  {
    u.refreshTokenHash.Some? && !LiftedAtMost(u.refreshTokenExpiryTime, now) && u.revokedOn.None?
  }

  /** GenerateAndSaveRefreshTokenAsync's update: the hash of the new secret,
      seven days of validity, and no revocation mark. */
  function WithRefreshSecret(u: User, secret: string, salt: nat, now: Time): (v: User)
    ensures v.id == u.id && v.username == u.username && v.passwordHash == u.passwordHash && v.role == u.role
    ensures v.refreshTokenExpiryTime == Some(now + RefreshTokenLifetime) && v.revokedOn.None?
    ensures forall s :: Matches(s, v.refreshTokenHash) <==> s == secret
  {
    u.(refreshTokenHash := Some(Hash(secret, salt)),
       refreshTokenExpiryTime := Some(now + RefreshTokenLifetime),
       revokedOn := None)
  }

  /** RevokeRefreshTokenAsync's update: no hash, expiry `DateTime.MinValue`, and
      the revocation time. */
  function Revoked(u: User, now: Time): (v: User)
    ensures v.id == u.id && v.username == u.username && v.passwordHash == u.passwordHash && v.role == u.role
    ensures v.refreshTokenHash.None? && v.refreshTokenExpiryTime == Some(MinTime) && v.revokedOn == Some(now)
  {
    u.(refreshTokenHash := None, refreshTokenExpiryTime := Some(MinTime), revokedOn := Some(now))
  }

  /** Round trip: the secret just saved is accepted at every time strictly before
      its expiry, and from the expiry instant on it is refused. */
  lemma SavedSecretValidatesUntilExpiry(u: User, secret: string, salt: nat, now: Time, later: Time)
    ensures AcceptsRefreshSecret(WithRefreshSecret(u, secret, salt, now), secret, later) <==>
            later < now + RefreshTokenLifetime
  {
  }

  /** Single-use rotation: once a new secret is saved, no other secret (in
      particular the one just presented) is accepted. */
  lemma RotationRefusesPreviousSecret(u: User, presented: string, rotated: string, salt: nat, now: Time, later: Time)
    requires presented != rotated
    ensures !AcceptsRefreshSecret(WithRefreshSecret(u, rotated, salt, now), presented, later)
  {
  }

  /** After revocation every secret is refused, at every time. */
  lemma RevokedRefusesEverySecret(u: User, now: Time, secret: string, later: Time)
    ensures !AcceptsRefreshSecret(Revoked(u, now), secret, later)
  {
  }

  /** Revocation leaves nothing to revoke, so a second revoke changes nothing. */
  lemma RevokedHasNoActiveToken(u: User, now: Time, later: Time)
    ensures !HasActiveToken(Revoked(u, now), later)
  {
  }

  /** Whenever some secret is accepted there is an active token, so revoke never
      skips a usable token. */
  lemma AcceptedSecretIsActive(u: User, secret: string, now: Time)
    requires AcceptsRefreshSecret(u, secret, now)
    ensures HasActiveToken(u, now)
  {
  }
}
