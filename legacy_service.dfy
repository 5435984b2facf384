/** The use cases of the older service over its Users table, each one atomic:
    register by username, login, refresh with single-use rotation, and explicit
    revocation. The table is a map from key to record. */
module LegacyService {

  import opened Common
  import opened Crypto
  import opened LegacyUsers

  /** Some stored user has this username. */
  predicate UsernameTaken(users: map<Guid, User>, username: string)
  {
    exists id :: id in users && users[id].username == username
  }

  /** What the use cases keep true of the table: every record sits under its own
      key and usernames are unique. */
  ghost predicate WellFormed(users: map<Guid, User>)
  {
    && (forall id :: id in users ==> users[id].id == id)
    && (forall a, b :: a in users && b in users && a != b ==> users[a].username != users[b].username)
  }

  /** ValidateRefreshTokenAsync: the record when the user exists and accepts the
      secret at `now`, nothing otherwise. */
  function ValidateRefreshToken(users: map<Guid, User>, userId: Guid, secret: string, now: Time)
    : (r: Option<User>)
    ensures userId !in users ==> r.None?
    ensures userId in users && users[userId].refreshTokenHash.None? ==> r.None?
    ensures userId in users && !Matches(secret, users[userId].refreshTokenHash) ==> r.None?
    ensures userId in users && LiftedAtMost(users[userId].refreshTokenExpiryTime, now) ==> r.None?
    ensures userId in users && users[userId].revokedOn.Some? ==> r.None?
    ensures r.Some? ==> userId in users && r.value == users[userId]
    ensures userId in users && AcceptsRefreshSecret(users[userId], secret, now) ==> r == Some(users[userId])
  {
    if userId !in users then None
    else
      var user := users[userId];
      if user.refreshTokenHash.None? || !Verify(secret, user.refreshTokenHash.value) then None
      else if LiftedAtMost(user.refreshTokenExpiryTime, now) then None
      else if user.revokedOn.Some? then None
      else Some(user)
  }

  /** The checks of ValidateRefreshTokenAsync are exactly `AcceptsRefreshSecret`. */
  lemma ValidateMeansAccepted(users: map<Guid, User>, userId: Guid, secret: string, now: Time)
    ensures ValidateRefreshToken(users, userId, secret, now).Some? <==>
            userId in users && AcceptsRefreshSecret(users[userId], secret, now)
  {
  }

  class AuthServices {

    /** The Users table. */
    var users: map<Guid, User>

    ghost predicate Valid()
      reads this
    {
      WellFormed(users)
    }

    constructor ()
      ensures Valid() && users == map[]
    {
      users := map[];
    }

    /** RegisterAsync: null when the username is taken; otherwise a new "User"
        record whose password hash verifies the password. */
    method Register(username: string, password: string, freshId: Guid, salt: nat) returns (r: Option<User>)
      requires Valid()
      requires freshId !in users
      modifies this
      ensures Valid()
      ensures UsernameTaken(old(users), username) ==> r.None? && users == old(users)
      ensures !UsernameTaken(old(users), username) ==>
        && r == Some(User(freshId, username, Some(Hash(password, salt)), DefaultRole, None, None, None))
        && users == old(users)[freshId := r.value]
        && Matches(password, r.value.passwordHash)
    {
      if exists id :: id in users && users[id].username == username {
        return None;
      }
      var user := User(freshId, username, None, DefaultRole, None, None, None);
      user := user.(passwordHash := Some(Hash(password, salt)));
      users := users[freshId := user];
      r := Some(user);
    }

    /** GenerateAndSaveRefreshTokenAsync: `secret` is the fresh random secret; the
        table keeps only its hash, and the secret is returned to the caller. */
    method GenerateAndSaveRefreshToken(userId: Guid, secret: string, salt: nat, now: Time) returns (token: string)
      requires Valid()
      requires userId in users
      modifies this
      ensures Valid()
      ensures token == secret
      ensures users == old(users)[userId := WithRefreshSecret(old(users)[userId], secret, salt, now)]
    {
      users := users[userId := WithRefreshSecret(users[userId], secret, salt, now)];
      token := secret;
    }

    /** CreateTokenResponse: an access token for the record and a freshly saved
        refresh secret. */
    method CreateTokenResponse(userId: Guid, secret: string, salt: nat, now: Time) returns (pair: TokenPair)
      requires Valid()
      requires userId in users
      modifies this
      ensures Valid()
      ensures pair == TokenPair(IssueAccessToken(old(users)[userId], now), secret)
      ensures users == old(users)[userId := WithRefreshSecret(old(users)[userId], secret, salt, now)]
    {
      var access := IssueAccessToken(users[userId], now);
      var refresh := GenerateAndSaveRefreshToken(userId, secret, salt, now);
      pair := TokenPair(access, refresh);
    }

    /** LoginAsync: null when no user has the username or the password does not
        verify; otherwise a token pair, the stored refresh hash being replaced. */
    method Login(username: string, password: string, now: Time, secret: string, salt: nat) returns (r: Option<TokenPair>)
      requires Valid()
      modifies this
      ensures Valid()
      ensures !UsernameTaken(old(users), username) ==> r.None? && users == old(users)
      ensures forall id :: id in old(users) && old(users)[id].username == username ==>
        && (r.Some? <==> Matches(password, old(users)[id].passwordHash))
        && (r.None? ==> users == old(users))
        && (r.Some? ==>
              && r.value == TokenPair(IssueAccessToken(old(users)[id], now), secret)
              && users == old(users)[id := WithRefreshSecret(old(users)[id], secret, salt, now)])
    {
      if !exists id :: id in users && users[id].username == username {
        return None;
      }
      var id :| id in users && users[id].username == username;
      var user := users[id];
      if user.passwordHash.None? || !Verify(password, user.passwordHash.value) {
        return None;
      }
      var pair := CreateTokenResponse(id, secret, salt, now);
      r := Some(pair);
    }

    /** RefreshTokenAsync: when the presented secret validates, a new pair whose
        secret replaces the stored hash; otherwise null and no change. */
    method RefreshToken(userId: Guid, presented: string, now: Time, secret: string, salt: nat)
      returns (r: Option<TokenPair>)
      requires Valid()
      modifies this
      ensures Valid()
      ensures r.Some? <==> ValidateRefreshToken(old(users), userId, presented, now).Some?
      ensures r.None? ==> users == old(users)
      ensures r.Some? ==>
        && r.value == TokenPair(IssueAccessToken(old(users)[userId], now), secret)
        && users == old(users)[userId := WithRefreshSecret(old(users)[userId], secret, salt, now)]
    {
      var user := ValidateRefreshToken(users, userId, presented, now);
      if user.None? {
        return None;
      }
      var pair := CreateTokenResponse(userId, secret, salt, now);
      r := Some(pair);
    }

    /** RevokeRefreshTokenAsync: false for an unknown user; true otherwise, the
        record being revoked only when it holds an active token. */
    method RevokeRefreshToken(userId: Guid, now: Time) returns (ok: bool)
      requires Valid()
      modifies this
      ensures Valid()
      ensures ok <==> userId in old(users)
      ensures userId in old(users) && HasActiveToken(old(users)[userId], now) ==>
        users == old(users)[userId := Revoked(old(users)[userId], now)]
      ensures !(userId in old(users) && HasActiveToken(old(users)[userId], now)) ==> users == old(users)
    {
      if userId !in users {
        return false;
      }
      var user := users[userId];
      if user.refreshTokenHash.None? || LiftedAtMost(user.refreshTokenExpiryTime, now) || user.revokedOn.Some? {
        return true;
      }
      users := users[userId := Revoked(user, now)];
      ok := true;
    }
  }
}
