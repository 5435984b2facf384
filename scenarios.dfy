/** Sequences of use cases on one store, showing what callers can rely on from
    the operations' contracts alone: rejection of duplicate e-mail addresses,
    lock-out after a soft delete, linking of a local account on Google sign-in,
    single-use refresh tokens, and idempotent revocation. */
module Scenarios {

  import opened Common
  import opened Crypto
  import opened OAuthUsers
  import OAuthService
  import LegacyUsers
  import LegacyService

  /** A second registration with the same e-mail address fails and adds nothing;
      the account made by the first is kept. */
  method DuplicateRegistration(s: OAuthService.AuthServices, email: string, password: string, otherPassword: string,
                               now: Time, id1: Guid, id2: Guid, salt1: nat, salt2: nat, token1: string, token2: string)
    returns (first: Result<TokenResponse>, second: Result<TokenResponse>)
    requires s.Valid()
    requires id1 != id2 && id1 !in s.users && id2 !in s.users
    requires !OAuthService.EmailTaken(s.users, email)
    modifies s
    ensures s.Valid()
    ensures first.Ok? && second == Err(InvalidOperation("Email already exists"))
    ensures id2 !in s.users && id1 in s.users
    ensures s.users[id1].email == Some(email) && Matches(password, s.users[id1].passwordHash)
  {
    first := s.Register(email, password, now, id1, salt1, token1);
    assert s.users[id1].email == Some(email);
    second := s.Register(email, otherPassword, now, id2, salt2, token2);
  }

  /** After DeleteUserAsync the account can neither log in nor refresh, whatever
      the credentials; the record is still stored. */
  method DeletedUserLockedOut(s: OAuthService.AuthServices, id: Guid, password: string, presented: string,
                              now: Time, token1: string, token2: string)
    returns (login: Result<TokenResponse>, refresh: Result<TokenResponse>)
    requires s.Valid()
    requires id in s.users && s.users[id].email.Some?
    modifies s
    ensures s.Valid()
    ensures id in s.users && !s.users[id].isActive
    ensures login == Err(Unauthorized("Invalid credentials"))
    ensures refresh == Err(Unauthorized("User not found"))
  {
    var email := s.users[id].email.value;
    var deleted := s.DeleteUser(id);
    assert forall k :: k in s.users && s.users[k].email == Some(email) ==> k == id;
    login := s.Login(email, password, now, token1);
    refresh := s.RefreshToken(id, presented, now, token2);
  }

  /** Google sign-in with the e-mail address of a local account links that
      account: same key, provider Google, Google id set, password hash kept. */
  method GoogleLinksLocalAccount(s: OAuthService.AuthServices, email: string, password: string, subject: string,
                                 picture: Option<string>, now: Time, id1: Guid, id2: Guid, salt: nat,
                                 token1: string, token2: string)
    returns (registered: Result<TokenResponse>, signedIn: Result<TokenResponse>)
    requires s.Valid()
    requires id1 != id2 && id1 !in s.users && id2 !in s.users
    requires !OAuthService.EmailTaken(s.users, email)
    requires forall k :: k in s.users ==> s.users[k].googleId != Some(subject)
    modifies s
    ensures s.Valid()
    ensures registered.Ok? && signedIn.Ok? && signedIn.value.userId == id1 && id2 !in s.users && id1 in s.users
    ensures s.users[id1].authProvider == GoogleProvider && s.users[id1].googleId == Some(subject)
    ensures Matches(password, s.users[id1].passwordHash)
  {
    registered := s.Register(email, password, now, id1, salt, token1);
    var p := GooglePayload(subject, Some(email), picture);
    assert MatchesGoogle(s.users[id1], p);
    assert forall k :: k in s.users && MatchesGoogle(s.users[k], p) ==> k == id1;
    signedIn := s.GoogleAuth(Some(p), now, id2, token2);
  }

  /** Google sign-in does not check IsActive: a soft-deleted account that the
      payload matches by Google id is signed in and handed tokens, and stays
      marked inactive. */
  method GoogleSignInIgnoresDeactivation(s: OAuthService.AuthServices, id: Guid, picture: Option<string>,
                                         now: Time, freshId: Guid, token: string)
    returns (deleted: Result<bool>, signedIn: Result<TokenResponse>)
    requires s.Valid()
    requires id in s.users && s.users[id].googleId.Some? && freshId !in s.users
    requires forall k :: k in s.users && k != id ==> s.users[k].googleId != s.users[id].googleId
    modifies s
    ensures s.Valid()
    ensures deleted == Ok(true) && signedIn.Ok? && signedIn.value.userId == id
    ensures id in s.users && !s.users[id].isActive && s.users[id].refreshToken == Some(token)
  {
    var subject := s.users[id].googleId.value;
    var email := s.users[id].email;
    deleted := s.DeleteUser(id);
    var p := GooglePayload(subject, email, picture);
    assert MatchesGoogle(s.users[id], p);
    assert forall k :: k in s.users && MatchesGoogle(s.users[k], p) ==> k == id;
    signedIn := s.GoogleAuth(Some(p), now, freshId, token);
  }

  /** A refresh token of the current service works once: after a successful
      refresh the same token is refused. */
  method RefreshTokenSingleUse(s: OAuthService.AuthServices, id: Guid, presented: string, now: Time, later: Time,
                               token1: string, token2: string)
    returns (first: Result<TokenResponse>, second: Result<TokenResponse>)
    requires s.Valid()
    requires presented != token1
    modifies s
    ensures s.Valid()
    ensures first.Ok? ==> second == Err(Unauthorized("Invalid refresh token"))
  {
    first := s.RefreshToken(id, presented, now, token1);
    second := s.RefreshToken(id, presented, later, token2);
  }

  /** Older service: the secret handed out at login refreshes once before its
      expiry; the rotated-out secret is then refused. */
  method LegacyRotation(s: LegacyService.AuthServices, id: Guid, password: string, now: Time, later: Time,
                        secret1: string, secret2: string, secret3: string, salt1: nat, salt2: nat, salt3: nat)
    returns (login: Option<LegacyUsers.TokenPair>, refresh: Option<LegacyUsers.TokenPair>,
             replay: Option<LegacyUsers.TokenPair>)
    requires s.Valid()
    requires id in s.users && Matches(password, s.users[id].passwordHash)
    requires later < now + RefreshTokenLifetime
    requires secret1 != secret2
    modifies s
    ensures s.Valid()
    ensures login.Some? && login.value.refreshToken == secret1
    ensures refresh.Some? && refresh.value.refreshToken == secret2
    ensures replay.None?
  {
    login := s.Login(s.users[id].username, password, now, secret1, salt1);
    LegacyUsers.SavedSecretValidatesUntilExpiry(old(s.users)[id], secret1, salt1, now, later);
    refresh := s.RefreshToken(id, secret1, later, secret2, salt2);
    replay := s.RefreshToken(id, secret1, later, secret3, salt3);
  }

  /** Older service: revoking twice returns true both times; the second call
      changes nothing, and afterwards no secret validates. */
  method LegacyRevokeTwice(s: LegacyService.AuthServices, id: Guid, now: Time, later: Time, secret: string)
    returns (first: bool, second: bool, ghost afterFirst: map<Guid, LegacyUsers.User>)
    requires s.Valid()
    requires id in s.users
    requires now <= later
    modifies s
    ensures s.Valid()
    ensures first && second
    ensures s.users == afterFirst
    ensures LegacyService.ValidateRefreshToken(s.users, id, secret, later).None?
  {
    first := s.RevokeRefreshToken(id, now);
    afterFirst := s.users;
    second := s.RevokeRefreshToken(id, later);
  }
}
