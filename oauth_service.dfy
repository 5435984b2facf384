/** The use cases of the current service over its Users table. Each one loads a
    record, checks its guards, updates the record and saves, as one atomic step.
    The table is a map from key to record; updating a loaded record in place is
    replacing it in the map. */
module OAuthService {

  import opened Common
  import opened Crypto
  import opened Usernames
  import opened OAuthUsers

  /** Some stored user has exactly this e-mail (no case folding, no trimming). */
  predicate EmailTaken(users: map<Guid, User>, email: string)
  {
    exists id :: id in users && users[id].email == Some(email)
  }

  /** Some stored user matches the Google payload. */
  predicate GoogleMatchExists(users: map<Guid, User>, p: GooglePayload)
  {
    exists id :: id in users && MatchesGoogle(users[id], p)
  }

  /** Some stored user would be let in by LoginAsync with these credentials. */
  predicate LoginPossible(users: map<Guid, User>, email: string, password: string)
  {
    exists id :: id in users && CanLogIn(users[id], email, password)
  }

  /** What the use cases keep true of the table: every record sits under its
      own key, usernames are unique, and so are e-mail addresses. */
  ghost predicate WellFormed(users: map<Guid, User>)
  {
    && (forall id :: id in users ==> users[id].id == id)
    && (forall a, b :: a in users && b in users && a != b ==> users[a].username != users[b].username)
    && (forall a, b :: a in users && b in users && a != b && users[a].email.Some? ==>
          users[a].email != users[b].email)
  }

  /** Adding a record under a fresh key, with a username nobody has and an
      e-mail address nobody has, keeps the table well formed. */
  lemma AddKeepsWellFormed(users: map<Guid, User>, u: User)
    requires WellFormed(users)
    requires u.id !in users
    requires forall id :: id in users ==> users[id].username != u.username
    requires u.email.Some? ==> !EmailTaken(users, u.email.value)
    ensures WellFormed(users[u.id := u])
  {
  }

  /** Changing fields of a stored record other than its key, username and e-mail
      keeps the table well formed. */
  lemma UpdateKeepsWellFormed(users: map<Guid, User>, id: Guid, v: User)
    requires WellFormed(users)
    requires id in users && SameAccount(users[id], v)
    ensures WellFormed(users[id := v])
  {
  }

  /** Two sequences with the same multiset have the same length and members. */
  lemma SameMembers(a: seq<UserInfo>, b: seq<UserInfo>)
    requires multiset(a) == multiset(b)
    ensures |a| == |b|
    ensures forall x :: x in a <==> x in b
  {
    assert |a| == |multiset(a)| == |multiset(b)| == |b|;
    forall x ensures x in a <==> x in b {
      assert x in a <==> x in multiset(a);
      assert x in b <==> x in multiset(b);
    }
  }

  class AuthServices {

    /** The Users table. */
    var users: map<Guid, User>

    /** What the use cases keep true of the table (see `WellFormed`). */
    ghost predicate Valid()
      reads this
    {
      WellFormed(users)
    }

    constructor ()
      ensures Valid() && users == map[]
    {
      users := map[];
    }

    /** The usernames in use, as GenerateUniqueUsernameAsync queries them. */
    function TakenUsernames(): set<string>
      reads this
    {
      set id | id in users :: users[id].username
    }

    /** RegisterAsync. `freshId` is `Guid.NewGuid()`, `salt` BCrypt's random
        salt, `refreshToken` the output of `GenerateRefreshToken`. */
    method Register(email: string, password: string, now: Time, freshId: Guid, salt: nat, refreshToken: string)
      returns (r: Result<TokenResponse>)
      requires Valid()
      requires freshId !in users
      modifies this
      ensures Valid()
      ensures EmailTaken(old(users), email) ==>
        r == Err(InvalidOperation("Email already exists")) && users == old(users)
      ensures !EmailTaken(old(users), email) ==>
        && r.Ok?
        && freshId in users
        && IsLeastFreeName(LocalPart(email), old(TakenUsernames()), users[freshId].username)
        && users == old(users)[freshId := StartSession(
             NewLocalUser(freshId, users[freshId].username, email, password, salt, now), refreshToken, now)]
        && r.value == Respond(users[freshId], refreshToken, now)
    {
      if exists id :: id in users && users[id].email == Some(email) {
        return Err(InvalidOperation("Email already exists"));
      }
      var username := GenerateUniqueUsername(email, TakenUsernames());
      var user := NewLocalUser(freshId, username, email, password, salt, now);
      assert forall id :: id in users ==> users[id].username in TakenUsernames();
      AddKeepsWellFormed(users, user);
      users := users[freshId := user];
      user := StartSession(user, refreshToken, now);
      UpdateKeepsWellFormed(users, freshId, user);
      users := users[freshId := user];
      r := Ok(Respond(user, refreshToken, now));
    }

    /** LoginAsync: one error for every way the credentials can fail. */
    method Login(email: string, password: string, now: Time, refreshToken: string)
      returns (r: Result<TokenResponse>)
      requires Valid()
      modifies this
      ensures Valid()
      ensures r.Ok? <==> LoginPossible(old(users), email, password)
      ensures r.Err? ==> r.error == Unauthorized("Invalid credentials") && users == old(users)
      ensures r.Ok? ==>
        && r.value.userId in old(users)
        && CanLogIn(old(users)[r.value.userId], email, password)
        && users == old(users)[r.value.userId := StartSession(old(users)[r.value.userId], refreshToken, now)]
        && r.value == Respond(users[r.value.userId], refreshToken, now)
    {
      if !exists id :: id in users && users[id].email == Some(email) && users[id].isActive {
        return Err(Unauthorized("Invalid credentials"));
      }
      var id :| id in users && users[id].email == Some(email) && users[id].isActive;
      var user := users[id];
      if user.authProvider != LocalProvider || user.passwordHash.None? {
        return Err(Unauthorized("Invalid credentials"));
      }
      if !Verify(password, user.passwordHash.value) {
        return Err(Unauthorized("Invalid credentials"));
      }
      user := StartSession(user, refreshToken, now);
      users := users[id := user];
      r := Ok(Respond(user, refreshToken, now));
    }

    /** GoogleAuthAsync. `payload` is None when Google's validation rejects the
        ID token. A matching record is linked; with none, a Google account is
        created (which fails when the payload has no e-mail address). */
    method GoogleAuth(payload: Option<GooglePayload>, now: Time, freshId: Guid, refreshToken: string)
      returns (r: Result<TokenResponse>)
      requires Valid()
      requires freshId !in users
      modifies this
      ensures Valid()
      ensures payload.None? ==> r == Err(Unauthorized("Invalid Google token")) && users == old(users)
      ensures payload.Some? && GoogleMatchExists(old(users), payload.value) ==>
        && r.Ok?
        && r.value.userId in old(users)
        && MatchesGoogle(old(users)[r.value.userId], payload.value)
        && users == old(users)[r.value.userId :=
             StartSession(LinkGoogle(old(users)[r.value.userId], payload.value, now), refreshToken, now)]
        && r.value == Respond(users[r.value.userId], refreshToken, now)
      ensures payload.Some? && !GoogleMatchExists(old(users), payload.value) && payload.value.email.None? ==>
        r == Err(NullReference) && users == old(users)
      ensures payload.Some? && !GoogleMatchExists(old(users), payload.value) && payload.value.email.Some? ==>
        && r.Ok?
        && r.value.userId == freshId
        && freshId in users
        && IsLeastFreeName(LocalPart(payload.value.email.value), old(TakenUsernames()), users[freshId].username)
        && users == old(users)[freshId := StartSession(
             NewGoogleUser(freshId, users[freshId].username, payload.value, now), refreshToken, now)]
        && r.value == Respond(users[freshId], refreshToken, now)
    {
      if payload.None? {
        return Err(Unauthorized("Invalid Google token"));
      }
      var p := payload.value;
      var user: User;
      var id: Guid;
      if exists k :: k in users && MatchesGoogle(users[k], p) {
        id :| id in users && MatchesGoogle(users[id], p);
        user := LinkGoogle(users[id], p, now);
        user := StartSession(user, refreshToken, now);
        UpdateKeepsWellFormed(users, id, user);
      } else {
        if p.email.None? {
          return Err(NullReference);
        }
        var username := GenerateUniqueUsername(p.email.value, TakenUsernames());
        id := freshId;
        assert forall k :: k in users ==> users[k].username in TakenUsernames();
        user := StartSession(NewGoogleUser(freshId, username, p, now), refreshToken, now);
        AddKeepsWellFormed(users, user);
      }
      users := users[id := user];
      r := Ok(Respond(user, refreshToken, now));
    }

    /** RefreshTokenAsync: three rejections, checked in this order; on success the
        stored token is replaced and its expiry reset. */
    method RefreshToken(userId: Guid, presented: string, now: Time, newToken: string)
      returns (r: Result<TokenResponse>)
      requires Valid()
      modifies this
      ensures Valid()
      ensures r.Ok? <==> userId in old(users) && AcceptsRefresh(old(users)[userId], presented, now)
      ensures r.Err? ==> users == old(users)
      ensures userId !in old(users) || !old(users)[userId].isActive ==>
        r == Err(Unauthorized("User not found"))
      ensures userId in old(users) && old(users)[userId].isActive &&
              old(users)[userId].refreshToken != Some(presented) ==>
        r == Err(Unauthorized("Invalid refresh token"))
      ensures userId in old(users) && old(users)[userId].isActive &&
              old(users)[userId].refreshToken == Some(presented) &&
              LiftedLess(old(users)[userId].refreshTokenExpiryTime, now) ==>
        r == Err(Unauthorized("Refresh token expired"))
      ensures r.Ok? ==>
        && users == old(users)[userId := RotateSession(old(users)[userId], newToken, now)]
        && r.value == Respond(users[userId], newToken, now)
    {
      if userId !in users || !users[userId].isActive {
        return Err(Unauthorized("User not found"));
      }
      var user := users[userId];
      if user.refreshToken != Some(presented) {
        return Err(Unauthorized("Invalid refresh token"));
      }
      if LiftedLess(user.refreshTokenExpiryTime, now) {
        return Err(Unauthorized("Refresh token expired"));
      }
      user := RotateSession(user, newToken, now);
      users := users[userId := user];
      r := Ok(Respond(user, newToken, now));
    }

    /** GetUserByIdAsync. */
    method GetUserById(userId: Guid) returns (r: Result<UserInfo>)
      ensures userId in users ==> r == Ok(Info(users[userId]))
      ensures userId !in users ==> r == Err(KeyNotFound("User not found"))
    {
      if userId !in users {
        return Err(KeyNotFound("User not found"));
      }
      r := Ok(Info(users[userId]));
    }

    /** The entries GetAllUsersAsync projects from the table. */
    function Listing(): set<UserInfo>
      reads this
    {
      set id | id in users :: Info(users[id])
    }

    /** GetAllUsersAsync: one entry per stored user, newest account first. */
    method GetAllUsers() returns (infos: seq<UserInfo>)
      ensures |infos| == |users|
      ensures NewestFirst(infos)
      ensures forall id :: id in users ==> Info(users[id]) in infos
      ensures forall i :: 0 <= i < |infos| ==> infos[i] in Listing()
    {
      var rows := CollectRows();
      infos := SortByNewest(rows);
      SortByNewestCorrect(rows);
      SameMembers(rows, infos);
      forall i | 0 <= i < |infos| ensures infos[i] in Listing() {
        assert infos[i] in infos;
        assert infos[i] in rows;
        var j :| 0 <= j < |rows| && rows[j] == infos[i];
      }
    }

    /** `ToListAsync()` before the ordering: the projected rows in table order. */
    method CollectRows() returns (rows: seq<UserInfo>)
      ensures |rows| == |users|
      ensures forall id :: id in users ==> Info(users[id]) in rows
      ensures forall i :: 0 <= i < |rows| ==> rows[i] in Listing()
    {
      rows := [];
      var pending := users.Keys;
      while pending != {}
        invariant pending <= users.Keys
        invariant |rows| + |pending| == |users|
        invariant forall id :: id in users && id !in pending ==> Info(users[id]) in rows
        invariant forall i :: 0 <= i < |rows| ==> rows[i] in Listing()
        decreases pending
      {
        var id :| id in pending;
        rows := rows + [Info(users[id])];
        pending := pending - {id};
      }
    }

    /** UpdateUserRoleAsync: only the role changes. The service accepts any role
        text; the request validation that admits only "User" and "Admin" is not
        modelled. */
    method UpdateUserRole(userId: Guid, role: string) returns (r: Result<UserInfo>)
      requires Valid()
      modifies this
      ensures Valid()
      ensures userId !in old(users) ==> r == Err(KeyNotFound("User not found")) && users == old(users)
      ensures userId in old(users) ==>
        && users == old(users)[userId := WithRole(old(users)[userId], role)]
        && r == Ok(Info(users[userId]))
    {
      if userId !in users {
        return Err(KeyNotFound("User not found"));
      }
      var user := WithRole(users[userId], role);
      users := users[userId := user];
      r := Ok(Info(user));
    }

    /** DeleteUserAsync: a soft delete; the record stays in the table. */
    method DeleteUser(userId: Guid) returns (r: Result<bool>)
      requires Valid()
      modifies this
      ensures Valid()
      ensures users.Keys == old(users).Keys
      ensures userId !in old(users) ==> r == Err(KeyNotFound("User not found")) && users == old(users)
      ensures userId in old(users) ==>
        r == Ok(true) && users == old(users)[userId := Deactivate(old(users)[userId])]
    {
      if userId !in users {
        return Err(KeyNotFound("User not found"));
      }
      var user := Deactivate(users[userId]);
      users := users[userId := user];
      r := Ok(true);
    }

    /** ChangePasswordAsync: three failures that leave the record unchanged; on
        success only the password hash changes. */
    method ChangePassword(userId: Guid, currentPassword: string, newPassword: string, salt: nat)
      returns (r: Result<bool>)
      requires Valid()
      modifies this
      ensures Valid()
      ensures r.Err? ==> users == old(users)
      ensures userId !in old(users) ==> r == Err(KeyNotFound("User not found"))
      ensures userId in old(users) && !HasLocalPassword(old(users)[userId]) ==>
        r == Err(InvalidOperation("Cannot change password for OAuth users"))
      ensures userId in old(users) && HasLocalPassword(old(users)[userId]) &&
              !Verify(currentPassword, old(users)[userId].passwordHash.value) ==>
        r == Err(Unauthorized("Current password is incorrect"))
      ensures r.Ok? <==> userId in old(users) && HasLocalPassword(old(users)[userId]) &&
                         Verify(currentPassword, old(users)[userId].passwordHash.value)
      ensures r.Ok? ==>
        r.value && users == old(users)[userId := WithPassword(old(users)[userId], newPassword, salt)]
    {
      if userId !in users {
        return Err(KeyNotFound("User not found"));
      }
      var user := users[userId];
      if user.authProvider != LocalProvider || user.passwordHash.None? {
        return Err(InvalidOperation("Cannot change password for OAuth users"));
      }
      if !Verify(currentPassword, user.passwordHash.value) {
        return Err(Unauthorized("Current password is incorrect"));
      }
      user := WithPassword(user, newPassword, salt);
      users := users[userId := user];
      r := Ok(true);
    }
  }
}
