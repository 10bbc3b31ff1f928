/**
  The auth store: the users, refresh_tokens and oauth_sessions tables and the
  SQL statements the repository runs on them, with each table held as its
  rows in storage order. The WHERE clauses carry the rules: soft-deleted users
  are invisible to every getter, revoked refresh tokens are invisible to the
  lookup by hash, and the bulk revoke touches only active rows.
*/
module AuthRepository {
  import opened Wrappers
  import Tables

  datatype User = User(
    id: string,
    oauthProvider: string,
    oauthUserId: string,
    email: string,
    username: Option<string>,
    avatarUrl: Option<string>,
    createdAt: int,
    updatedAt: int,
    deletedAt: Option<int>)

  datatype RefreshToken = RefreshToken(
    id: string,
    userId: string,
    tokenHash: string,
    expiresAt: int,
    createdAt: int,
    revokedAt: Option<int>,
    revokedReason: Option<string>)

  datatype OAuthSession = OAuthSession(
    state: string,
    provider: string,
    codeVerifier: string,
    codeChallenge: string,
    redirectUri: string,
    expiresAt: int,
    createdAt: int)

  /** The row an INSERT INTO users stores: deleted_at is not among its columns. */
  function InsertedUser(u: User): User
  {
    u.(deletedAt := None)
  }

  /** The row an INSERT INTO refresh_tokens stores: revoked_at and revoked_reason are not among its columns. */
  function InsertedToken(t: RefreshToken): RefreshToken
  {
    t.(revokedAt := None, revokedReason := None)
  }

  class LocalAuthRepository {
    var users: seq<User>
    var refreshTokens: seq<RefreshToken>
    var oauthSessions: seq<OAuthSession>

    /** A repository over a database file holding these rows. */
    constructor (users: seq<User>, refreshTokens: seq<RefreshToken>, oauthSessions: seq<OAuthSession>)
      ensures this.users == users && this.refreshTokens == refreshTokens && this.oauthSessions == oauthSessions
    {
      this.users := users;
      this.refreshTokens := refreshTokens;
      this.oauthSessions := oauthSessions;
    }

    // User operations

    /** `GetUserByOAuthID`: a live user with that provider identity, or None. */
    function GetUserByOAuthID(provider: string, oauthUserId: string): (r: Option<User>)
      reads this
      ensures r.Some? ==> (r.value in users && r.value.deletedAt.None?
        && r.value.oauthProvider == provider && r.value.oauthUserId == oauthUserId)
      ensures r.None? <==> forall i :: 0 <= i < |users| ==>
        users[i].oauthProvider != provider || users[i].oauthUserId != oauthUserId || users[i].deletedAt.Some?
    {
      Tables.First(users, (u: User) => u.oauthProvider == provider && u.oauthUserId == oauthUserId && u.deletedAt.None?)
    }

    /** `GetUserByID`: a live user with that id, or None. */
    function GetUserByID(userId: string): (r: Option<User>)
      reads this
      ensures r.Some? ==> r.value in users && r.value.deletedAt.None? && r.value.id == userId
      ensures r.None? <==> forall i :: 0 <= i < |users| ==> users[i].id != userId || users[i].deletedAt.Some?
    {
      Tables.First(users, (u: User) => u.id == userId && u.deletedAt.None?)
    }

    /** `GetUserByEmail`: a live user with that email, or None. */
    function GetUserByEmail(email: string): (r: Option<User>)
      reads this
      ensures r.Some? ==> r.value in users && r.value.deletedAt.None? && r.value.email == email
      ensures r.None? <==> forall i :: 0 <= i < |users| ==> users[i].email != email || users[i].deletedAt.Some?
    {
      Tables.First(users, (u: User) => u.email == email && u.deletedAt.None?)
    }

    /**
      `CreateUser`: appends the row, or fails (a constraint of the schema,
      which is not part of this model, may refuse it) and changes nothing.
    */
    method CreateUser(user: User) returns (ok: bool)
      modifies this
      ensures users == if ok then old(users) + [InsertedUser(user)] else old(users)
      ensures refreshTokens == old(refreshTokens) && oauthSessions == old(oauthSessions)
      ensures ok && user.id != "" ==> GetUserByID(user.id).Some?
    {
      ok :| true;
      if ok {
        users := users + [InsertedUser(user)];
        assert users[|users| - 1] == InsertedUser(user);
      }
    }

    /**
      `UpdateUser`: sets username, avatar_url and updated_at on the live rows
      with the user's id; every other row and column stays as it was.
    */
    method UpdateUser(user: User)
      modifies this
      ensures |users| == |old(users)|
      ensures forall i :: 0 <= i < |users| ==> (users[i] ==
        if old(users)[i].id == user.id && old(users)[i].deletedAt.None?
        then old(users)[i].(username := user.username, avatarUrl := user.avatarUrl, updatedAt := user.updatedAt)
        else old(users)[i])
      ensures refreshTokens == old(refreshTokens) && oauthSessions == old(oauthSessions)
    {
      users := Tables.UpdateWhere(users, (u: User) => u.id == user.id && u.deletedAt.None?,
        (u: User) => u.(username := user.username, avatarUrl := user.avatarUrl, updatedAt := user.updatedAt));
    }

    /**
      `SoftDeleteUser`: sets deleted_at and updated_at to now on every row with
      that id (a second delete moves deleted_at forward). Afterwards no getter
      returns a user with that id.
    */
    method SoftDeleteUser(userId: string, now: int)
      modifies this
      ensures |users| == |old(users)|
      ensures forall i :: 0 <= i < |users| ==> (users[i] ==
        if old(users)[i].id == userId then old(users)[i].(deletedAt := Some(now), updatedAt := now) else old(users)[i])
      ensures refreshTokens == old(refreshTokens) && oauthSessions == old(oauthSessions)
      ensures GetUserByID(userId).None?
      ensures forall email :: GetUserByEmail(email).Some? ==> GetUserByEmail(email).value.id != userId
      ensures forall p, o :: GetUserByOAuthID(p, o).Some? ==> GetUserByOAuthID(p, o).value.id != userId
    {
      users := Tables.UpdateWhere(users, (u: User) => u.id == userId,
        (u: User) => u.(deletedAt := Some(now), updatedAt := now));
    }

    // Refresh token operations

    /** `CreateRefreshToken`: appends an unrevoked row, or fails and changes nothing. */
    method CreateRefreshToken(token: RefreshToken) returns (ok: bool)
      modifies this
      ensures refreshTokens == if ok then old(refreshTokens) + [InsertedToken(token)] else old(refreshTokens)
      ensures users == old(users) && oauthSessions == old(oauthSessions)
    {
      ok :| true;
      if ok {
        refreshTokens := refreshTokens + [InsertedToken(token)];
      }
    }

    /**
      `GetRefreshTokenByHash`: an unrevoked row with that hash, or None. The
      row's expiry is not checked.
    */
    function GetRefreshTokenByHash(tokenHash: string): (r: Option<RefreshToken>)
      reads this
      ensures r.Some? ==> r.value in refreshTokens && r.value.tokenHash == tokenHash && r.value.revokedAt.None?
      ensures r.None? <==> forall i :: 0 <= i < |refreshTokens| ==>
        refreshTokens[i].tokenHash != tokenHash || refreshTokens[i].revokedAt.Some?
    {
      Tables.First(refreshTokens, (t: RefreshToken) => t.tokenHash == tokenHash && t.revokedAt.None?)
    }

    /**
      `RevokeRefreshToken`: sets revoked_at and revoked_reason on every row
      with that id, revoked or not. The lookup by hash never returns it again.
    */
    method RevokeRefreshToken(tokenId: string, reason: string, now: int)
      modifies this
      ensures |refreshTokens| == |old(refreshTokens)|
      ensures forall i :: 0 <= i < |refreshTokens| ==> (refreshTokens[i] ==
        if old(refreshTokens)[i].id == tokenId
        then old(refreshTokens)[i].(revokedAt := Some(now), revokedReason := Some(reason))
        else old(refreshTokens)[i])
      ensures users == old(users) && oauthSessions == old(oauthSessions)
      ensures forall h :: GetRefreshTokenByHash(h).Some? ==> GetRefreshTokenByHash(h).value.id != tokenId
    {
      refreshTokens := Tables.UpdateWhere(refreshTokens, (t: RefreshToken) => t.id == tokenId,
        (t: RefreshToken) => t.(revokedAt := Some(now), revokedReason := Some(reason)));
    }

    /**
      `RevokeAllUserTokens`: revokes exactly the user's unrevoked rows; rows
      revoked earlier keep their time and reason, other users' rows are
      untouched, and the lookup by hash returns none of the user's tokens.
    */
    method RevokeAllUserTokens(userId: string, reason: string, now: int)
      modifies this
      ensures |refreshTokens| == |old(refreshTokens)|
      ensures forall i :: 0 <= i < |refreshTokens| ==> (refreshTokens[i] ==
        if old(refreshTokens)[i].userId == userId && old(refreshTokens)[i].revokedAt.None?
        then old(refreshTokens)[i].(revokedAt := Some(now), revokedReason := Some(reason))
        else old(refreshTokens)[i])
      ensures users == old(users) && oauthSessions == old(oauthSessions)
      ensures forall h :: GetRefreshTokenByHash(h).Some? ==> GetRefreshTokenByHash(h).value.userId != userId
    {
      refreshTokens := Tables.UpdateWhere(refreshTokens, (t: RefreshToken) => t.userId == userId && t.revokedAt.None?,
        (t: RefreshToken) => t.(revokedAt := Some(now), revokedReason := Some(reason)));
    }

    // OAuth session operations

    /**
      `CreateOAuthSession`: appends the row, or fails and changes nothing. A
      session stored under a fresh state is what the getter returns for it.
    */
    method CreateOAuthSession(session: OAuthSession) returns (ok: bool)
      modifies this
      ensures oauthSessions == if ok then old(oauthSessions) + [session] else old(oauthSessions)
      ensures users == old(users) && refreshTokens == old(refreshTokens)
      ensures ok && old(GetOAuthSession(session.state)).None? ==> GetOAuthSession(session.state) == Some(session)
    {
      ok :| true;
      if ok {
        oauthSessions := oauthSessions + [session];
        assert oauthSessions[|oauthSessions| - 1] == session;
      }
    }

    /** `GetOAuthSession`: the session stored under that state, or None. */
    function GetOAuthSession(state: string): (r: Option<OAuthSession>)
      reads this
      ensures r.Some? ==> r.value in oauthSessions && r.value.state == state
      ensures r.None? <==> forall i :: 0 <= i < |oauthSessions| ==> oauthSessions[i].state != state
    {
      Tables.First(oauthSessions, (s: OAuthSession) => s.state == state)
    }

    /**
      `DeleteOAuthSession`: removes every row with that state and keeps the
      others in order; deleting an absent state changes nothing and is no error.
    */
    method DeleteOAuthSession(state: string)
      modifies this
      ensures oauthSessions == Tables.Where(old(oauthSessions), (s: OAuthSession) => s.state != state)
      ensures users == old(users) && refreshTokens == old(refreshTokens)
      ensures GetOAuthSession(state).None?
      ensures old(GetOAuthSession(state)).None? ==> oauthSessions == old(oauthSessions)
    {
      if GetOAuthSession(state).None? {
        Tables.WhereAll(oauthSessions, (s: OAuthSession) => s.state != state);
      }
      oauthSessions := Tables.Where(oauthSessions, (s: OAuthSession) => s.state != state);
    }
  }
}
