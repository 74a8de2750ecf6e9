/** The authentication context: the in-memory user, the loading flag, and the operations that keep
    them in step with the credential store (login, logout, profile update, token refresh and the
    session restore run at start-up). Storage and network outcomes are parameters. */
module Session {
  import opened Wrappers
  import opened JsText
  import opened Credentials

  /** The errors the session operations reject with. */
  datatype AuthError =
    | StorageFailure  // an AsyncStorage call threw, and the error is rethrown as it is
    | NoUserLoggedIn  // "No user logged in"
    | UpdateFailed    // "Failed to update user data"

  /** What `refreshAccessTokenApi` obtained from POST /auth/refresh: a new access token, or an error. */
  datatype AccessRefresh = Granted(accessToken: string, accessTokenExpires: int) | Denied

  /** `isAuthenticated`: `!!user?.id`, false without a user and, with one, true exactly when its
      id is a non-empty string. */
  function IsAuthenticated(user: Option<User>): (r: bool)
    ensures r ==> user.Some?
    ensures user.Some? ==> (r <==> user.value.id != "")
  {
    user.Some? && user.value.id != ""
  }

  /** What the start-up check decides from the stored values. */
  datatype RestoreDecision = KeepSession(refreshAccessToken: bool) | ClearSession

  /** The decision of `checkAuthStatus`: the session is kept only with a stored user and a refresh token
      that is present and whose stored expiry is not in the past (a missing expiry counts as past);
      a kept session refreshes its access token when one is stored but its expiry is past or missing. */
  function DecideRestore(s: Store, now: int): (d: RestoreDecision)
    ensures d.KeepSession? <==>
      s.user.Some? && Present(s.refreshToken) && s.refreshTokenExpires.Some? && now <= s.refreshTokenExpires.value
    ensures d == KeepSession(true) <==>
      d.KeepSession? && Present(s.accessToken) && (s.accessTokenExpires.None? || s.accessTokenExpires.value < now)
  {
    var hasAccessToken := Present(s.accessToken);
    var hasRefreshToken := Present(s.refreshToken);
    var isRefreshTokenExpired := if s.refreshTokenExpires.Some? then now > s.refreshTokenExpires.value else true;
    var isAccessTokenExpired := if s.accessTokenExpires.Some? then now > s.accessTokenExpires.value else true;
    if s.user.Some? && hasRefreshToken && !isRefreshTokenExpired then
      KeepSession(isAccessTokenExpired && hasAccessToken)
    else
      ClearSession
  }

  /** The state of the `AuthProvider` component. */
  class AuthProvider {
    var user: Option<User>
    var isLoading: bool
    const storage: Storage

    constructor (storage: Storage)
      ensures this.storage == storage && user.None? && isLoading
    {
      this.storage := storage;
      user := None;
      isLoading := true;
    }

    /** `login`: stores the user, then the four token keys, then sets the user. A storage error is
        rethrown and leaves the in-memory user as it was. */
    method Login(userData: User, tokens: TokenSet, userWriteOk: bool, tokensWriteOk: bool) returns (error: Option<AuthError>)
      modifies this, storage
      ensures isLoading == old(isLoading)
      ensures error.None? <==> userWriteOk && tokensWriteOk
      ensures error.Some? ==> error.value == StorageFailure && user == old(user)
      ensures !userWriteOk ==> storage.items == old(storage.items)
      ensures userWriteOk && !tokensWriteOk ==> storage.items == old(storage.items).(user := Some(userData))
      ensures error.None? ==> user == Some(userData) && storage.items == WithTokens(old(storage.items).(user := Some(userData)), tokens)
    {
      if !userWriteOk {
        return Some(StorageFailure);
      }
      storage.items := storage.items.(user := Some(userData));
      if !tokensWriteOk {
        return Some(StorageFailure);
      }
      storage.items := storage.items.(
        accessToken := Some(tokens.accessToken),
        refreshToken := Some(tokens.refreshToken),
        accessTokenExpires := Some(tokens.accessTokenExpires),
        refreshTokenExpires := Some(tokens.refreshTokenExpires));
      user := Some(userData);
      error := None;
    }

    /** `updateUserInContext`: merges the patch into the current user and stores it under `user` only.
        The in-memory user is updated before the write, so it stays updated when the write throws. */
    method UpdateUserInContext(patch: UserPatch, writeOk: bool) returns (error: Option<AuthError>)
      modifies this, storage
      ensures isLoading == old(isLoading)
      ensures old(user).None? ==> error == Some(NoUserLoggedIn) && user == old(user) && storage.items == old(storage.items)
      ensures old(user).Some? ==> user == Some(Merge(old(user).value, patch))
      ensures old(user).Some? && writeOk ==> error.None? && storage.items == old(storage.items).(user := user)
      ensures old(user).Some? && !writeOk ==> error == Some(UpdateFailed) && storage.items == old(storage.items)
    {
      if user.None? {
        return Some(NoUserLoggedIn);
      }
      var updatedUser := Merge(user.value, patch);
      user := Some(updatedUser);
      if !writeOk {
        return Some(UpdateFailed);
      }
      storage.items := storage.items.(user := Some(updatedUser));
      error := None;
    }

    /** `getAccessToken`: the stored access token trimmed, or null when it is missing or empty or
        the read throws. */
    method GetAccessToken(readOk: bool) returns (token: Option<string>)
      ensures token.Some? <==> readOk && Present(storage.items.accessToken)
      ensures token.Some? ==> token.value == Trim(storage.items.accessToken.value)
    {
      if !readOk {
        return None;
      }
      var stored := storage.items.accessToken;
      token := if Present(stored) then Some(Trim(stored.value)) else None;
    }

    /** `logout`: the server call's failure is swallowed, the five keys are removed, and the user is
        cleared even when the removal throws. */
    method Logout(removeOk: bool)
      modifies this, storage
      ensures user.None? && isLoading == old(isLoading)
      ensures storage.items == if removeOk then Cleared else old(storage.items)
    {
      if removeOk {
        storage.items := Cleared;
      }
      user := None;
    }

    /** `getRefreshToken`: on success rewrites only the access token and its expiry and answers true;
        on any failure logs out and answers false. */
    method GetRefreshToken(response: AccessRefresh, writeOk: bool, removeOk: bool) returns (refreshed: bool)
      modifies this, storage
      ensures isLoading == old(isLoading)
      ensures refreshed <==> Present(old(storage.items).refreshToken) && response.Granted? && writeOk
      ensures refreshed ==>
        && user == old(user)
        && storage.items == old(storage.items).(
             accessToken := Some(response.accessToken), accessTokenExpires := Some(response.accessTokenExpires))
      ensures !refreshed ==> user.None? && storage.items == if removeOk then Cleared else old(storage.items)
    {
      var failed := !Present(storage.items.refreshToken) || response.Denied? || !writeOk;
      if failed {
        Logout(removeOk);
        return false;
      }
      storage.items := storage.items.(
        accessToken := Some(response.accessToken),
        accessTokenExpires := Some(response.accessTokenExpires));
      refreshed := true;
    }

    /** `checkAuthStatus`: restores the stored session or clears it, refreshing a stale access token of
        a restored session; the user is null after any exception, and loading ends on every path. */
    method CheckAuthStatus(now: int, readOk: bool, response: AccessRefresh, writeOk: bool, removeOk: bool)
      modifies this, storage
      ensures !isLoading
      ensures !readOk ==> user.None? && storage.items == old(storage.items)
      ensures readOk && DecideRestore(old(storage.items), now).ClearSession? ==>
        user.None? && storage.items == if removeOk then Cleared else old(storage.items)
      ensures readOk && DecideRestore(old(storage.items), now) == KeepSession(false) ==>
        user == old(storage.items).user && storage.items == old(storage.items)
      ensures readOk && DecideRestore(old(storage.items), now) == KeepSession(true) ==>
        if response.Granted? && writeOk then
          && user == old(storage.items).user
          && storage.items == old(storage.items).(
               accessToken := Some(response.accessToken), accessTokenExpires := Some(response.accessTokenExpires))
        else
          user.None? && storage.items == if removeOk then Cleared else old(storage.items)
    {
      isLoading := true;
      if !readOk {
        user := None;
        isLoading := false;
        return;
      }
      var stored := storage.items;
      match DecideRestore(stored, now) {
        case KeepSession(refreshAccessToken) =>
          user := stored.user;
          if refreshAccessToken {
            var _ := GetRefreshToken(response, writeOk, removeOk);
          }
        case ClearSession =>
          if removeOk {
            storage.items := Cleared;
          }
          user := None;
      }
      isLoading := false;
    }
  }

  /** A session written by login survives a restart while its refresh token is unexpired, and the
      restored user is authenticated exactly when its id is not empty. */
  lemma LoginThenRestore(s: Store, u: User, t: TokenSet, now: int)
    requires t.refreshToken != "" && now <= t.refreshTokenExpires
    ensures var stored := WithTokens(s.(user := Some(u)), t);
            && DecideRestore(stored, now) == KeepSession(t.accessToken != "" && t.accessTokenExpires < now)
            && (IsAuthenticated(stored.user) <==> u.id != "")
  {
  }

  /** After a logout whose removal succeeded, or a failed refresh, nothing is restored at start-up. */
  lemma ClearedStoreIsNotRestored(now: int)
    ensures DecideRestore(Cleared, now) == ClearSession
  {
  }

  /** An empty patch changes nothing, and applying the same patch twice is applying it once. */
  lemma MergeLaws(u: User, p: UserPatch)
    ensures Merge(u, UserPatch(None, None, None, None, None, None)) == u
    ensures Merge(Merge(u, p), p) == Merge(u, p)
  {
  }
}
