/** The authentication context on web and mobile: one reducer over (user, loading,
    error), shared by both, and the procedures that dispatch into it while keeping the
    tokens in local storage. Server replies are parameters of the procedures. */
module Auth {
  import opened Common

  /** A user object as the server sends it: field name to value. */
  type User = map<string, string>

  datatype AuthState = AuthState(user: Option<User>, loading: bool, error: Option<string>)

  datatype AuthAction =
    | SetLoading(loading: bool)
    | SetUser(user: Option<User>)
    | SetError(error: Option<string>)
    | Logout
    | Other(kind: string)  // any other type; one spelled like a named action is never dispatched as Other

  /** initialState: nobody signed in, still loading, no error. */
  function InitialState(): (s: AuthState)
    ensures s.user.None? && s.loading && s.error.None?
  {
    AuthState(None, true, None)
  }

  /** The state after LOGOUT, whatever came before. */
  function LoggedOut(): (s: AuthState)
    ensures s.user.None? && !s.loading && s.error.None?
  {
    AuthState(None, false, None)
  }

  /** authReducer. */
  function Reduce(s: AuthState, a: AuthAction): AuthState {
    match a
    case SetLoading(l) => s.(loading := l)
    case SetUser(u) => s.(user := u, loading := false, error := None)
    case SetError(e) => s.(error := e, loading := false)
    case Logout => LoggedOut()
    case Other(_) => s
  }

  /** What each action does and leaves alone: SET_USER replaces the user and clears
      loading and error; SET_ERROR keeps the user; LOGOUT forgets everything; SET_LOADING
      changes only loading; any other action changes nothing. Every action but
      SET_LOADING and an unknown one ends loading. */
  lemma ReducerEffects(s: AuthState, a: AuthAction)
    ensures a.SetUser? ==> Reduce(s, a) == AuthState(a.user, false, None)
    ensures a.SetError? ==> Reduce(s, a) == AuthState(s.user, false, a.error)
    ensures a.Logout? ==> Reduce(s, a) == LoggedOut()
    ensures a.SetLoading? ==> Reduce(s, a).user == s.user && Reduce(s, a).error == s.error && Reduce(s, a).loading == a.loading
    ensures a.Other? ==> Reduce(s, a) == s
    ensures !a.SetLoading? && !a.Other? ==> !Reduce(s, a).loading
  {
  }

  /** Dispatching the same action twice is the same as dispatching it once. */
  lemma ReduceIdempotent(s: AuthState, a: AuthAction)
    ensures Reduce(Reduce(s, a), a) == Reduce(s, a)
  {
  }

  /** LOGOUT forgets the past: any history followed by LOGOUT ends in the same state. */
  lemma {:induction false} LogoutForgetsHistory(s: AuthState, history: seq<AuthAction>)
    ensures ReduceAll(s, history + [Logout]) == LoggedOut()
  {
    assert (history + [Logout])[..|history|] == history;
  }

  /** Dispatching a sequence of actions in order. */
  function ReduceAll(s: AuthState, actions: seq<AuthAction>): AuthState
    decreases |actions|
  {
    if actions == [] then s else Reduce(ReduceAll(s, actions[..|actions| - 1]), actions[|actions| - 1])
  }

  /** `{ ...user, ...userData }` with a missing user spreading as nothing: the new fields
      win, the other old fields stay, and no field comes from elsewhere. */
  function Merge(user: Option<User>, userData: User): (r: User)
    ensures forall k :: k in userData ==> k in r && r[k] == userData[k]
    ensures user.Some? ==> forall k :: k in user.value && k !in userData ==> k in r && r[k] == user.value[k]
    ensures forall k :: k in r ==> k in userData || (user.Some? && k in user.value)
  {
    (if user.Some? then user.value else map[]) + userData
  }

  /** A stored token counts only when it is a non-empty string (`!token` otherwise). */
  predicate HasToken(t: Option<string>) {
    t.Some? && t.value != ""
  }

  /** The server's answer to the login request. */
  datatype LoginReply = LoginOk(user: User, accessToken: string, refreshToken: string) | LoginFailed(message: Option<string>)

  datatype LoginResult = LoginResult(success: bool, user: Option<User>, error: Option<string>)

  /** `message || 'Login failed'`. */
  function LoginError(message: Option<string>): (e: string)
    ensures e != ""
    ensures message.Some? && message.value != "" ==> e == message.value
  {
    if message.Some? && message.value != "" then message.value else "Login failed"
  }

  /** The server's answer to a profile request: the user it carries, or a failure. */
  datatype ProfileReply = ProfileOk(user: Option<User>) | ProfileFailed

  /** The server's answer to a token refresh. */
  datatype RefreshReply = RefreshOk(accessToken: string, refreshToken: string) | RefreshFailed

  /** The web provider (client AuthContext.js): reducer state, the two stored tokens and
      the Authorization header of the API client. */
  class WebAuth {
    var state: AuthState
    var accessToken: Option<string>
    var refreshToken: Option<string>
    var authHeader: Option<string>

    constructor(accessToken: Option<string>, refreshToken: Option<string>)
      ensures state == InitialState()
      ensures this.accessToken == accessToken && this.refreshToken == refreshToken && authHeader.None?
    {
      state := InitialState();
      this.accessToken := accessToken;
      this.refreshToken := refreshToken;
      authHeader := None;
    }

    /** login: SET_LOADING true, then SET_USER with the tokens stored, or SET_ERROR with
        the server's message (or "Login failed") and the tokens untouched. */
    method Login(reply: LoginReply) returns (result: LoginResult)
      modifies this
      ensures !state.loading
      ensures reply.LoginOk? ==>
        && result == LoginResult(true, Some(reply.user), None)
        && state == AuthState(Some(reply.user), false, None)
        && accessToken == Some(reply.accessToken) && refreshToken == Some(reply.refreshToken)
        && authHeader == Some("Bearer " + reply.accessToken)
      ensures reply.LoginFailed? ==>
        && result == LoginResult(false, None, Some(LoginError(reply.message)))
        && state == AuthState(old(state.user), false, Some(LoginError(reply.message)))
        && accessToken == old(accessToken) && refreshToken == old(refreshToken) && authHeader == old(authHeader)
    {
      state := Reduce(state, SetLoading(true));
      if reply.LoginOk? {
        accessToken := Some(reply.accessToken);
        refreshToken := Some(reply.refreshToken);
        authHeader := Some("Bearer " + reply.accessToken);
        state := Reduce(state, SetUser(Some(reply.user)));
        result := LoginResult(true, Some(reply.user), None);
      } else {
        var message := LoginError(reply.message);
        state := Reduce(state, SetError(Some(message)));
        result := LoginResult(false, None, Some(message));
      }
    }

    /** logout: whatever the server says, the tokens and the header are gone and the
        state is the logged-out one. `serverAccepted` is the logout call's outcome, kept
        as a parameter to show that nothing depends on it. */
    method SignOut(serverAccepted: bool)
      modifies this
      ensures state == LoggedOut()
      ensures accessToken.None? && refreshToken.None? && authHeader.None?
    {
      accessToken := None;
      refreshToken := None;
      authHeader := None;
      state := Reduce(state, Logout);
    }

    /** updateUser: SET_USER with the merged user object. */
    method UpdateUser(userData: User)
      modifies this`state
      ensures state == AuthState(Some(Merge(old(state.user), userData)), false, None)
    {
      state := Reduce(state, SetUser(Some(Merge(state.user, userData))));
    }

    /** checkAuthStatus with its refresh fallback: no access token ends loading; a good
        profile signs the user in; otherwise a refresh is tried, which without a refresh
        token ends loading, and on any failure logs out. Every path ends loading. */
    method CheckAuthStatus(profile: ProfileReply, refresh: RefreshReply, profileAfterRefresh: ProfileReply)
      modifies this
      ensures !state.loading
      ensures !HasToken(old(accessToken)) ==>
        && state == old(state).(loading := false)
        && accessToken == old(accessToken) && refreshToken == old(refreshToken) && authHeader == old(authHeader)
      ensures HasToken(old(accessToken)) && profile.ProfileOk? ==>
        && state == AuthState(profile.user, false, None)
        && accessToken == old(accessToken) && refreshToken == old(refreshToken)
        && authHeader == Some("Bearer " + old(accessToken).value)
      ensures HasToken(old(accessToken)) && profile.ProfileFailed? && !HasToken(old(refreshToken)) ==>
        && state == old(state).(loading := false)
        && accessToken == old(accessToken) && refreshToken == old(refreshToken)
        && authHeader == Some("Bearer " + old(accessToken).value)
      ensures HasToken(old(accessToken)) && profile.ProfileFailed? && HasToken(old(refreshToken)) && refresh.RefreshOk? && profileAfterRefresh.ProfileOk? ==>
        && state == AuthState(profileAfterRefresh.user, false, None)
        && accessToken == Some(refresh.accessToken) && refreshToken == Some(refresh.refreshToken)
        && authHeader == Some("Bearer " + refresh.accessToken)
      ensures HasToken(old(accessToken)) && profile.ProfileFailed? && HasToken(old(refreshToken)) && (refresh.RefreshFailed? || profileAfterRefresh.ProfileFailed?) ==>
        state == LoggedOut() && accessToken.None? && refreshToken.None? && authHeader.None?
    {
      if !HasToken(accessToken) {
        state := Reduce(state, SetLoading(false));
        return;
      }
      authHeader := Some("Bearer " + accessToken.value);
      if profile.ProfileOk? {
        state := Reduce(state, SetUser(profile.user));
        return;
      }
      if !HasToken(refreshToken) {
        state := Reduce(state, SetLoading(false));
        return;
      }
      if refresh.RefreshFailed? {
        SignOut(false);
        return;
      }
      accessToken := Some(refresh.accessToken);
      refreshToken := Some(refresh.refreshToken);
      authHeader := Some("Bearer " + refresh.accessToken);
      if profileAfterRefresh.ProfileFailed? {
        SignOut(false);
        return;
      }
      state := Reduce(state, SetUser(profileAfterRefresh.user));
    }
  }

  /** The mobile provider (mobile AuthContext.js): the same reducer and stored tokens,
      no refresh step and no header to keep. */
  class MobileAuth {
    var state: AuthState
    var accessToken: Option<string>
    var refreshToken: Option<string>

    constructor(accessToken: Option<string>, refreshToken: Option<string>)
      ensures state == InitialState()
      ensures this.accessToken == accessToken && this.refreshToken == refreshToken
    {
      state := InitialState();
      this.accessToken := accessToken;
      this.refreshToken := refreshToken;
    }

    /** login: as on the web, without the header. */
    method Login(reply: LoginReply) returns (result: LoginResult)
      modifies this
      ensures !state.loading
      ensures reply.LoginOk? ==>
        && result == LoginResult(true, Some(reply.user), None)
        && state == AuthState(Some(reply.user), false, None)
        && accessToken == Some(reply.accessToken) && refreshToken == Some(reply.refreshToken)
      ensures reply.LoginFailed? ==>
        && result == LoginResult(false, None, Some(LoginError(reply.message)))
        && state == AuthState(old(state.user), false, Some(LoginError(reply.message)))
        && accessToken == old(accessToken) && refreshToken == old(refreshToken)
    {
      state := Reduce(state, SetLoading(true));
      if reply.LoginOk? {
        accessToken := Some(reply.accessToken);
        refreshToken := Some(reply.refreshToken);
        state := Reduce(state, SetUser(Some(reply.user)));
        result := LoginResult(true, Some(reply.user), None);
      } else {
        var message := LoginError(reply.message);
        state := Reduce(state, SetError(Some(message)));
        result := LoginResult(false, None, Some(message));
      }
    }

    /** logout: tokens removed and the logged-out state, whatever the server says;
        `serverAccepted` is deliberately unused, as the outcome is ignored. */
    method SignOut(serverAccepted: bool)
      modifies this
      ensures state == LoggedOut()
      ensures accessToken.None? && refreshToken.None?
    {
      accessToken := None;
      refreshToken := None;
      state := Reduce(state, Logout);
    }

    /** checkAuthStatus: no token ends loading; a good profile signs in; a failed one
        logs out. */
    method CheckAuthStatus(profile: ProfileReply)
      modifies this
      ensures !state.loading
      ensures !HasToken(old(accessToken)) ==> state == old(state).(loading := false) && accessToken == old(accessToken) && refreshToken == old(refreshToken)
      ensures HasToken(old(accessToken)) && profile.ProfileOk? ==> state == AuthState(profile.user, false, None) && accessToken == old(accessToken) && refreshToken == old(refreshToken)
      ensures HasToken(old(accessToken)) && profile.ProfileFailed? ==> state == LoggedOut() && accessToken.None? && refreshToken.None?
    {
      if !HasToken(accessToken) {
        state := Reduce(state, SetLoading(false));
      } else if profile.ProfileOk? {
        state := Reduce(state, SetUser(profile.user));
      } else {
        SignOut(false);
      }
    }
  }
}
