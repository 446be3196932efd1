/**
 * The authentication store (src/store/authStore.js): three fields that `setAuth`
 * overwrites from a login response and `logout` resets.
 */
module AuthStore {
  import opened Wrappers

  /** The user record of a login response, kept verbatim; its fields are the server's. */
  datatype UserData = UserData(fields: map<string, string>)

  /** A login response: `access` is the token, `user` the user record; either may be missing. */
  datatype LoginData = LoginData(access: Option<string>, user: Option<UserData>)

  datatype AuthState = AuthState(isAuthenticated: bool, accessToken: Option<string>, userData: Option<UserData>)

  /** JavaScript truthiness of an optional string: present and non-empty. */
  predicate Truthy(s: Option<string>) {
    s.Some? && s.value != ""
  }

  /** The state before any login (and after `logout`). */
  function Initial(): AuthState {
    AuthState(false, None, None)
  }

  /** The state `setAuth(data)` leaves behind when called in state `s`. */
  function AfterSetAuth(s: AuthState, data: LoginData): AuthState {
    AuthState(Truthy(data.access), data.access, data.user)
  }

  /** The state `logout()` leaves behind when called in state `s`. */
  function AfterLogout(s: AuthState): AuthState {
    Initial()
  }

  /**
   * `setAuth` authenticates exactly when the token is truthy, even from an authenticated
   * state, stores token and user verbatim, and the state before it plays no part.
   */
  lemma SetAuthOverwrites(s: AuthState, data: LoginData)
    ensures AfterSetAuth(s, data).isAuthenticated <==> Truthy(data.access)
    ensures AfterSetAuth(s, data).accessToken == data.access
    ensures AfterSetAuth(s, data).userData == data.user
    ensures AfterSetAuth(s, data) == AfterSetAuth(Initial(), data)
  {
  }

  /**
   * `logout` resets all three fields from any state, is idempotent, and a login after it
   * is the same as a login from the initial state.
   */
  lemma LogoutResets(s: AuthState, data: LoginData)
    ensures AfterLogout(s) == Initial()
    ensures AfterLogout(AfterLogout(s)) == AfterLogout(s)
    ensures AfterSetAuth(AfterLogout(s), data) == AfterSetAuth(Initial(), data)
  {
  }

  class AuthStore {
    var isAuthenticated: bool
    var accessToken: Option<string>
    var userData: Option<UserData>

    function State(): AuthState
      reads this
    {
      AuthState(isAuthenticated, accessToken, userData)
    }

    /** The initial state: not authenticated, no token, no user. */
    constructor ()
      ensures State() == Initial()
      ensures !isAuthenticated && accessToken == None && userData == None
    {
      isAuthenticated := false;
      accessToken := None;
      userData := None;
    }

    /**
     * `setAuth`: all three fields are overwritten from the response, the previous state
     * playing no part; authenticated exactly when the token is truthy.
     */
    method SetAuth(data: LoginData)
      modifies this
      ensures State() == AfterSetAuth(old(State()), data)
      ensures isAuthenticated <==> Truthy(data.access)
    {
      isAuthenticated := Truthy(data.access);
      accessToken := data.access;
      userData := data.user;
    }

    /** `logout`: back to the initial state from any state; doing it twice is doing it once. */
    method Logout()
      modifies this
      ensures State() == AfterLogout(old(State()))
      ensures !isAuthenticated && accessToken == None && userData == None
    {
      isAuthenticated := false;
      accessToken := None;
      userData := None;
    }
  }
}
