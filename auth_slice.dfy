/**
 * The `auth` slice of the Redux store: the signed-in user, the session token,
 * whether the client counts as signed in, a loading flag and the last error.
 * The browser's saved token is an input; the writes to it are not modelled.
 */
module AuthSlice {
  import opened Js
  import opened Wrappers

  /**
   * `localStorage.getItem('token') || null`: a saved token is used unless
   * nothing is saved or the saved string is empty.
   */
  function SavedToken(saved: Option<string>): (token: Option<string>)
    ensures token.Some? <==> saved.Some? && saved.value != ""
    ensures token.Some? ==> token == saved
  {
    if saved.Some? && saved.value != "" then saved else None
  }

  class AuthState {
    var user: Json
    var token: Option<string>
    var isAuthenticated: bool
    var loading: bool
    var error: Json

    /** `initialState`, from what the browser has saved under `token`. */
    constructor(saved: Option<string>)
      ensures user == Null && token == SavedToken(saved) && !loading && error == Null
      ensures isAuthenticated <==> saved.Some? && saved.value != ""
      ensures Consistent()
    {
      user := Null;
      token := SavedToken(saved);
      isAuthenticated := saved.Some? && saved.value != "";
      loading := false;
      error := Null;
    }

    /** The client counts as signed in exactly when it holds a token. */
    predicate Consistent()
      reads this
    {
      isAuthenticated <==> token.Some?
    }

    /** `loginStart`: loading begins and the error is cleared. */
    method LoginStart()
      modifies this
      ensures loading && error == Null
      ensures user == old(user) && token == old(token) && isAuthenticated == old(isAuthenticated)
      ensures old(Consistent()) ==> Consistent()
    {
      loading := true;
      error := Null;
    }

    /** `loginSuccess`: signed in with the payload's user and token, loading ends, no error. */
    method LoginSuccess(payloadUser: Json, payloadToken: Option<string>)
      modifies this
      ensures !loading && isAuthenticated && user == payloadUser && token == payloadToken && error == Null
      ensures payloadToken.Some? ==> Consistent()
    {
      loading := false;
      isAuthenticated := true;
      user := payloadUser;
      token := payloadToken;
      error := Null;
    }

    /** `loginFailure`: signed out, no user and no token, and the payload is the error. */
    method LoginFailure(payload: Json)
      modifies this
      ensures !loading && !isAuthenticated && user == Null && token.None? && error == payload
      ensures Consistent()
    {
      loading := false;
      isAuthenticated := false;
      user := Null;
      token := None;
      error := payload;
    }

    /** `logout`: everything back to signed out, with no error. */
    method Logout()
      modifies this
      ensures user == Null && token.None? && !isAuthenticated && !loading && error == Null
      ensures Consistent()
    {
      user := Null;
      token := None;
      isAuthenticated := false;
      loading := false;
      error := Null;
    }

    /** `setUser`: the user is replaced and the client counts as signed in; the token is not touched. */
    method SetUser(payload: Json)
      modifies this
      ensures user == payload && isAuthenticated
      ensures token == old(token) && loading == old(loading) && error == old(error)
      ensures old(token).Some? && old(Consistent()) ==> Consistent()
    {
      user := payload;
      isAuthenticated := true;
    }

    /** `clearError`: only the error changes. */
    method ClearError()
      modifies this
      ensures error == Null
      ensures user == old(user) && token == old(token) && isAuthenticated == old(isAuthenticated)
      ensures loading == old(loading)
    {
      error := Null;
    }
  }
}
