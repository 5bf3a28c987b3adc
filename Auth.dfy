/** The authentication hook of the front end (frontend/src/hooks/useAuth.jsx): the signed-in
    user, the stored token and the role check. The calls to the authentication API are
    modelled by their outcomes, passed in, and by whether the API binding the hook imports
    exists at all; `localStorage` is a field, and so are the API's header token and the last
    navigation target. */
module Auth {
  import opened Wrappers
  import opened Js

  /** The argument of `hasRole`: one role, or an array of roles of which any will do. */
  datatype RoleQuery = OneRole(role: string) | AnyOf(roles: seq<string>)

  /** `required.some(role => roles.includes(role))`: stops at the first role found, and throws
      where the first lookup throws. */
  function SomeRoleIncluded(required: seq<string>, roles: Value): (r: Result<bool, string>)
    ensures required == [] ==> r == Ok(false)
    ensures required != [] ==> (r.Err? <==> IncludesText(roles, required[0]).Err?)
    ensures r.Ok? ==> (r.value <==> exists i :: 0 <= i < |required| && IncludesText(roles, required[i]) == Ok(true))
  {
    if required == [] then Ok(false)
    else
      match IncludesText(roles, required[0])
      case Err(e) => Err(e)
      case Ok(true) => Ok(true)
      case Ok(false) =>
        var rest := SomeRoleIncluded(required[1..], roles);
        assert forall i :: 1 <= i < |required| ==> required[i] == required[1..][i - 1];
        assert rest.Ok?;
        rest
  }

  /** `hasRole(requiredRoles)`: false with no user or with falsy roles; otherwise, for an array
      of required roles, whether one of them is included in the user's roles (so an empty array
      is never satisfied), and for a single role whether it is included. `includes` is
      membership on an array of roles, a text search on a string, and a TypeError on any other
      truthy value. */
  function HasRole(currentUser: Option<Obj>, required: RoleQuery): (r: Result<bool, string>)
    ensures currentUser.None? || !Truthy(Get(currentUser.value, "roles")) ==> r == Ok(false)
    ensures required == AnyOf([]) ==> r == Ok(false)
    ensures currentUser.Some? && Get(currentUser.value, "roles").Arr? ==>
      var roles := Get(currentUser.value, "roles").elems;
      match required
      case OneRole(role) => r == Ok(Str(role) in roles)
      case AnyOf(rs) => r == Ok(exists i :: 0 <= i < |rs| && Str(rs[i]) in roles)
    ensures r.Err? <==> (currentUser.Some? && Truthy(Get(currentUser.value, "roles"))
      && !Get(currentUser.value, "roles").Arr? && !Get(currentUser.value, "roles").Str?
      && required != AnyOf([]))
  {
    match currentUser
    case None => Ok(false)
    case Some(user) =>
      var roles := Get(user, "roles");
      if !Truthy(roles) then Ok(false)
      else
        match required
        case OneRole(role) => IncludesText(roles, role)
        case AnyOf(rs) => SomeRoleIncluded(rs, roles)
  }

  /** A token read as set: `!token` is false. */
  predicate TokenSet(token: Option<string>) {
    token.Some? && token.value != ""
  }

  /** The authentication API the hook calls through. As written the hook imports `exportedAPI`,
      a name the API module does not export, so the binding is `undefined` and every call
      through it throws a TypeError (`MissingApi`). `PresentApi` is the API the hook is written
      against: `setAuthToken`, `getCurrentUser`, `login`, `register` and `clearAuthToken`. */
  datatype AuthApi = MissingApi | PresentApi

  class AuthState {
    /** The binding the calls go through. */
    const api: AuthApi
    var currentUser: Option<Obj>
    var loading: bool
    var token: Option<string>
    /** `localStorage.getItem('token')`. */
    var storedToken: Option<string>
    /** The token the authentication API sends with its requests. */
    var apiToken: Option<string>
    /** Where the hook last navigated to. */
    var location: Option<string>

    /** The hook as written mounts with the token found in `localStorage`, an empty one read as
        none, and the undefined API binding. */
    constructor (stored: Option<string>)
      ensures api == MissingApi
      ensures storedToken == stored && currentUser == None && loading
      ensures token == if TokenSet(stored) then stored else None
      ensures apiToken == None && location == None
    {
      api := MissingApi;
      storedToken := stored;
      token := if TokenSet(stored) then stored else None;
      currentUser := None;
      loading := true;
      apiToken := None;
      location := None;
    }

    /** The same mount with the API the hook is written against. */
    constructor WithApi(stored: Option<string>)
      ensures api == PresentApi
      ensures storedToken == stored && currentUser == None && loading
      ensures token == if TokenSet(stored) then stored else None
      ensures apiToken == None && location == None
    {
      api := PresentApi;
      storedToken := stored;
      token := if TokenSet(stored) then stored else None;
      currentUser := None;
      loading := true;
      apiToken := None;
      location := None;
    }

    /** `isAuthenticated`: `!!currentUser`. */
    function IsAuthenticated(): (r: bool)
      reads this
      ensures r <==> currentUser.Some? && Truthy(Rec(currentUser.value))
    {
      currentUser.Some?
    }

    /** `loadUser()` up to its `await`: without a token loading ends at once. With one, the API
        is given the token and the current user is requested; through the undefined binding
        `setAuthToken` throws instead, and the catch drops the token from storage and from the
        state before loading ends. */
    method LoadUserStart() returns (fetch: bool)
      modifies this
      ensures fetch <==> TokenSet(old(token)) && api == PresentApi
      ensures !TokenSet(old(token)) ==> !loading && token == old(token) && storedToken == old(storedToken)
      ensures TokenSet(old(token)) && api == MissingApi ==> !loading && token == None && storedToken == None
      ensures fetch ==> apiToken == token && loading == old(loading)
      ensures fetch ==> token == old(token) && storedToken == old(storedToken)
      ensures !fetch ==> apiToken == old(apiToken)
      ensures currentUser == old(currentUser) && location == old(location)
    {
      if !TokenSet(token) {
        loading := false;
        return false;
      }
      if api == MissingApi {
        storedToken := None;
        token := None;
        loading := false;
        return false;
      }
      apiToken := token;
      fetch := true;
    }

    /** `loadUser()` after its `await`: the user that came back is signed in; on a failure the
        token is dropped from storage and from the state. Loading ends either way. */
    method LoadUserSettle(user: Option<Obj>)
      modifies this
      ensures !loading
      ensures user.Some? ==> currentUser == user && IsAuthenticated()
      ensures user.Some? ==> token == old(token) && storedToken == old(storedToken)
      ensures user.None? ==> token == None && storedToken == None && currentUser == old(currentUser)
      ensures apiToken == old(apiToken) && location == old(location)
    {
      match user {
        case Some(_) =>
          currentUser := user;
        case None =>
          storedToken := None;
          token := None;
      }
      loading := false;
    }

    /** `login(credentials)`, given the answer the API would give: a successful answer stores
        its token and signs its user in, and the user is returned; a failure changes nothing and
        is rethrown (`None`). Through the undefined binding `login` throws before any request,
        so the call always fails. */
    method Login(answer: Option<(string, Obj)>) returns (r: Option<Obj>)
      modifies this
      ensures api == MissingApi || answer.None? ==>
        r == None && currentUser == old(currentUser) && token == old(token) && storedToken == old(storedToken)
      ensures api == PresentApi && answer.Some? ==>
        r == Some(answer.value.1) && currentUser == r && token == Some(answer.value.0)
      ensures api == PresentApi && answer.Some? ==> storedToken == Some(answer.value.0)
      ensures loading == old(loading) && apiToken == old(apiToken) && location == old(location)
    {
      if api == MissingApi {
        return None;
      }
      match answer {
        case None =>
          r := None;
        case Some((t, u)) =>
          storedToken := Some(t);
          token := Some(t);
          currentUser := Some(u);
          r := Some(u);
      }
    }

    /** `register(userData)`, given the answer the API would give: the answer's data is
        returned, a failure is rethrown (`None`); through the undefined binding it always
        throws. Nothing of the state changes. */
    method Register(answer: Option<Obj>) returns (r: Option<Obj>)
      ensures api == MissingApi ==> r == None
      ensures api == PresentApi ==> r == answer
    {
      r := if api == MissingApi then None else answer;
    }

    /** `logout()`: the token leaves storage and the state and the user is signed out. Then
        the API drops its token and the login page is shown; through the undefined binding
        `clearAuthToken` throws first (`thrown`), so the API and the page stay as they were. */
    method Logout() returns (thrown: bool)
      modifies this
      ensures storedToken == None && token == None && currentUser == None
      ensures !IsAuthenticated()
      ensures thrown <==> api == MissingApi
      ensures thrown ==> apiToken == old(apiToken) && location == old(location)
      ensures !thrown ==> apiToken == None && location == Some("/login")
      ensures loading == old(loading)
    {
      storedToken := None;
      token := None;
      currentUser := None;
      if api == MissingApi {
        return true;
      }
      apiToken := None;
      location := Some("/login");
      thrown := false;
    }

    /** `updateUser(userData)`: the given fields are merged over the current user's; with no user
        the fields alone become the user. */
    method UpdateUser(userData: Obj)
      modifies this
      ensures currentUser.Some?
      ensures currentUser.value.Keys == old(currentUser).GetOr(map[]).Keys + userData.Keys
      ensures forall k :: k in userData ==> currentUser.value[k] == userData[k]
      ensures forall k :: k in old(currentUser).GetOr(map[]) && k !in userData ==>
        currentUser.value[k] == old(currentUser).value[k]
      ensures token == old(token) && storedToken == old(storedToken) && loading == old(loading)
      ensures apiToken == old(apiToken) && location == old(location)
    {
      currentUser := Some(Spread(currentUser.GetOr(map[]), userData));
    }
  }

  /** As written, mounting never signs anybody in: with a stored token the call into the
      undefined API throws, the token is dropped from storage and no user is requested. */
  method MountWithStoredToken(stored: Option<string>)
    returns (fetched: bool, signedIn: bool, kept: Option<string>)
    ensures !fetched && !signedIn
    ensures TokenSet(stored) ==> kept == None
    ensures !TokenSet(stored) ==> kept == stored
  {
    var auth := new AuthState(stored);
    fetched := auth.LoadUserStart();
    signedIn, kept := auth.IsAuthenticated(), auth.storedToken;
  }

  /** With the API the hook is written against, a stored token's user is fetched; one that
      loads is signed in and keeps the token, one that does not is dropped from storage. */
  method MountWithApi(stored: Option<string>, loaded: Option<Obj>)
    returns (fetched: bool, signedIn: bool, kept: Option<string>)
    ensures fetched <==> TokenSet(stored)
    ensures fetched && loaded.None? ==> !signedIn && kept == None
    ensures fetched && loaded.Some? ==> signedIn && kept == stored
    ensures !fetched ==> !signedIn && kept == stored
  {
    var auth := new AuthState.WithApi(stored);
    fetched := auth.LoadUserStart();
    if fetched {
      auth.LoadUserSettle(loaded);
    }
    signedIn, kept := auth.IsAuthenticated(), auth.storedToken;
  }

  /** As written, a login fails whatever the answer, and a logout clears the stored token but
      throws before the login page is shown. */
  method LoginThenLogout(stored: Option<string>, token: string, user: Obj)
    returns (signedInBetween: bool, signedInAfter: bool, kept: Option<string>, location: Option<string>, thrown: bool)
    ensures !signedInBetween && !signedInAfter && kept == None && location == None && thrown
  {
    var auth := new AuthState(stored);
    var returned := auth.Login(Some((token, user)));
    signedInBetween := auth.IsAuthenticated();
    thrown := auth.Logout();
    signedInAfter, kept, location := auth.IsAuthenticated(), auth.storedToken, auth.location;
  }

  /** With the API the hook is written against, signing in and then out leaves no token
      anywhere and nobody signed in, on the login page. */
  method LoginThenLogoutWithApi(stored: Option<string>, token: string, user: Obj)
    returns (signedInBetween: bool, signedInAfter: bool, kept: Option<string>, location: Option<string>)
    ensures signedInBetween && !signedInAfter && kept == None && location == Some("/login")
  {
    var auth := new AuthState.WithApi(stored);
    var returned := auth.Login(Some((token, user)));
    signedInBetween := auth.IsAuthenticated();
    var thrown := auth.Logout();
    signedInAfter, kept, location := auth.IsAuthenticated(), auth.storedToken, auth.location;
  }
}
