/** The route guard of the front end (frontend/src/App.js): what a protected route shows for the
    authentication state it reads, and the roles the routes ask for. */
module Routes {
  import opened Wrappers
  import opened Js
  import Auth

  /** What the guard renders. */
  datatype View = Spinner | RedirectTo(path: string) | Children

  const LoginPath := "/login"
  const NotAuthorizedPath := "/not-authorized"

  /** The roles the new-post and edit-post routes ask for. */
  const PostEditorRoles: seq<string> := ["ROLE_AUTHOR", "ROLE_ADMIN"]

  /** `PrivateRoute`: a spinner while the user loads, the login page without a user, the
      not-authorized page when roles are asked for and the user has none of them, else the
      protected page. */
  function PrivateRoute(loading: bool, currentUser: Option<Obj>, requiredRoles: seq<string>): (r: Result<View, string>)
    ensures loading ==> r == Ok(Spinner)
    ensures !loading && currentUser.None? ==> r == Ok(RedirectTo(LoginPath))
    ensures !loading && currentUser.Some? && requiredRoles == [] ==> r == Ok(Children)
    ensures r.Ok? && r.value == Children ==> !loading && currentUser.Some?
  {
    if loading then Ok(Spinner)
    else
      match currentUser
      case None => Ok(RedirectTo(LoginPath))
      case Some(user) =>
        if |requiredRoles| > 0 then
          match Auth.SomeRoleIncluded(requiredRoles, Get(user, "roles"))
          case Err(e) => Err(e)
          case Ok(found) => if found then Ok(Children) else Ok(RedirectTo(NotAuthorizedPath))
        else Ok(Children)
  }

  /** For a signed-in user whose roles are an array, the guard lets the user through exactly when
      the user holds one of the roles asked for, and otherwise sends them to the not-authorized
      page. */
  lemma GuardWithRoleArray(user: Obj, requiredRoles: seq<string>)
    requires requiredRoles != [] && Get(user, "roles").Arr?
    ensures PrivateRoute(false, Some(user), requiredRoles) ==
      if exists i :: 0 <= i < |requiredRoles| && Str(requiredRoles[i]) in Get(user, "roles").elems
      then Ok(Children) else Ok(RedirectTo(NotAuthorizedPath))
  {
    var roles := Get(user, "roles");
    assert forall i :: 0 <= i < |requiredRoles| ==>
      (IncludesText(roles, requiredRoles[i]) == Ok(true) <==> Str(requiredRoles[i]) in roles.elems);
  }

  /** The guard and the hook's `hasRole` agree whenever the user's roles are truthy or missing:
      with roles asked for, the guard shows the page when `hasRole(requiredRoles)` holds, sends
      the user away when it does not, and throws when it throws. */
  lemma GuardAgreesWithHasRole(user: Obj, requiredRoles: seq<string>)
    requires requiredRoles != []
    requires Truthy(Get(user, "roles")) || Get(user, "roles").Undefined? || Get(user, "roles").Null?
    ensures PrivateRoute(false, Some(user), requiredRoles) ==
      match Auth.HasRole(Some(user), Auth.AnyOf(requiredRoles))
      case Ok(true) => Ok(Children)
      case Ok(false) => Ok(RedirectTo(NotAuthorizedPath))
      case Err(e) => Err(e)
  {
    var roles := Get(user, "roles");
    if roles.Undefined? || roles.Null? {
      assert forall i :: 0 <= i < |requiredRoles| ==> IncludesText(roles, requiredRoles[i]) == Ok(false);
    }
  }

  /** A user without a roles property never reaches a route that asks for roles. */
  lemma NoRolesNotAuthorized(user: Obj, requiredRoles: seq<string>)
    requires requiredRoles != [] && "roles" !in user
    ensures PrivateRoute(false, Some(user), requiredRoles) == Ok(RedirectTo(NotAuthorizedPath))
  {
    assert Get(user, "roles") == Undefined;
    assert forall i :: 0 <= i < |requiredRoles| ==> IncludesText(Undefined, requiredRoles[i]) == Ok(false);
  }

  /** The post editor routes admit a signed-in user whose roles array holds ROLE_AUTHOR or
      ROLE_ADMIN, and no one else with a roles array. */
  lemma PostEditorGuard(user: Obj)
    requires Get(user, "roles").Arr?
    ensures PrivateRoute(false, Some(user), PostEditorRoles) == Ok(Children)
      <==> Str("ROLE_AUTHOR") in Get(user, "roles").elems || Str("ROLE_ADMIN") in Get(user, "roles").elems
  {
    GuardWithRoleArray(user, PostEditorRoles);
    assert PostEditorRoles[0] == "ROLE_AUTHOR" && PostEditorRoles[1] == "ROLE_ADMIN";
  }
}
