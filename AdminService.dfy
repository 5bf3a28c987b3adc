/** The administrator's user operations
    (backend/src/main/java/com/blog/auth/service/impl/AdminServiceImpl.java): creating a user in
    the identity provider and then in the database, enabling and disabling a user in both, and
    deleting one. The logged-in user's name and the outcomes of the identity provider's and the
    database's work are parameters; the calls made to the identity provider are recorded. */
module AdminService {
  import opened Wrappers
  import opened Users

  /** `isItSelfOrRootUser`: without a logged-in user it throws OperationNotPermit; otherwise it
      tells whether the requested name is the logged-in user's own or the root user's. */
  function IsItSelfOrRootUser(loggedIn: Option<string>, requested: Option<string>): (r: Result<bool, Failure>)
    ensures r.Err? <==> loggedIn.None?
    ensures r.Err? ==> r.error == OperationNotPermit
    ensures r.Ok? ==> (r.value <==> requested == loggedIn || requested == Some(RootUserName))
  {
    match loggedIn
    case None => Err(OperationNotPermit)
    case Some(name) => Ok(Some(name) == requested || requested == Some(RootUserName))
  }

  /** The checks `enableUser` and `disableUser` make before they touch anything: the user must
      exist, someone must be logged in, and the user must be neither that person nor root. */
  function TargetOf(users: Store, userId: int, loggedIn: Option<string>): (r: Result<User, Failure>)
    ensures userId !in users ==> r == Err(UserNotFoundException)
    ensures (userId in users && loggedIn.None?) ==> r == Err(RuntimeException("You are not logged in"))
    ensures r.Ok? <==>
      (userId in users && loggedIn.Some? && users[userId].username != loggedIn
       && users[userId].username != Some(RootUserName))
    ensures (userId in users && loggedIn.Some? && r.Err?) ==> r.error == OperationNotPermit
    ensures r.Ok? ==> r.value == users[userId]
  {
    if userId !in users then Err(UserNotFoundException)
    else if loggedIn.None? then Err(RuntimeException("You are not logged in"))
    else match IsItSelfOrRootUser(loggedIn, users[userId].username)
      case Err(e) => Err(e)
      case Ok(selfOrRoot) => if selfOrRoot then Err(OperationNotPermit) else Ok(users[userId])
  }

  /** The answer and the users after `enableUser` (`enable`) or `disableUser` (`!enable`): when
      the checks pass, the flag is set and the identity provider is asked; if it fails, the flag
      is set to the opposite value and the answer is false. */
  function Toggle(users: Store, userId: int, enable: bool, loggedIn: Option<string>, idpSucceeds: bool)
    : (r: (Result<bool, Failure>, Store))
    ensures r.0.Err? <==> TargetOf(users, userId, loggedIn).Err?
    ensures r.0.Err? ==> r.0.error == TargetOf(users, userId, loggedIn).error && r.1 == users
    ensures r.0.Ok? ==> r.0.value == idpSucceeds
    ensures r.0.Ok? ==> (r.1.Keys == users.Keys && r.1[userId].isEnabled == Some(enable == idpSucceeds))
    ensures r.0.Ok? ==> r.1[userId] == users[userId].(isEnabled := r.1[userId].isEnabled)
    ensures forall k | k in users && k != userId :: k in r.1 && r.1[k] == users[k]
  {
    match TargetOf(users, userId, loggedIn)
    case Err(e) => (Err(e), users)
    case Ok(user) =>
      var flag := if idpSucceeds then enable else !enable;
      (Ok(idpSucceeds), users[userId := user.(isEnabled := Some(flag))])
  }

  /** A failed enable leaves the user disabled and a failed disable leaves it enabled, whatever
      the flag was before the request. */
  lemma FailedToggleSetsOpposite(users: Store, userId: int, enable: bool, loggedIn: Option<string>)
    requires TargetOf(users, userId, loggedIn).Ok?
    ensures Toggle(users, userId, enable, loggedIn, false) == (Ok(false), users[userId := users[userId].(isEnabled := Some(!enable))])
  {
  }

  /** The root user and the logged-in user are never enabled or disabled. */
  lemma SelfAndRootUntouched(users: Store, userId: int, enable: bool, loggedIn: Option<string>, idpSucceeds: bool)
    requires userId in users && (users[userId].username == loggedIn || users[userId].username == Some(RootUserName))
    ensures Toggle(users, userId, enable, loggedIn, idpSucceeds).1 == users
    ensures loggedIn.Some? ==> Toggle(users, userId, enable, loggedIn, idpSucceeds).0 == Err(OperationNotPermit)
  {
  }

  /** `createUser` as written saves `toUser(request)`, which carries no identity-provider id:
      the not-null column refuses that row whatever else holds, so every creation that reaches
      the database ends in the rollback. */
  lemma RequestRowRefused(s: Store, nextId: int, req: CreateUserRequest, accepted: bool)
    ensures Save(s, nextId, None, FromRequest(req), accepted).None?
  {
  }

  /** With the identity provider's id set, a new user whose name is free is saved under the next
      id when the database's other constraints accept it. */
  lemma IdpRowSaved(s: Store, nextId: int, req: CreateUserRequest, keycloakId: string)
    requires !NameTakenElsewhere(s, nextId, req.username)
    ensures Save(s, nextId, None, RowForIdpUser(req, keycloakId), true)
      == Some((s[nextId := RowForIdpUser(req, keycloakId)], nextId))
  {
  }

  class AdminServiceImpl {
    /** The user repository, by id. */
    var users: Store
    /** The id the database gives the next user saved. */
    var nextId: int
    /** The calls made to the identity provider, oldest first. */
    var idpCalls: seq<IdpCall>

    ghost predicate Valid()
      reads this
    {
      Consistent(users, nextId)
    }

    constructor ()
      ensures Valid() && users == map[] && idpCalls == []
    {
      users := map[];
      nextId := 1;
      idpCalls := [];
    }

    /** `createUser`: the identity provider creates the user first (`idpOutcome` is the id it
        gives, `None` when it throws); then the user is saved with that id, and when the save
        fails the identity provider's user is rolled back. */
    method CreateUser(req: CreateUserRequest, idpOutcome: Option<string>, accepted: bool) returns (r: Result<UserInfo, Failure>)
      requires Valid()
      modifies this
      ensures Valid()
      ensures idpOutcome.None? ==>
        (r == Err(RuntimeException("Failed to create user in identity provider"))
         && users == old(users) && idpCalls == old(idpCalls) + [CreateInIdp(req.username)])
      ensures (idpOutcome.Some? && Save(old(users), old(nextId), None, RowForIdpUser(req, idpOutcome.value), accepted).None?) ==>
        (r == Err(RuntimeException("Failed to create user in database")) && users == old(users)
         && idpCalls == old(idpCalls) + [CreateInIdp(req.username), RollbackInIdp(req.username)])
      ensures (idpOutcome.Some? && Save(old(users), old(nextId), None, RowForIdpUser(req, idpOutcome.value), accepted).Some?) ==>
        (users == old(users)[old(nextId) := RowForIdpUser(req, idpOutcome.value)] && nextId == old(nextId) + 1
         && r == Ok(CreatedInIdp(req, idpOutcome.value).(userId := Some(old(nextId))))
         && idpCalls == old(idpCalls) + [CreateInIdp(req.username)])
    {
      if idpOutcome.None? {
        idpCalls := idpCalls + [CreateInIdp(req.username)];
        r := Err(RuntimeException("Failed to create user in identity provider"));
      } else {
        var user := RowForIdpUser(req, idpOutcome.value);
        var saved := Save(users, nextId, None, user, accepted);
        var response := CreatedInIdp(req, idpOutcome.value);
        if saved.None? {
          idpCalls := idpCalls + [CreateInIdp(req.username), RollbackInIdp(response.username)];
          r := Err(RuntimeException("Failed to create user in database"));
        } else {
          SaveNewKeepsValid(users, nextId, user, accepted);
          idpCalls := idpCalls + [CreateInIdp(req.username)];
          users := users[nextId := user];
          r := Ok(response.(userId := Some(nextId)));
          nextId := nextId + 1;
        }
      }
    }

    /** `enableUser` and `disableUser`: the identity provider is called only when the checks
        pass. */
    method SetEnabled(userId: int, enable: bool, loggedIn: Option<string>, idpSucceeds: bool) returns (r: Result<bool, Failure>)
      requires Valid()
      modifies this
      ensures Valid() && nextId == old(nextId)
      ensures (r, users) == Toggle(old(users), userId, enable, loggedIn, idpSucceeds)
      ensures TargetOf(old(users), userId, loggedIn).Err? ==> idpCalls == old(idpCalls)
      ensures TargetOf(old(users), userId, loggedIn).Ok? ==>
        idpCalls == old(idpCalls) + [if enable then EnableInIdp(old(users)[userId].keycloakId) else DisableInIdp(old(users)[userId].keycloakId)]
    {
      var target := TargetOf(users, userId, loggedIn);
      if target.Err? {
        return Err(target.error);
      }
      var user := target.value;
      var keycloakId := user.keycloakId;
      idpCalls := idpCalls + [if enable then EnableInIdp(keycloakId) else DisableInIdp(keycloakId)];
      if idpSucceeds {
        users := users[userId := user.(isEnabled := Some(enable))];
        r := Ok(true);
      } else {
        users := users[userId := user.(isEnabled := Some(!enable))];
        r := Ok(false);
      }
    }

    /** `enableAndDisableUser`: enables when the flag is set, disables otherwise. The flag is a
        boxed `Boolean`: a null flag throws when the log line unboxes it, before anything is
        called or changed. */
    method EnableAndDisableUser(userId: int, enableUser: Option<bool>, loggedIn: Option<string>, idpSucceeds: bool)
      returns (r: Result<bool, Failure>)
      requires Valid()
      modifies this
      ensures Valid() && nextId == old(nextId)
      ensures enableUser.None? ==> r == Err(NullPointerException) && users == old(users) && idpCalls == old(idpCalls)
      ensures enableUser.Some? ==> (r, users) == Toggle(old(users), userId, enableUser.value, loggedIn, idpSucceeds)
    {
      if enableUser.None? {
        return Err(NullPointerException);
      }
      r := SetEnabled(userId, enableUser.value, loggedIn, idpSucceeds);
    }

    /** `deleteUser`: an unknown name fails before the identity provider is called; otherwise the
        identity provider deletes the user first, and only then is the row deleted. */
    method DeleteUser(userName: string, idpDeletes: bool) returns (r: Result<bool, Failure>)
      requires Valid()
      modifies this
      ensures Valid() && nextId == old(nextId)
      ensures Named(old(users), Some(userName)) == {} ==>
        (r == Err(RuntimeException("Failed to delete user: User not found: " + userName))
         && users == old(users) && idpCalls == old(idpCalls))
      ensures Named(old(users), Some(userName)) != {} ==> idpCalls == old(idpCalls) + [DeleteInIdp(Some(userName))]
      ensures (Named(old(users), Some(userName)) != {} && !idpDeletes) ==>
        (r == Err(RuntimeException("Failed to delete user: Failed to delete user from identity provider"))
         && users == old(users))
      ensures (Named(old(users), Some(userName)) != {} && idpDeletes) ==>
        (r == Ok(true) && users == old(users) - Named(old(users), Some(userName)))
    {
      var found := Named(users, Some(userName));
      if !exists k | k in users :: users[k].username == Some(userName) {
        assert found == {};
        return Err(RuntimeException("Failed to delete user: User not found: " + userName));
      }
      var id :| id in users && users[id].username == Some(userName);
      assert id in found;
      idpCalls := idpCalls + [DeleteInIdp(Some(userName))];
      if !idpDeletes {
        return Err(RuntimeException("Failed to delete user: Failed to delete user from identity provider"));
      }
      forall k | k in found
        ensures k == id
      {
        NamedAtMostOne(users, Some(userName), k, id);
      }
      assert found == {id};
      users := users - {id};
      r := Ok(true);
    }
  }
}
