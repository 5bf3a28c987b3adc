/** The user operations of the back end
    (backend/src/main/java/com/blog/auth/service/impl/UserServiceImpl.java): signing a user up in
    the identity provider and then in the database, importing the identity provider's users,
    updating the logged-in user's profile, and reading a user by id. The logged-in user's name
    and the outcomes of the identity provider's and the database's work are parameters; the
    calls made to the identity provider are recorded. */
module UserService {
  import opened Wrappers
  import opened Users

  /** `UpdateUserRequest`: the profile fields a user may change. */
  datatype UpdateUserRequest = UpdateUserRequest(
    firstName: Option<string>,
    lastName: Option<string>,
    age: Option<string>,
    isEnabled: Option<bool>,
    role: Option<string>,
    profileImage: Option<string>)

  /** The user after `updateUser`'s setters: role, names, flag, image and age are overwritten,
      null included; the email, the username and the identity-provider id are kept. */
  function Updated(u: User, req: UpdateUserRequest): (r: User)
    ensures r.role == req.role && r.firstName == req.firstName && r.lastName == req.lastName
    ensures r.isEnabled == req.isEnabled && r.profileImage == req.profileImage && r.age == req.age
    ensures r.email == u.email && r.username == u.username && r.keycloakId == u.keycloakId
  {
    u.(role := req.role, firstName := req.firstName, lastName := req.lastName, isEnabled := req.isEnabled,
       profileImage := req.profileImage, age := req.age)
  }

  /** The user a sign-up saves is the one the administrator's path saves, except that it carries
      the identity provider's id. */
  lemma SignUpCarriesIdpId(req: CreateUserRequest, keycloakId: string)
    ensures FromInfo(CreatedInIdp(req, keycloakId)) == FromRequest(req).(keycloakId := Some(keycloakId))
  {
  }

  /** Where an import stops: the users and the next id, and the user whose save failed. */
  datatype ImportOutcome = ImportOutcome(users: Store, nextId: int, failed: Option<UserInfo>)

  /** `saveUsersFromIDP` over the reported users in order, `accepted[i]` being the database's
      verdict on the i-th: a user whose name is stored is skipped; any other is saved; the first
      failed save ends the import. Earlier saves stay, as the method runs outside a
      transaction. */
  function Import(s: Store, nextId: int, infos: seq<UserInfo>, accepted: seq<bool>): (r: ImportOutcome)
    requires |accepted| == |infos|
    ensures r.failed.Some? ==> r.failed.value in infos
    decreases |infos|
  {
    if infos == [] then ImportOutcome(s, nextId, None)
    else if Named(s, infos[0].username) != {} then Import(s, nextId, infos[1..], accepted[1..])
    else match Save(s, nextId, infos[0].userId, FromInfo(infos[0]), accepted[0])
      case None => ImportOutcome(s, nextId, Some(infos[0]))
      case Some(saved) => Import(saved.0, NextAfter(nextId, saved.1), infos[1..], accepted[1..])
  }

  /** The reported users carry no database id, so every save adds a row. */
  predicate NoIds(infos: seq<UserInfo>) {
    forall i | 0 <= i < |infos| :: infos[i].userId.None?
  }

  /** An import only adds rows: the users already stored are never changed. */
  lemma {:induction false} ImportKeepsStored(s: Store, nextId: int, infos: seq<UserInfo>, accepted: seq<bool>)
    requires |accepted| == |infos| && NoIds(infos) && forall k | k in s :: k < nextId
    ensures forall k | k in s ::
      (k in Import(s, nextId, infos, accepted).users && Import(s, nextId, infos, accepted).users[k] == s[k])
    decreases |infos|
  {
    if infos != [] {
      if Named(s, infos[0].username) == {} {
        var saved := Save(s, nextId, None, FromInfo(infos[0]), accepted[0]);
        if saved.Some? {
          var s' := saved.value.0;
          assert forall k | k in s :: k in s' && s'[k] == s[k];
          ImportKeepsStored(s', NextAfter(nextId, saved.value.1), infos[1..], accepted[1..]);
        }
      } else {
        ImportKeepsStored(s, nextId, infos[1..], accepted[1..]);
      }
    }
  }

  /** An import keeps every id below the next id. */
  lemma {:induction false} ImportBounded(s: Store, nextId: int, infos: seq<UserInfo>, accepted: seq<bool>)
    requires |accepted| == |infos| && forall k | k in s :: k < nextId
    ensures forall k | k in Import(s, nextId, infos, accepted).users :: k < Import(s, nextId, infos, accepted).nextId
    decreases |infos|
  {
    if infos != [] {
      if Named(s, infos[0].username) == {} {
        var saved := Save(s, nextId, infos[0].userId, FromInfo(infos[0]), accepted[0]);
        if saved.Some? {
          ImportBounded(saved.value.0, NextAfter(nextId, saved.value.1), infos[1..], accepted[1..]);
        }
      } else {
        ImportBounded(s, nextId, infos[1..], accepted[1..]);
      }
    }
  }

  /** A list of users who are all stored already changes nothing. */
  lemma {:induction false} ImportOfKnownChangesNothing(s: Store, nextId: int, infos: seq<UserInfo>, accepted: seq<bool>)
    requires |accepted| == |infos|
    requires forall i | 0 <= i < |infos| :: Named(s, infos[i].username) != {}
    ensures Import(s, nextId, infos, accepted) == ImportOutcome(s, nextId, None)
    decreases |infos|
  {
    if infos != [] {
      ImportOfKnownChangesNothing(s, nextId, infos[1..], accepted[1..]);
    }
  }

  /** When the database accepts every row, nothing fails: a new name is free, since a stored
      one is skipped, and a row without an id gets a fresh one. */
  lemma {:induction false} ImportAllAccepted(s: Store, nextId: int, infos: seq<UserInfo>, accepted: seq<bool>)
    requires |accepted| == |infos| && NoIds(infos) && forall k | k in s :: k < nextId
    requires forall i | 0 <= i < |accepted| :: accepted[i]
    requires forall i | 0 <= i < |infos| :: infos[i].keycloakId.Some?
    ensures Import(s, nextId, infos, accepted).failed.None?
    decreases |infos|
  {
    if infos != [] {
      if Named(s, infos[0].username) == {} {
        assert !NameTakenElsewhere(s, nextId, FromInfo(infos[0]).username);
        var saved := Save(s, nextId, None, FromInfo(infos[0]), accepted[0]);
        ImportAllAccepted(saved.value.0, NextAfter(nextId, saved.value.1), infos[1..], accepted[1..]);
      } else {
        ImportAllAccepted(s, nextId, infos[1..], accepted[1..]);
      }
    }
  }

  /** After an import that did not fail, every reported user with a name is stored. */
  lemma {:induction false} ImportComplete(s: Store, nextId: int, infos: seq<UserInfo>, accepted: seq<bool>)
    requires |accepted| == |infos| && NoIds(infos) && forall k | k in s :: k < nextId
    requires Import(s, nextId, infos, accepted).failed.None?
    ensures forall i | 0 <= i < |infos| && infos[i].username.Some? ::
      Named(Import(s, nextId, infos, accepted).users, infos[i].username) != {}
    decreases |infos|
  {
    if infos != [] {
      var r := Import(s, nextId, infos, accepted);
      var s', n' := s, nextId;
      if Named(s, infos[0].username) == {} {
        var saved := Save(s, nextId, None, FromInfo(infos[0]), accepted[0]);
        s', n' := saved.value.0, NextAfter(nextId, saved.value.1);
        assert nextId in s' && s'[nextId].username == infos[0].username;
      }
      assert r == Import(s', n', infos[1..], accepted[1..]);
      ImportComplete(s', n', infos[1..], accepted[1..]);
      ImportKeepsStored(s', n', infos[1..], accepted[1..]);
      forall i | 0 <= i < |infos| && infos[i].username.Some?
        ensures Named(r.users, infos[i].username) != {}
      {
        if i == 0 {
          var k :| k in Named(s', infos[0].username);
          assert k in Named(r.users, infos[0].username);
        } else {
          assert infos[i] == infos[1..][i - 1];
        }
      }
    }
  }

  class UserServiceImpl {
    /** The user repository, by id. */
    var users: Store
    /** The id the database gives the next user saved without one. */
    var nextId: int
    /** The calls made to the identity provider, oldest first. */
    var idpCalls: seq<IdpCall>

    ghost predicate Valid()
      reads this
    {
      UniqueUsernames(users) && HaveIdpIds(users) && forall k | k in users :: k < nextId
    }

    constructor ()
      ensures Valid() && users == map[] && idpCalls == []
    {
      users := map[];
      nextId := 1;
      idpCalls := [];
    }

    /** `createUser`: the identity provider creates the user (`idpOutcome` is the id it gives,
        `None` when it throws, and then its exception propagates); the user it reports is saved
        with that id, and when the save fails the identity provider's user is deleted and the
        request's username is thrown. */
    method CreateUser(req: CreateUserRequest, idpOutcome: Option<string>, accepted: bool) returns (r: Result<UserInfo, Failure>)
      requires Valid()
      modifies this
      ensures Valid()
      ensures idpOutcome.None? ==>
        (r == Err(IdentityProviderException) && users == old(users)
         && idpCalls == old(idpCalls) + [CreateInIdp(req.username)])
      ensures (idpOutcome.Some? && Save(old(users), old(nextId), None, FromInfo(CreatedInIdp(req, idpOutcome.value)), accepted).None?) ==>
        (r == Err(UserRejected(req.username)) && users == old(users)
         && idpCalls == old(idpCalls) + [CreateInIdp(req.username), DeleteInIdp(req.username)])
      ensures (idpOutcome.Some? && Save(old(users), old(nextId), None, FromInfo(CreatedInIdp(req, idpOutcome.value)), accepted).Some?) ==>
        (users == old(users)[old(nextId) := FromInfo(CreatedInIdp(req, idpOutcome.value))]
         && r == Ok(CreatedInIdp(req, idpOutcome.value).(userId := Some(old(nextId))))
         && idpCalls == old(idpCalls) + [CreateInIdp(req.username)])
    {
      idpCalls := idpCalls + [CreateInIdp(req.username)];
      if idpOutcome.None? {
        return Err(IdentityProviderException);
      }
      var response := CreatedInIdp(req, idpOutcome.value);
      var user := FromInfo(response).(keycloakId := response.keycloakId, isEnabled := response.isEnabled);
      var saved := Save(users, nextId, response.userId, user, accepted);
      if saved.None? {
        assert idpCalls + [DeleteInIdp(response.username)]
          == old(idpCalls) + [CreateInIdp(req.username), DeleteInIdp(req.username)];
        idpCalls := idpCalls + [DeleteInIdp(response.username)];
        return Err(UserRejected(req.username));
      }
      SaveKeepsUnique(users, nextId, response.userId, user, accepted);
      users := saved.value.0;
      nextId := NextAfter(nextId, saved.value.1);
      r := Ok(response.(userId := Some(saved.value.1)));
    }

    /** `saveUsersFromIDP`: the import of `Import`; when a save fails, the identity provider's
        copy of that user is deleted and its username is thrown. */
    method SaveUsersFromIdp(infos: seq<UserInfo>, accepted: seq<bool>) returns (r: Result<(), Failure>)
      requires Valid() && |accepted| == |infos|
      modifies this
      ensures Valid()
      ensures users == Import(old(users), old(nextId), infos, accepted).users
      ensures nextId == Import(old(users), old(nextId), infos, accepted).nextId
      ensures Import(old(users), old(nextId), infos, accepted).failed.None? ==> r == Ok(()) && idpCalls == old(idpCalls)
      ensures Import(old(users), old(nextId), infos, accepted).failed.Some? ==>
        (r == Err(UserRejected(Import(old(users), old(nextId), infos, accepted).failed.value.username))
         && idpCalls == old(idpCalls) + [DeleteInIdp(Import(old(users), old(nextId), infos, accepted).failed.value.username)])
    {
      var i := 0;
      while i < |infos|
        invariant 0 <= i <= |infos|
        invariant UniqueUsernames(users) && HaveIdpIds(users) && forall k | k in users :: k < nextId
        invariant Import(old(users), old(nextId), infos, accepted) == Import(users, nextId, infos[i..], accepted[i..])
        invariant idpCalls == old(idpCalls)
      {
        var info := infos[i];
        assert infos[i..][0] == info && infos[i..][1..] == infos[i + 1..] && accepted[i..][1..] == accepted[i + 1..];
        if Named(users, info.username) != {} {
          i := i + 1;
          continue;
        }
        var saved := Save(users, nextId, info.userId, FromInfo(info), accepted[i]);
        if saved.None? {
          idpCalls := idpCalls + [DeleteInIdp(info.username)];
          return Err(UserRejected(info.username));
        }
        SaveKeepsUnique(users, nextId, info.userId, FromInfo(info), accepted[i]);
        SaveKeepsIdpIds(users, nextId, info.userId, FromInfo(info), accepted[i]);
        users := saved.value.0;
        nextId := NextAfter(nextId, saved.value.1);
        i := i + 1;
      }
      r := Ok(());
    }

    /** `updateUser`: without a logged-in user, or when that user is not stored, it throws
        UserNotFoundException; otherwise the user is updated. The user is an entity the
        transaction already manages, so `save` writes nothing: a row the database refuses is
        refused at commit, after the method's catch, and surfaces as a
        DataIntegrityViolationException, with nothing changed. */
    method UpdateUser(req: UpdateUserRequest, loggedIn: Option<string>, accepted: bool) returns (r: Result<UserInfo, Failure>)
      requires Valid()
      modifies this
      ensures Valid() && nextId == old(nextId) && idpCalls == old(idpCalls)
      ensures Named(old(users), loggedIn) == {} ==> r == Err(UserNotFoundException) && users == old(users)
      ensures (Named(old(users), loggedIn) != {} && !accepted) ==>
        (r == Err(DataIntegrityViolationException) && users == old(users))
      ensures (Named(old(users), loggedIn) != {} && accepted) ==>
        exists id | id in Named(old(users), loggedIn) ::
          users == old(users)[id := Updated(old(users)[id], req)] && r == Ok(ToInfo(id, users[id]))
    {
      if loggedIn.None? || !exists k | k in users :: users[k].username == loggedIn {
        assert Named(users, loggedIn) == {};
        return Err(UserNotFoundException);
      }
      var id :| id in users && users[id].username == loggedIn;
      assert id in Named(users, loggedIn);
      var user := Updated(users[id], req);
      assert !NameTakenElsewhere(users, id, user.username);
      var saved := Save(users, nextId, Some(id), user, accepted);
      if saved.None? {
        return Err(DataIntegrityViolationException);
      }
      SaveKeepsUnique(users, nextId, Some(id), user, accepted);
      users := saved.value.0;
      r := Ok(ToInfo(id, user));
    }

    /** `getUserById`: the stored user's report, or UserNotFoundException. */
    method GetUserById(userId: int) returns (r: Result<UserInfo, Failure>)
      ensures userId in users ==> r == Ok(ToInfo(userId, users[userId]))
      ensures userId !in users ==> r == Err(UserNotFoundException)
    {
      if userId in users {
        r := Ok(ToInfo(userId, users[userId]));
      } else {
        r := Err(UserNotFoundException);
      }
    }
  }
}
