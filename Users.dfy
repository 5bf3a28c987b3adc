/** The user records the back end keeps beside the identity provider: the entity
    (backend/src/main/java/com/blog/auth/model/User.java), what the identity provider reports about
    a user, the mapper conversions between the two, the repository's save, and the calls the
    services make to the identity provider. Java's null is `None`. */
module Users {
  import opened Wrappers
  import opened Js
  import Base64
  import UserMapper

  /** The stored user. */
  datatype User = User(
    email: Option<string>,
    firstName: Option<string>,
    keycloakId: Option<string>,
    lastName: Option<string>,
    username: Option<string>,
    age: Option<string>,
    role: Option<string>,
    isEnabled: Option<bool>,
    profileImage: Option<string>)

  /** `CreateUserResponse`: a user as the identity provider reports it, and as the services
      answer. */
  datatype UserInfo = UserInfo(
    userId: Option<int>,
    keycloakId: Option<string>,
    email: Option<string>,
    firstName: Option<string>,
    lastName: Option<string>,
    username: Option<string>,
    role: Option<string>,
    age: Option<string>,
    isEnabled: Option<bool>,
    profileImage: Option<string>)

  /** The exceptions the user services throw. `UserRejected` is a RuntimeException whose message
      is the user's name. */
  datatype Failure =
    | UserNotFoundException
    | OperationNotPermit
    | RuntimeException(message: string)
    | UserRejected(username: Option<string>)
    | IdentityProviderException
    | NullPointerException
    | DataIntegrityViolationException

  /** A call made to the identity provider, in the order made. */
  datatype IdpCall =
    | CreateInIdp(username: Option<string>)
    | RollbackInIdp(username: Option<string>)
    | DeleteInIdp(username: Option<string>)
    | EnableInIdp(keycloakId: Option<string>)
    | DisableInIdp(keycloakId: Option<string>)

  const RootUserName: string := "root"

  type Store = map<int, User>

  /** The username column is unique. */
  ghost predicate UniqueUsernames(s: Store) {
    forall a, b | a in s && b in s && s[a].username.Some? && s[a].username == s[b].username :: a == b
  }

  /** The ids of the users stored under `name`; `findByUsername(null)` finds nobody, as the
      column is not null. */
  function Named(s: Store, name: Option<string>): (r: set<int>)
    ensures forall k | k in r :: k in s && name.Some? && s[k].username == name
    ensures name.Some? ==> forall k | k in s && s[k].username == name :: k in r
  {
    set k | k in s && name.Some? && s[k].username == name
  }

  /** With unique usernames a name finds at most one user. */
  lemma NamedAtMostOne(s: Store, name: Option<string>, a: int, b: int)
    requires UniqueUsernames(s) && a in Named(s, name) && b in Named(s, name)
    ensures a == b
  {
  }

  predicate NameTakenElsewhere(s: Store, id: int, name: Option<string>) {
    exists k | k in s && k != id :: name.Some? && s[k].username == name
  }

  /** `userRepository.save`: the row goes under its own id, or under the next id when it has
      none. The not-null `keycloakId` column refuses a row without one, and the unique username
      column a name another row holds; whether the database's other constraints accept the row
      is `accepted`. */
  function Save(s: Store, nextId: int, id: Option<int>, u: User, accepted: bool): (r: Option<(Store, int)>)
    ensures r.Some? <==> accepted && u.keycloakId.Some? && !NameTakenElsewhere(s, id.GetOr(nextId), u.username)
    ensures r.Some? ==> r.value.1 == id.GetOr(nextId) && r.value.0 == s[id.GetOr(nextId) := u]
  {
    var key := id.GetOr(nextId);
    if accepted && u.keycloakId.Some? && !NameTakenElsewhere(s, key, u.username) then Some((s[key := u], key)) else None
  }

  /** A save keeps the usernames unique. */
  lemma SaveKeepsUnique(s: Store, nextId: int, id: Option<int>, u: User, accepted: bool)
    requires UniqueUsernames(s) && Save(s, nextId, id, u, accepted).Some?
    ensures UniqueUsernames(Save(s, nextId, id, u, accepted).value.0)
  {
  }

  /** Every stored row has an identity-provider id: the column is not null. */
  predicate HaveIdpIds(s: Store) {
    forall k | k in s :: s[k].keycloakId.Some?
  }

  /** A save keeps every stored row with an identity-provider id. */
  lemma SaveKeepsIdpIds(s: Store, nextId: int, id: Option<int>, u: User, accepted: bool)
    requires HaveIdpIds(s) && Save(s, nextId, id, u, accepted).Some?
    ensures HaveIdpIds(Save(s, nextId, id, u, accepted).value.0)
  {
  }

  /** A repository whose usernames are unique, whose rows have identity-provider ids and whose
      ids are all below the next id. */
  ghost predicate Consistent(s: Store, nextId: int) {
    UniqueUsernames(s) && HaveIdpIds(s) && forall k | k in s :: k < nextId
  }

  /** Saving a row without an id puts it under the next id and keeps the repository consistent
      with the id after it. */
  lemma SaveNewKeepsValid(s: Store, nextId: int, u: User, accepted: bool)
    requires Consistent(s, nextId)
    requires Save(s, nextId, None, u, accepted).Some?
    ensures Save(s, nextId, None, u, accepted).value == (s[nextId := u], nextId)
    ensures Consistent(s[nextId := u], nextId + 1)
  {
    SaveKeepsUnique(s, nextId, None, u, accepted);
  }

  /** The id after a save: past every stored id. */
  function NextAfter(nextId: int, key: int): (r: int)
    ensures r >= nextId && r > key
  {
    if key < nextId then nextId else key + 1
  }

  /** The profile image the mapper stores for the text a request carries: `stringToByteArray`
      followed by `map(byte[])`. */
  function StoredImage(image: Option<string>): (r: Option<string>)
    ensures r.None? <==> image.None? || JavaTrim(image.value) == []
    ensures r.Some? ==> Base64.Decode(r.value) == UserMapper.StringToByteArray(image)
  {
    UserMapper.MapBytes(UserMapper.StringToByteArray(image))
  }

  /** An image sent as Base64 is stored as sent. */
  lemma Base64ImageStoredAsSent(b: seq<Base64.byte>)
    requires b != []
    ensures StoredImage(Some(Base64.Encode(b))) == Some(Base64.Encode(b))
  {
    UserMapper.StringToByteArrayOfMapped(b);
  }

  /** An image sent as text that is not Base64 is stored as the Base64 of its bytes. */
  lemma TextImageStoredEncoded(s: string)
    requires JavaTrim(s) != [] && Base64.Decode(s).None?
    ensures StoredImage(Some(s)) == Some(Base64.Encode(Base64.Utf8(s)))
  {
  }

  /** `CreateUserRequest`: the user an administrator or a sign-up asks for. */
  datatype CreateUserRequest = CreateUserRequest(
    email: Option<string>,
    firstName: Option<string>,
    lastName: Option<string>,
    username: Option<string>,
    role: Option<string>,
    age: Option<string>,
    profileImage: Option<string>)

  /** `toUser(CreateUserRequest)`: the requested fields, the image converted, enabled by default,
      and no identity-provider id, since the request has none. */
  function FromRequest(req: CreateUserRequest): (u: User)
    ensures u.username == req.username && u.email == req.email && u.role == req.role
    ensures u.keycloakId.None? && u.isEnabled == Some(true)
    ensures u.profileImage == StoredImage(req.profileImage)
  {
    User(req.email, req.firstName, None, req.lastName, req.username, req.age, req.role, Some(true),
      StoredImage(req.profileImage))
  }

  /** The row `createUser` evidently means to save: the request's row with the id the identity
      provider gave the user, as the registration path sets it. */
  function RowForIdpUser(req: CreateUserRequest, keycloakId: string): (u: User)
    ensures u.keycloakId == Some(keycloakId)
    ensures u.username == req.username && u.email == req.email && u.role == req.role
    ensures u.isEnabled == Some(true) && u.profileImage == StoredImage(req.profileImage)
  {
    FromRequest(req).(keycloakId := Some(keycloakId))
  }

  /** What the identity provider answers when it has created the user under `keycloakId`: the
      request's fields (`toCreateUserResponse(CreateUserRequest)`), the new id, and enabled. */
  function CreatedInIdp(req: CreateUserRequest, keycloakId: string): (r: UserInfo)
    ensures r.userId.None? && r.keycloakId == Some(keycloakId) && r.isEnabled == Some(true)
    ensures r.username == req.username && r.email == req.email && r.profileImage == req.profileImage
  {
    UserInfo(None, Some(keycloakId), req.email, req.firstName, req.lastName, req.username, req.role, req.age,
      Some(true), req.profileImage)
  }

  /** `toUser(CreateUserResponse)`: the reported fields, with the image converted. */
  function FromInfo(info: UserInfo): (u: User)
    ensures u.username == info.username && u.keycloakId == info.keycloakId && u.isEnabled == info.isEnabled
    ensures u.email == info.email && u.role == info.role && u.profileImage == StoredImage(info.profileImage)
  {
    User(info.email, info.firstName, info.keycloakId, info.lastName, info.username, info.age, info.role,
      info.isEnabled, StoredImage(info.profileImage))
  }

  /** `toCreateUserResponse(User)`: the stored fields under the stored id. */
  function ToInfo(id: int, u: User): (r: UserInfo)
    ensures r.userId == Some(id) && r.username == u.username && r.keycloakId == u.keycloakId
    ensures r.isEnabled == u.isEnabled && r.profileImage == u.profileImage && r.role == u.role
  {
    UserInfo(Some(id), u.keycloakId, u.email, u.firstName, u.lastName, u.username, u.role, u.age, u.isEnabled,
      u.profileImage)
  }

  /** Reporting a stored user and mapping the report back gives the user again, once its image
      is in the form the mapper stores. */
  lemma FromInfoOfToInfo(id: int, u: User)
    requires StoredImage(u.profileImage) == u.profileImage
    ensures FromInfo(ToInfo(id, u)) == u
  {
  }
}
