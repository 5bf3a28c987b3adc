/** The administrators' user listing of the front end (frontend/src/pages/UserList.jsx): the rows
    it shows, the enable/disable toggle and the edit dialog's save, and who may see the page.
    The calls to the users API are modelled by their outcomes, passed in. A handler reads the
    `users` array of the render that created it; the model hands that array from the start of a
    handler to its settling as `snapshot`. */
module UserList {
  import opened Wrappers
  import opened Js

  /** `{ ...u, isEnabled: !u.isEnabled }`. */
  function Flipped(u: Obj): (r: Obj)
    ensures Get(r, "isEnabled") == Bool(!Truthy(Get(u, "isEnabled")))
    ensures forall k :: k in u && k != "isEnabled" ==> k in r && r[k] == u[k]
    ensures r.Keys == u.Keys + {"isEnabled"}
  {
    u["isEnabled" := Bool(!Truthy(Get(u, "isEnabled")))]
  }

  /** `rows.map(u => u.userId === id ? { ...u, isEnabled: !u.isEnabled } : u)`. */
  function FlipRows(rows: seq<Obj>, id: Value): (r: seq<Obj>)
    ensures |r| == |rows|
    ensures forall i :: 0 <= i < |rows| && StrictEquals(Get(rows[i], "userId"), id) ==> r[i] == Flipped(rows[i])
    ensures forall i :: 0 <= i < |rows| && !StrictEquals(Get(rows[i], "userId"), id) ==> r[i] == rows[i]
  {
    seq(|rows|, i requires 0 <= i < |rows| => if StrictEquals(Get(rows[i], "userId"), id) then Flipped(rows[i]) else rows[i])
  }

  /** `rows.map(u => u.userId === user.userId ? user : u)`. */
  function ReplaceRows(rows: seq<Obj>, user: Obj): (r: seq<Obj>)
    ensures |r| == |rows|
    ensures forall i :: 0 <= i < |rows| && StrictEquals(Get(rows[i], "userId"), Get(user, "userId")) ==> r[i] == user
    ensures forall i :: 0 <= i < |rows| && !StrictEquals(Get(rows[i], "userId"), Get(user, "userId")) ==> r[i] == rows[i]
  {
    seq(|rows|, i requires 0 <= i < |rows| => if StrictEquals(Get(rows[i], "userId"), Get(user, "userId")) then user else rows[i])
  }

  /** Toggling two different users commutes: the flips on distinct ids touch distinct rows. */
  lemma FlipRowsCommute(rows: seq<Obj>, a: Value, b: Value)
    requires a != b
    ensures FlipRows(FlipRows(rows, a), b) == FlipRows(FlipRows(rows, b), a)
  {
    var ab := FlipRows(FlipRows(rows, a), b);
    var ba := FlipRows(FlipRows(rows, b), a);
    forall i | 0 <= i < |rows|
      ensures ab[i] == ba[i]
    {
      assert Get(Flipped(rows[i]), "userId") == Get(rows[i], "userId");
    }
  }

  /** After a toggle the row shows the flag that was sent to the server, when the row still is
      the user the button was pressed for. */
  lemma FlippedRowShowsSentFlag(rows: seq<Obj>, user: Obj, i: int)
    requires 0 <= i < |rows| && rows[i] == user && !Get(user, "userId").NaN?
    ensures Get(FlipRows(rows, Get(user, "userId"))[i], "isEnabled") == Bool(!Truthy(Get(user, "isEnabled")))
  {
  }

  /** Saving the same user twice changes nothing more. */
  lemma ReplaceRowsIdempotent(rows: seq<Obj>, user: Obj)
    ensures ReplaceRows(ReplaceRows(rows, user), user) == ReplaceRows(rows, user)
  {
    var once := ReplaceRows(rows, user);
    var twice := ReplaceRows(once, user);
    forall i | 0 <= i < |rows|
      ensures twice[i] == once[i]
    {
      if StrictEquals(Get(rows[i], "userId"), Get(user, "userId")) {
        assert once[i] == user;
      }
    }
  }

  /** The saved user appears in the list exactly when some row had its id, so a user whose id
      matches no row is dropped from view rather than added. */
  lemma SavedUserShownIffIdKnown(rows: seq<Obj>, user: Obj)
    requires forall i :: 0 <= i < |rows| ==> rows[i] != user
    ensures user in ReplaceRows(rows, user)
      <==> exists i :: 0 <= i < |rows| && StrictEquals(Get(rows[i], "userId"), Get(user, "userId"))
  {
    var r := ReplaceRows(rows, user);
    if user in r {
      var i :| 0 <= i < |r| && r[i] == user;
      assert StrictEquals(Get(rows[i], "userId"), Get(user, "userId"));
    }
  }

  /** The roles field of the edit dialog: the text split at commas, each entry trimmed. */
  function RolesFromText(text: string): (roles: seq<string>)
    ensures |roles| == |Split(text, ',')|
    ensures forall i :: 0 <= i < |roles| ==> roles[i] == JsTrim(Split(text, ',')[i])
  {
    var parts := Split(text, ',');
    seq(|parts|, i requires 0 <= i < |parts| => JsTrim(parts[i]))
  }

  /** The text the roles field shows: the roles joined by a comma and a space. */
  function RolesText(roles: seq<string>): (r: string)
    ensures roles == [] ==> r == ""
    ensures |roles| == 1 ==> r == roles[0]
    ensures |roles| > 1 ==> |r| > |roles[0]| + 1 && r[..|roles[0]| + 2] == roles[0] + ", "
  {
    Join(roles, ", ")
  }

  /** The pieces of the shown text: the first role, then each further role after a space. */
  lemma {:induction false} SplitRolesText(roles: seq<string>)
    requires |roles| >= 1
    requires forall i :: 0 <= i < |roles| ==> ',' !in roles[i]
    ensures |Split(RolesText(roles), ',')| == |roles|
    ensures Split(RolesText(roles), ',')[0] == roles[0]
    ensures forall i :: 1 <= i < |roles| ==> Split(RolesText(roles), ',')[i] == " " + roles[i]
  {
    if |roles| == 1 {
      SplitNoSep(roles[0], ',');
    } else {
      var rest := roles[1..];
      var j := Join(rest, ", ");
      SplitRolesText(rest);
      assert RolesText(roles) == roles[0] + [','] + (" " + j);
      SplitAfterPiece(roles[0], " " + j, ',');
      assert (" " + j)[1..] == j;
      var p := Split(j, ',');
      assert Split(" " + j, ',') == [" " + p[0]] + p[1..];
    }
  }

  /** Trimming a space in front of a trimmed text gives the text. */
  lemma TrimAfterSpace(r: string)
    requires JsTrim(r) == r
    ensures JsTrim(" " + r) == r
  {
    assert (" " + r)[1..] == r;
  }

  /** Editing nothing in the roles field keeps the roles: splitting the shown text gives back
      every non-empty list of trimmed roles without commas. */
  lemma RolesTextRoundTrip(roles: seq<string>)
    requires |roles| >= 1
    requires forall i :: 0 <= i < |roles| ==> ',' !in roles[i] && JsTrim(roles[i]) == roles[i]
    ensures RolesFromText(RolesText(roles)) == roles
  {
    SplitRolesText(roles);
    var back := RolesFromText(RolesText(roles));
    forall i | 0 <= i < |roles|
      ensures back[i] == roles[i]
    {
      if i > 0 {
        TrimAfterSpace(roles[i]);
      }
    }
  }

  /** The page's access check: it is shown only to a user whose roles include ADMIN or ROOT.
      Roles that are a string are searched as text; roles of another kind throw. */
  function AccessDenied(currentUser: Option<Obj>): (r: Result<bool, string>)
    ensures currentUser.None? ==> r == Ok(true)
    ensures currentUser.Some? && Get(currentUser.value, "roles").Arr? ==>
      r == Ok(!(Str("ADMIN") in Get(currentUser.value, "roles").elems || Str("ROOT") in Get(currentUser.value, "roles").elems))
    ensures currentUser.Some? && (Get(currentUser.value, "roles").Undefined? || Get(currentUser.value, "roles").Null?) ==> r == Ok(true)
    ensures r.Err? <==> currentUser.Some? && IncludesText(Get(currentUser.value, "roles"), "ADMIN").Err?
  {
    match currentUser
    case None => Ok(true)
    case Some(user) =>
      match IncludesText(Get(user, "roles"), "ADMIN")
      case Err(e) => Err(e)
      case Ok(true) => Ok(false)
      case Ok(_) =>
        match IncludesText(Get(user, "roles"), "ROOT")
        case Err(e) => Err(e)
        case Ok(found) => Ok(!found)
  }

  /** The listing's state. */
  class UserListState {
    var users: seq<Obj>
    var loading: bool
    var editUser: Option<Obj>
    var modalShow: bool
    /** `actionLoading`, keyed by user id. */
    var actionLoading: map<Value, bool>

    constructor()
      ensures users == [] && loading && editUser.None? && !modalShow && actionLoading == map[]
    {
      users := [];
      loading := true;
      editUser := None;
      modalShow := false;
      actionLoading := map[];
    }

    /** The effect that loads the list: it runs only once the identity provider is initialised
        and holds a token. */
    method LoadStart(initialized: bool, token: Option<string>) returns (fetch: bool)
      ensures fetch <==> initialized && token.Some? && token.value != ""
    {
      fetch := initialized && token.Some? && token.value != "";
    }

    /** The load settles: the rows received, or none when the answer had no data; `loading` is
        cleared whether or not the request succeeded. */
    method LoadSettle(answer: Option<Option<seq<Obj>>>)
      modifies this
      ensures !loading
      ensures answer.Some? ==> users == answer.value.GetOr([])
      ensures answer.None? ==> users == old(users)
      ensures editUser == old(editUser) && modalShow == old(modalShow) && actionLoading == old(actionLoading)
    {
      if answer.Some? {
        users := answer.value.GetOr([]);
      }
      loading := false;
    }

    /** `handleEdit`: the dialog opens on the user. */
    method HandleEdit(user: Obj)
      modifies this
      ensures editUser == Some(user) && modalShow
      ensures users == old(users) && loading == old(loading) && actionLoading == old(actionLoading)
    {
      editUser := Some(user);
      modalShow := true;
    }

    /** The dialog's cancel button. */
    method HandleClose()
      modifies this
      ensures !modalShow
      ensures users == old(users) && loading == old(loading) && editUser == old(editUser)
      ensures actionLoading == old(actionLoading)
    {
      modalShow := false;
    }

    /** `handleSave` up to the request: the id it sends is the user id, or the user name when
        the id is falsy. The handler remembers the rows of its render. */
    method SaveStart(user: Obj) returns (id: Value, snapshot: seq<Obj>)
      ensures id == (if Truthy(Get(user, "userId")) then Get(user, "userId") else Get(user, "username"))
      ensures snapshot == users
    {
      id := if Truthy(Get(user, "userId")) then Get(user, "userId") else Get(user, "username");
      snapshot := users;
    }

    /** `handleSave` after the request: on success the row with the user's id is replaced in
        the remembered rows and the dialog closes; a failed request rejects and changes
        nothing. */
    method SaveSettle(user: Obj, snapshot: seq<Obj>, succeeded: bool) returns (r: Result<(), string>)
      modifies this
      ensures succeeded ==> r.Ok? && users == ReplaceRows(snapshot, user) && !modalShow
      ensures !succeeded ==> r.Err? && users == old(users) && modalShow == old(modalShow)
      ensures loading == old(loading) && editUser == old(editUser) && actionLoading == old(actionLoading)
    {
      if succeeded {
        users := ReplaceRows(snapshot, user);
        modalShow := false;
        r := Ok(());
      } else {
        r := Err("request failed");
      }
    }

    /** `handleToggleEnable` up to the request: the user's button is marked busy, and the
        request asks for the opposite of the flag the row shows. */
    method ToggleStart(user: Obj) returns (id: Value, enable: bool, snapshot: seq<Obj>)
      modifies this
      ensures id == Get(user, "userId") && enable == !Truthy(Get(user, "isEnabled"))
      ensures snapshot == users
      ensures actionLoading == old(actionLoading)[id := true]
      ensures users == old(users) && loading == old(loading) && editUser == old(editUser)
      ensures modalShow == old(modalShow)
    {
      id := Get(user, "userId");
      enable := !Truthy(Get(user, "isEnabled"));
      snapshot := users;
      actionLoading := actionLoading[id := true];
    }

    /** `handleToggleEnable` after the request, as written: on success the flag of the user's
        row is flipped in the rows the handler remembered; whatever the outcome the button is
        no longer busy, and a failed request rejects. */
    method ToggleSettle(user: Obj, snapshot: seq<Obj>, succeeded: bool) returns (r: Result<(), string>)
      modifies this
      ensures succeeded ==> r.Ok? && users == FlipRows(snapshot, Get(user, "userId"))
      ensures !succeeded ==> r.Err? && users == old(users)
      ensures actionLoading == old(actionLoading)[Get(user, "userId") := false]
      ensures loading == old(loading) && editUser == old(editUser) && modalShow == old(modalShow)
    {
      if succeeded {
        users := FlipRows(snapshot, Get(user, "userId"));
        r := Ok(());
      } else {
        r := Err("request failed");
      }
      actionLoading := actionLoading[Get(user, "userId") := false];
    }

    /** `handleToggleEnable` after the request, as evidently intended: the flip is applied to
        the current rows (a functional state update), so toggles that overlap all take
        effect. */
    method ToggleSettleOnCurrent(user: Obj, succeeded: bool) returns (r: Result<(), string>)
      modifies this
      ensures succeeded ==> r.Ok? && users == FlipRows(old(users), Get(user, "userId"))
      ensures !succeeded ==> r.Err? && users == old(users)
      ensures actionLoading == old(actionLoading)[Get(user, "userId") := false]
      ensures loading == old(loading) && editUser == old(editUser) && modalShow == old(modalShow)
    {
      if succeeded {
        users := FlipRows(users, Get(user, "userId"));
        r := Ok(());
      } else {
        r := Err("request failed");
      }
      actionLoading := actionLoading[Get(user, "userId") := false];
    }
  }

  const Alice: Obj := map["userId" := Num(1), "isEnabled" := Bool(true)]
  const Bob: Obj := map["userId" := Num(2), "isEnabled" := Bool(true)]

  /** Two toggles pressed on the same render, as written: both requests succeed, yet the list
      ends up showing only the second flip; the first user still shows as enabled. */
  method OverlappingTogglesAsWritten() returns (shown: seq<Obj>)
    ensures |shown| == 2
    ensures Get(shown[0], "isEnabled") == Bool(true)
    ensures Get(shown[1], "isEnabled") == Bool(false)
  {
    var page := new UserListState();
    page.LoadSettle(Some(Some([Alice, Bob])));
    var idA, enableA, snapshotA := page.ToggleStart(Alice);
    var idB, enableB, snapshotB := page.ToggleStart(Bob);
    var ra := page.ToggleSettle(Alice, snapshotA, true);
    var rb := page.ToggleSettle(Bob, snapshotB, true);
    shown := page.users;
    assert Get(Alice, "userId") == Num(1) && Get(Bob, "userId") == Num(2);
    assert shown[0] == Alice;
  }

  /** The same two toggles with the intended update: both users end up disabled, as the server
      has them. */
  method OverlappingTogglesOnCurrent() returns (shown: seq<Obj>)
    ensures |shown| == 2
    ensures Get(shown[0], "isEnabled") == Bool(false)
    ensures Get(shown[1], "isEnabled") == Bool(false)
  {
    var page := new UserListState();
    page.LoadSettle(Some(Some([Alice, Bob])));
    var idA, enableA, snapshotA := page.ToggleStart(Alice);
    var idB, enableB, snapshotB := page.ToggleStart(Bob);
    var ra := page.ToggleSettleOnCurrent(Alice, true);
    var rb := page.ToggleSettleOnCurrent(Bob, true);
    shown := page.users;
    assert Get(Alice, "userId") == Num(1) && Get(Bob, "userId") == Num(2);
  }
}
