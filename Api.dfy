/** The HTTP client of the front end (frontend/src/services/api.js): the base address, the
    normalisation of the post and category answers, the coercion of the post bodies sent, the
    comment bodies, and the interceptors installed on the shared client. The network is not
    modelled: an answer is the response object the server produced, passed in. A property read on
    `null` or `undefined`, which throws a `TypeError` in JavaScript, is an `Err`. */
module Api {
  import opened Wrappers
  import opened Js

  // ---------------------------------------------------------------- base address

  const DefaultBaseUrl := "http://localhost:9001/api"

  /** The address ends in "/api", letters in any case: what `/\/api$/i` matches. */
  predicate EndsWithApi(s: string) {
    |s| >= 4 && Lower(s[|s| - 4..]) == "/api"
  }

  /** `rawBaseUrl.replace(/\/api$/i, '')`: one trailing "/api" is removed, and nothing else. */
  function StripApiSuffix(raw: string): (r: string)
    ensures EndsWithApi(raw) ==> r + raw[|raw| - 4..] == raw && |r| == |raw| - 4
    ensures !EndsWithApi(raw) ==> r == raw
  {
    if EndsWithApi(raw) then raw[..|raw| - 4] else raw
  }

  /** `API_URL`: the configured address, or the default one when it is unset or empty, without
      its trailing "/api". */
  function ApiUrl(configured: Option<string>): (r: string)
    ensures (configured.None? || configured.value == "") ==> r == "http://localhost:9001"
    ensures configured.Some? && configured.value != "" && !EndsWithApi(configured.value) ==> r == configured.value
    ensures configured.Some? && configured.value != "" && EndsWithApi(configured.value) ==>
      |r| == |configured.value| - 4 && r + configured.value[|r|..] == configured.value
  {
    StripApiSuffix(if configured.Some? && configured.value != "" then configured.value else DefaultBaseUrl)
  }

  /** Without configuration the client talks to the server's root. */
  lemma DefaultApiUrl()
    ensures ApiUrl(None) == "http://localhost:9001"
  {
    assert EndsWithApi(DefaultBaseUrl);
  }

  /** Only one "/api" goes: an address ending in "/api/API" keeps its first "/api". */
  lemma StripRemovesOnlyOne(s: string)
    ensures StripApiSuffix(s + "/api/API") == s + "/api"
  {
    var t := s + "/api/API";
    assert t[|t| - 4..] == "/API";
    assert Lower("/API") == "/api";
    assert t[..|t| - 4] == s + "/api";
  }

  /** An address that does not end in "/api" is used as it is, so stripping is idempotent
      on an address that no longer ends in "/api". */
  lemma StripKeepsOtherAddresses(s: string)
    requires !EndsWithApi(s)
    ensures StripApiSuffix(StripApiSuffix(s)) == StripApiSuffix(s) == s
  {
  }

  // ---------------------------------------------------------------- values

  /** Property read `v.k`: a `TypeError` on `null` and `undefined`, the property of an object,
      and `undefined` on the other values (their own properties, such as `length`, are not
      read by this code). */
  function Field(v: Value, k: string): (r: Result<Value, string>)
    ensures r.Err? <==> v.Undefined? || v.Null?
    ensures v.Rec? ==> r == Ok(Get(v.fields, k))
  {
    match v
    case Undefined => Err("TypeError")
    case Null => Err("TypeError")
    case Rec(m) => Ok(Get(m, k))
    case _ => Ok(Undefined)
  }

  /** `a || b`. */
  function Or(a: Value, b: Value): (r: Value)
    ensures Truthy(a) ==> r == a
    ensures !Truthy(a) ==> r == b
  {
    if Truthy(a) then a else b
  }

  /** `Array.isArray(v) ? v : []`. */
  function ArrayOrEmpty(v: Value): (r: Value)
    ensures r.Arr?
    ensures v.Arr? ==> r == v
  {
    if v.Arr? then v else Arr([])
  }

  /** The own properties copied by `{...v}`: those of an object, none for `null`,
      `undefined`, numbers and booleans. */
  function OwnProps(v: Value): Obj {
    if v.Rec? then v.fields else map[]
  }

  // ---------------------------------------------------------------- posts

  /** The properties `getAllPosts` copies unchanged from a listed post. */
  const ListedPostFields: seq<string> := ["id", "title", "summary", "content", "imageUrl", "createdAt"]

  /** The properties `getPostById` copies unchanged from a post. */
  const PostDetailFields: seq<string> := ["id", "title", "excerpt", "slug", "content", "imageUrl", "createdAt"]

  /** The properties every normalised post has besides the copied ones. */
  const DefaultedPostFields: set<string> := {"authorUsername", "categories", "tags", "updatedAt", "status"}

  /** The copies of the named properties of an object. */
  function CopyFields(m: map<string, Value>, names: seq<string>): (r: Obj)
    ensures r.Keys == set i | 0 <= i < |names| :: names[i]
    ensures forall k :: k in r ==> r[k] == Get(m, k)
  {
    if names == [] then map[]
    else CopyFields(m, names[..|names| - 1])[names[|names| - 1] := Get(m, names[|names| - 1])]
  }

  /** `post.authorUsername || (post.author ? post.author.username : null)` on an object. */
  function AuthorUsername(m: map<string, Value>): (r: Value)
    ensures Truthy(Get(m, "authorUsername")) ==> r == Get(m, "authorUsername")
    ensures !Truthy(Get(m, "authorUsername")) && !Truthy(Get(m, "author")) ==> r == Null
    ensures !Truthy(Get(m, "authorUsername")) && Get(m, "author").Rec? ==> r == Get(Get(m, "author").fields, "username")
    ensures !Truthy(Get(m, "authorUsername")) && Truthy(Get(m, "author")) && !Get(m, "author").Rec? ==> r == Undefined
  {
    var author := Get(m, "author");
    Or(Get(m, "authorUsername"), if Truthy(author) then Field(author, "username").value else Null)
  }

  /** One post of an answer, normalised: the named properties copied and the others defaulted.
      A `null` or `undefined` post throws. A post that is neither an object nor nullish has only
      `undefined` properties. */
  function NormalizePost(post: Value, copied: seq<string>): (r: Result<Obj, string>)
    ensures r.Err? <==> post.Undefined? || post.Null?
    ensures r.Ok? ==> r.value.Keys == (set i | 0 <= i < |copied| :: copied[i]) + DefaultedPostFields
    ensures r.Ok? ==> Truthy(r.value["status"]) && Truthy(r.value["categories"]) && Truthy(r.value["tags"])
    ensures r.Ok? ==> r.value["status"] == Or(Get(OwnProps(post), "status"), Str("PUBLISHED"))
    ensures r.Ok? ==> r.value["categories"] == Or(Get(OwnProps(post), "categories"), Arr([]))
    ensures r.Ok? ==> r.value["tags"] == Or(Get(OwnProps(post), "tags"), Arr([]))
    ensures r.Ok? ==> r.value["updatedAt"] == Or(Get(OwnProps(post), "updatedAt"), Get(OwnProps(post), "createdAt"))
    ensures r.Ok? ==> r.value["authorUsername"] == AuthorUsername(OwnProps(post))
    ensures r.Ok? ==> forall i :: 0 <= i < |copied| && copied[i] !in DefaultedPostFields ==>
      r.value[copied[i]] == Get(OwnProps(post), copied[i])
  {
    if post.Undefined? || post.Null? then Err("TypeError")
    else
      var m := OwnProps(post);
      var base := CopyFields(m, copied);
      assert forall i :: 0 <= i < |copied| ==> copied[i] in base;
      Ok(base["authorUsername" := AuthorUsername(m)]
             ["categories" := Or(Get(m, "categories"), Arr([]))]
             ["tags" := Or(Get(m, "tags"), Arr([]))]
             ["updatedAt" := Or(Get(m, "updatedAt"), Get(m, "createdAt"))]
             ["status" := Or(Get(m, "status"), Str("PUBLISHED"))])
  }

  /** Normalises every element of an array, failing at the first `null` or `undefined`. */
  function NormalizeAll(items: seq<Value>, normalize: Value -> Result<Obj, string>): (r: Result<seq<Value>, string>)
    ensures r.Ok? <==> forall i :: 0 <= i < |items| ==> normalize(items[i]).Ok?
    ensures r.Ok? ==> |r.value| == |items|
    ensures r.Ok? ==> forall i :: 0 <= i < |items| ==> r.value[i] == Rec(normalize(items[i]).value)
  {
    if items == [] then Ok([])
    else
      match normalize(items[0])
      case Err(e) => Err(e)
      case Ok(first) =>
        match NormalizeAll(items[1..], normalize)
        case Err(e) => Err(e)
        case Ok(rest) =>
          assert forall i :: 1 <= i < |items| ==> items[i] == items[1..][i - 1];
          Ok([Rec(first)] + rest)
  }

  /** `{...response, data: …}`: the response with its `data` replaced. */
  function WithData(response: Obj, data: Value): (r: Obj)
    ensures r.Keys == response.Keys + {"data"} && r["data"] == data
    ensures forall k :: k in response && k != "data" ==> r[k] == response[k]
  {
    response["data" := data]
  }

  /** `postsAPI.getAllPosts`: an answer whose data is not an array becomes an empty list;
      otherwise every post is normalised, one for one. */
  function GetAllPosts(response: Obj): (r: Result<Obj, string>)
    ensures !Get(response, "data").Arr? ==> r == Ok(WithData(response, Arr([])))
    ensures r.Ok? ==> r.value.Keys == response.Keys + {"data"} && r.value["data"].Arr?
    ensures r.Ok? && Get(response, "data").Arr? ==>
      |r.value["data"].elems| == |Get(response, "data").elems|
    ensures Get(response, "data").Arr? ==>
      (r.Err? <==> exists i :: 0 <= i < |Get(response, "data").elems| &&
                     (Get(response, "data").elems[i].Null? || Get(response, "data").elems[i].Undefined?))
    ensures r.Ok? && Get(response, "data").Arr? ==> forall i :: 0 <= i < |Get(response, "data").elems| ==>
      r.value["data"].elems[i] == Rec(NormalizePost(Get(response, "data").elems[i], ListedPostFields).value)
    ensures r.Ok? ==> forall k :: k in response && k != "data" ==> r.value[k] == response[k]
  {
    var posts := ArrayOrEmpty(Get(response, "data")).elems;
    match NormalizeAll(posts, p => NormalizePost(p, ListedPostFields))
    case Err(e) => Err(e)
    case Ok(data) => Ok(WithData(response, Arr(data)))
  }

  /** A listed post that is an object always normalises, with every post property present. */
  lemma ListedPostNormalises(m: map<string, Value>)
    ensures NormalizePost(Rec(m), ListedPostFields).Ok?
    ensures NormalizePost(Rec(m), ListedPostFields).value.Keys
      == {"id", "title", "summary", "content", "imageUrl", "createdAt"} + DefaultedPostFields
  {
    var names := ListedPostFields;
    assert names[0] == "id" && names[1] == "title" && names[2] == "summary";
    assert names[3] == "content" && names[4] == "imageUrl" && names[5] == "createdAt";
    assert (set i | 0 <= i < |names| :: names[i]) == {"id", "title", "summary", "content", "imageUrl", "createdAt"};
  }

  /** `postsAPI.getPostById`: the post of the answer normalised; an answer without data throws. */
  function GetPostById(response: Obj): (r: Result<Obj, string>)
    ensures r.Err? <==> Get(response, "data").Undefined? || Get(response, "data").Null?
    ensures r.Ok? ==> r.value == WithData(response, Rec(NormalizePost(Get(response, "data"), PostDetailFields).value))
  {
    match NormalizePost(Get(response, "data"), PostDetailFields)
    case Err(e) => Err(e)
    case Ok(post) => Ok(WithData(response, Rec(post)))
  }

  /** The copied properties of a normalised post keep their values when it is normalised
      again, provided none of them is a defaulted one. */
  lemma NormalizeTwiceCopied(once: Obj, twice: Obj, copied: seq<string>, k: string)
    requires forall i :: 0 <= i < |copied| ==> copied[i] !in DefaultedPostFields
    requires NormalizePost(Rec(once), copied) == Ok(twice)
    requires k in once && k in twice && k !in DefaultedPostFields
    requires twice.Keys == (set i | 0 <= i < |copied| :: copied[i]) + DefaultedPostFields
    ensures twice[k] == once[k]
  {
    assert OwnProps(Rec(once)) == once;
    var i :| 0 <= i < |copied| && copied[i] == k;
  }

  /** Normalising a normalised post changes at most its author: every other property is
      already defaulted, and an author name that was still falsy becomes `null`. */
  lemma NormalizeTwice(post: Value, copied: seq<string>)
    requires "createdAt" in copied && "author" !in copied
    requires forall i :: 0 <= i < |copied| ==> copied[i] !in DefaultedPostFields
    requires NormalizePost(post, copied).Ok?
    ensures NormalizePost(Rec(NormalizePost(post, copied).value), copied).Ok?
    ensures NormalizePost(Rec(NormalizePost(post, copied).value), copied).value.Keys
      == NormalizePost(post, copied).value.Keys
    ensures forall k :: k in NormalizePost(post, copied).value && k != "authorUsername" ==>
      NormalizePost(Rec(NormalizePost(post, copied).value), copied).value[k] == NormalizePost(post, copied).value[k]
    ensures NormalizePost(Rec(NormalizePost(post, copied).value), copied).value["authorUsername"]
      == Or(NormalizePost(post, copied).value["authorUsername"], Null)
  {
    var once := NormalizePost(post, copied).value;
    var twice := NormalizePost(Rec(once), copied).value;
    assert OwnProps(Rec(once)) == once;
    assert "author" !in once;
    forall k | k in once && k != "authorUsername"
      ensures twice[k] == once[k]
    {
      if k in DefaultedPostFields {
        NormalizeTwiceDefaulted(post, copied, once, twice, k);
      } else {
        NormalizeTwiceCopied(once, twice, copied, k);
      }
    }
  }

  /** The defaulted properties of a normalised post, other than its author, are already
      truthy or final, so normalising again keeps them. */
  lemma NormalizeTwiceDefaulted(post: Value, copied: seq<string>, once: Obj, twice: Obj, k: string)
    requires "createdAt" in copied
    requires forall i :: 0 <= i < |copied| ==> copied[i] !in DefaultedPostFields
    requires NormalizePost(post, copied) == Ok(once) && NormalizePost(Rec(once), copied) == Ok(twice)
    requires k in DefaultedPostFields && k != "authorUsername"
    ensures twice[k] == once[k]
  {
    assert OwnProps(Rec(once)) == once;
    if k == "updatedAt" {
      var c :| 0 <= c < |copied| && copied[c] == "createdAt";
      assert once["createdAt"] == Get(OwnProps(post), "createdAt");
    }
  }

  /** Both post normalisations meet the conditions of `NormalizeTwice`. */
  lemma PostFieldListsNormaliseTwice()
    ensures "createdAt" in ListedPostFields && "author" !in ListedPostFields
    ensures forall i :: 0 <= i < |ListedPostFields| ==> ListedPostFields[i] !in DefaultedPostFields
    ensures "createdAt" in PostDetailFields && "author" !in PostDetailFields
    ensures forall i :: 0 <= i < |PostDetailFields| ==> PostDetailFields[i] !in DefaultedPostFields
  {
    assert ListedPostFields[5] == "createdAt";
    assert PostDetailFields[6] == "createdAt";
  }

  // ---------------------------------------------------------------- categories

  /** One category: its id and name, and its description or the empty string. */
  function NormalizeCategory(cat: Value): (r: Result<Obj, string>)
    ensures r.Err? <==> cat.Undefined? || cat.Null?
    ensures r.Ok? ==> r.value.Keys == {"id", "name", "description"}
    ensures r.Ok? ==> r.value["id"] == Get(OwnProps(cat), "id") && r.value["name"] == Get(OwnProps(cat), "name")
    ensures r.Ok? ==> r.value["description"] == Or(Get(OwnProps(cat), "description"), Str(""))
    ensures r.Ok? ==> r.value["description"] != Undefined && r.value["description"] != Null
  {
    if cat.Undefined? || cat.Null? then Err("TypeError")
    else
      var m := OwnProps(cat);
      Ok(map["id" := Get(m, "id"), "name" := Get(m, "name"), "description" := Or(Get(m, "description"), Str(""))])
  }

  /** `postsAPI.getCategories`: always a list; one category per element of an array answer. */
  function GetCategories(response: Obj): (r: Result<Obj, string>)
    ensures !Get(response, "data").Arr? ==> r == Ok(WithData(response, Arr([])))
    ensures r.Ok? ==> r.value.Keys == response.Keys + {"data"} && r.value["data"].Arr?
    ensures r.Ok? && Get(response, "data").Arr? ==>
      |r.value["data"].elems| == |Get(response, "data").elems|
    ensures r.Ok? ==> forall i :: 0 <= i < |r.value["data"].elems| ==>
      r.value["data"].elems[i].Rec? && r.value["data"].elems[i].fields.Keys == {"id", "name", "description"}
    ensures Get(response, "data").Arr? ==>
      (r.Err? <==> exists i :: 0 <= i < |Get(response, "data").elems| &&
                     (Get(response, "data").elems[i].Null? || Get(response, "data").elems[i].Undefined?))
    ensures r.Ok? && Get(response, "data").Arr? ==> forall i :: 0 <= i < |Get(response, "data").elems| ==>
      r.value["data"].elems[i] == Rec(NormalizeCategory(Get(response, "data").elems[i]).value)
    ensures r.Ok? ==> forall k :: k in response && k != "data" ==> r.value[k] == response[k]
  {
    var cats := ArrayOrEmpty(Get(response, "data")).elems;
    match NormalizeAll(cats, NormalizeCategory)
    case Err(e) => Err(e)
    case Ok(data) => Ok(WithData(response, Arr(data)))
  }

  // ---------------------------------------------------------------- bodies sent

  /** `createPost` and `updatePost`: every property of the data, with categories and tags
      replaced by the empty list unless they are arrays. Reading them on missing data throws. */
  function CoercePostData(data: Value): (r: Result<Obj, string>)
    ensures r.Err? <==> data.Undefined? || data.Null?
    ensures r.Ok? ==> r.value.Keys == OwnProps(data).Keys + {"categories", "tags"}
    ensures r.Ok? ==> r.value["categories"].Arr? && r.value["tags"].Arr?
    ensures r.Ok? ==> (Get(OwnProps(data), "categories").Arr? ==> r.value["categories"] == Get(OwnProps(data), "categories"))
    ensures r.Ok? ==> (Get(OwnProps(data), "tags").Arr? ==> r.value["tags"] == Get(OwnProps(data), "tags"))
    ensures r.Ok? ==> forall k :: k in OwnProps(data) && k != "categories" && k != "tags" ==>
      r.value[k] == OwnProps(data)[k]
  {
    if data.Undefined? || data.Null? then Err("TypeError")
    else
      var m := OwnProps(data);
      Ok(Spread(m, map["categories" := ArrayOrEmpty(Get(m, "categories")), "tags" := ArrayOrEmpty(Get(m, "tags"))]))
  }

  /** Coercing twice is coercing once. */
  lemma CoerceIdempotent(data: Value)
    requires CoercePostData(data).Ok?
    ensures CoercePostData(Rec(CoercePostData(data).value)) == CoercePostData(data)
  {
    var once := CoercePostData(data).value;
    assert OwnProps(Rec(once)) == once;
    assert Get(once, "categories") == once["categories"] && once["categories"].Arr?;
    assert Get(once, "tags") == once["tags"] && once["tags"].Arr?;
    var extra := map["categories" := once["categories"], "tags" := once["tags"]];
    assert Spread(once, extra) == once;
  }

  /** `commentsAPI.addComment`: the post id, the content as `comment`, and `edited` or false. */
  function AddCommentBody(postId: Value, data: Value): (r: Result<Obj, string>)
    ensures r.Err? <==> data.Undefined? || data.Null?
    ensures r.Ok? ==> r.value.Keys == {"postId", "comment", "edited"} && r.value["postId"] == postId
    ensures r.Ok? ==> r.value["comment"] == Get(OwnProps(data), "content")
    ensures r.Ok? ==> Truthy(r.value["edited"]) == Truthy(Get(OwnProps(data), "edited"))
    ensures r.Ok? && Truthy(Get(OwnProps(data), "edited")) ==> r.value["edited"] == Get(OwnProps(data), "edited")
    ensures r.Ok? && !Truthy(Get(OwnProps(data), "edited")) ==> r.value["edited"] == Bool(false)
  {
    if data.Undefined? || data.Null? then Err("TypeError")
    else
      var m := OwnProps(data);
      Ok(map["postId" := postId, "comment" := Get(m, "content"), "edited" := Or(Get(m, "edited"), Bool(false))])
  }

  /** `commentsAPI.addReply`: the post and parent ids, the content as `comment`, never edited. */
  function AddReplyBody(postId: Value, parentId: Value, content: Value): (r: Obj)
    ensures r.Keys == {"postId", "parentId", "comment", "edited"}
    ensures r["edited"] == Bool(false) && r["comment"] == content
  {
    map["postId" := postId, "parentId" := parentId, "comment" := content, "edited" := Bool(false)]
  }

  /** A reply and a fresh comment carry the same content the same way. */
  lemma ReplyMatchesComment(postId: Value, parentId: Value, content: Value)
    ensures var c := AddCommentBody(postId, Rec(map["content" := content])).value;
      var r := AddReplyBody(postId, parentId, content);
      c["comment"] == r["comment"] && c["edited"] == r["edited"] && r.Keys == c.Keys + {"parentId"}
  {
  }

  // ---------------------------------------------------------------- interceptors

  /** The request interceptor: a Bearer header from the session's token when it has one. */
  function AttachToken(headers: map<string, string>, token: Option<string>): (r: map<string, string>)
    ensures token.Some? && token.value != "" ==> r == headers["Authorization" := "Bearer " + token.value]
    ensures !(token.Some? && token.value != "") ==> r == headers
  {
    if token.Some? && token.value != "" then headers["Authorization" := "Bearer " + token.value] else headers
  }

  /** Attaching the token again changes nothing. */
  lemma AttachTokenIdempotent(headers: map<string, string>, token: Option<string>)
    ensures AttachToken(AttachToken(headers, token), token) == AttachToken(headers, token)
  {
  }

  const DefaultErrorMessage := "An error occurred"

  /** `error?.response?.data?.message`, stopping at the first `null` or `undefined`. */
  function Path(v: Value, path: seq<string>): Value
    decreases path
  {
    if path == [] then v
    else if v.Undefined? || v.Null? then Undefined
    else Path(Field(v, path[0]).value, path[1..])
  }

  /** The message the response interceptor reports: the server's message, or a fixed text. */
  function ErrorMessage(error: Value): (r: Value)
    ensures Truthy(r)
    ensures Truthy(Path(error, ["response", "data", "message"])) ==> r == Path(error, ["response", "data", "message"])
  {
    Or(Path(error, ["response", "data", "message"]), Str(DefaultErrorMessage))
  }

  /** An error answer without a server message reports the fixed text. */
  lemma ErrorWithoutMessage()
    ensures ErrorMessage(Rec(map["response" := Null])) == Str(DefaultErrorMessage)
  {
  }

  /** A registered response interceptor: the notification callback it was given, if any. */
  datatype Notifier = Notifier(showError: Option<nat>)

  /** One call of a notification callback. */
  datatype Notification = Notification(callback: nat, message: Value)

  /** The notifications the active response interceptors send for one failed request, in
      registration order. */
  function Notifications(handlers: seq<Option<Notifier>>, error: Value): (r: seq<Notification>)
    ensures |r| <= |handlers|
    ensures forall i :: 0 <= i < |r| ==> r[i].message == ErrorMessage(error)
    ensures forall i :: 0 <= i < |r| ==> Some(Notifier(Some(r[i].callback))) in handlers
    ensures forall j :: 0 <= j < |handlers| && handlers[j].Some? && handlers[j].value.showError.Some? ==>
      Notification(handlers[j].value.showError.value, ErrorMessage(error)) in r
  {
    if handlers == [] then []
    else
      var rest := Notifications(handlers[1..], error);
      assert forall j :: 1 <= j < |handlers| ==> handlers[j] == handlers[1..][j - 1];
      match handlers[0]
      case Some(Notifier(Some(cb))) => [Notification(cb, ErrorMessage(error))] + rest
      case _ => rest
  }

  /** One slot sends one notification when it holds a callback, and none otherwise. */
  lemma NotificationsOfSlot(h: Option<Notifier>, error: Value)
    ensures h.Some? && h.value.showError.Some? ==>
      Notifications([h], error) == [Notification(h.value.showError.value, ErrorMessage(error))]
    ensures !(h.Some? && h.value.showError.Some?) ==> Notifications([h], error) == []
  {
    assert [h][1..] == [];
  }

  /** The slots notify in order: the notifications of two runs of slots are those of the first
      run followed by those of the second. With NotificationsOfSlot this gives one notification
      per slot holding a callback, in slot order. */
  lemma {:induction false} NotificationsConcat(a: seq<Option<Notifier>>, b: seq<Option<Notifier>>, error: Value)
    ensures Notifications(a + b, error) == Notifications(a, error) + Notifications(b, error)
  {
    if a == [] {
      assert a + b == b;
    } else {
      assert (a + b)[0] == a[0];
      assert (a + b)[1..] == a[1..] + b;
      NotificationsConcat(a[1..], b, error);
      var rest := Notifications(a[1..], error);
      match a[0]
      case Some(Notifier(Some(cb))) =>
        var n := Notification(cb, ErrorMessage(error));
        assert [n] + (rest + Notifications(b, error)) == ([n] + rest) + Notifications(b, error);
      case _ =>
    }
  }

  /** The number of handlers still registered. */
  function ActiveCount<T>(handlers: seq<Option<T>>): (n: nat)
    ensures n <= |handlers|
  {
    if handlers == [] then 0 else (if handlers[0].Some? then 1 else 0) + ActiveCount(handlers[1..])
  }

  lemma ActiveCountAppend<T>(handlers: seq<Option<T>>, h: T)
    ensures ActiveCount(handlers + [Some(h)]) == ActiveCount(handlers) + 1
  {
    if handlers != [] {
      assert (handlers + [Some(h)])[1..] == handlers[1..] + [Some(h)];
      ActiveCountAppend(handlers[1..], h);
    }
  }

  /** The interceptor lists of the shared client: the sessions whose token the request
      interceptors attach, and the response interceptors. `eject(id)` empties one slot;
      `use` appends one. */
  class ApiClient {
    var requestInterceptors: seq<Option<nat>>
    var responseInterceptors: seq<Option<Notifier>>

    constructor()
      ensures requestInterceptors == [] && responseInterceptors == []
    {
      requestInterceptors := [];
      responseInterceptors := [];
    }

    /** `eject(id)`: the slot of `id` emptied; with no id, as written in the source, nothing. */
    method EjectRequest(id: Option<nat>)
      modifies this
      ensures id.Some? && id.value < |old(requestInterceptors)| ==>
        requestInterceptors == old(requestInterceptors)[id.value := None]
      ensures !(id.Some? && id.value < |old(requestInterceptors)|) ==>
        requestInterceptors == old(requestInterceptors)
      ensures responseInterceptors == old(responseInterceptors)
    {
      if id.Some? && id.value < |requestInterceptors| {
        requestInterceptors := requestInterceptors[id.value := None];
      }
    }

    method EjectResponse(id: Option<nat>)
      modifies this
      ensures id.Some? && id.value < |old(responseInterceptors)| ==>
        responseInterceptors == old(responseInterceptors)[id.value := None]
      ensures !(id.Some? && id.value < |old(responseInterceptors)|) ==>
        responseInterceptors == old(responseInterceptors)
      ensures requestInterceptors == old(requestInterceptors)
    {
      if id.Some? && id.value < |responseInterceptors| {
        responseInterceptors := responseInterceptors[id.value := None];
      }
    }

    /** `setupInterceptors(keycloak, showError)` as written: the `eject()` calls name no
        interceptor, so one more pair is added on every call. */
    method SetupInterceptors(session: nat, showError: Option<nat>)
      modifies this
      ensures requestInterceptors == old(requestInterceptors) + [Some(session)]
      ensures responseInterceptors == old(responseInterceptors) + [Some(Notifier(showError))]
      ensures ActiveCount(responseInterceptors) == ActiveCount(old(responseInterceptors)) + 1
    {
      EjectRequest(None);
      requestInterceptors := requestInterceptors + [Some(session)];
      responseInterceptors := responseInterceptors + [Some(Notifier(showError))];
      ActiveCountAppend(old(responseInterceptors), Notifier(showError));
    }

    /** The cleanup function returned by `setupInterceptors`, as written: both `eject()` calls
        name no interceptor, so nothing is removed. */
    method Cleanup()
      modifies this
      ensures requestInterceptors == old(requestInterceptors)
      ensures responseInterceptors == old(responseInterceptors)
    {
      EjectRequest(None);
      EjectResponse(None);
    }

    /** The corrected setup: it removes the pair it is given and returns the ids of the pair it
        adds, for the cleanup to remove. */
    method SetupInterceptorsOnce(session: nat, showError: Option<nat>, previous: Option<(nat, nat)>)
      returns (ids: (nat, nat))
      modifies this
      ensures ids == (|old(requestInterceptors)|, |old(responseInterceptors)|)
      ensures |requestInterceptors| == |old(requestInterceptors)| + 1
      ensures |responseInterceptors| == |old(responseInterceptors)| + 1
      ensures responseInterceptors[ids.1] == Some(Notifier(showError))
      ensures requestInterceptors[ids.0] == Some(session)
      ensures previous.None? ==> responseInterceptors == old(responseInterceptors) + [Some(Notifier(showError))]
      ensures previous.Some? && previous.value.1 < |old(responseInterceptors)| ==>
        responseInterceptors == old(responseInterceptors)[previous.value.1 := None] + [Some(Notifier(showError))]
    {
      if previous.Some? {
        EjectRequest(Some(previous.value.0));
        EjectResponse(Some(previous.value.1));
      }
      ids := (|requestInterceptors|, |responseInterceptors|);
      requestInterceptors := requestInterceptors + [Some(session)];
      responseInterceptors := responseInterceptors + [Some(Notifier(showError))];
    }

    /** The corrected cleanup: it removes the pair the setup added. */
    method CleanupOnce(ids: (nat, nat))
      modifies this
      ensures ids.0 < |old(requestInterceptors)| ==> requestInterceptors == old(requestInterceptors)[ids.0 := None]
      ensures ids.1 < |old(responseInterceptors)| ==> responseInterceptors == old(responseInterceptors)[ids.1 := None]
    {
      EjectRequest(Some(ids.0));
      EjectResponse(Some(ids.1));
    }

    /** The Authorization header a request leaves with: every active request interceptor attaches
        the token of its session. */
    function RequestHeaders(headers: map<string, string>, tokens: map<nat, Option<string>>): map<string, string>
      reads this
    {
      RunRequest(requestInterceptors, headers, tokens)
    }
  }

  /** The request interceptors applied to the headers, the last registered first as the client
      library does. */
  function RunRequest(handlers: seq<Option<nat>>, headers: map<string, string>, tokens: map<nat, Option<string>>): (r: map<string, string>)
    ensures forall k :: k in r ==> k in headers || k == "Authorization"
    ensures forall k :: k in headers && k != "Authorization" ==> k in r && r[k] == headers[k]
    ensures "Authorization" in r && !("Authorization" in headers && r["Authorization"] == headers["Authorization"]) ==>
      exists id :: Some(id) in handlers && id in tokens && tokens[id].Some? && r["Authorization"] == "Bearer " + tokens[id].value
  {
    if handlers == [] then headers
    else
      var last := handlers[|handlers| - 1];
      var after := if last.Some? then AttachToken(headers, if last.value in tokens then tokens[last.value] else None) else headers;
      RunRequest(handlers[..|handlers| - 1], after, tokens)
  }

  /** When every session holds the same token, extra request interceptors are harmless: the
      header is the one a single interceptor attaches. */
  lemma {:induction false} RunRequestSameToken(handlers: seq<Option<nat>>, headers: map<string, string>,
                                               tokens: map<nat, Option<string>>, token: Option<string>)
    requires forall i :: 0 <= i < |handlers| && handlers[i].Some? ==>
      handlers[i].value in tokens && tokens[handlers[i].value] == token
    requires ActiveCount(handlers) > 0
    ensures RunRequest(handlers, headers, tokens) == AttachToken(headers, token)
  {
    var last := handlers[|handlers| - 1];
    var init := handlers[..|handlers| - 1];
    ActiveCountSplit(init, last);
    assert handlers == init + [last];
    if last.Some? {
      var after := AttachToken(headers, token);
      if ActiveCount(init) > 0 {
        RunRequestSameToken(init, after, tokens, token);
        AttachTokenIdempotent(headers, token);
      } else {
        RunRequestNone(init, after, tokens);
      }
    } else {
      RunRequestSameToken(init, headers, tokens, token);
    }
  }

  lemma ActiveCountSplit<T>(init: seq<Option<T>>, last: Option<T>)
    ensures ActiveCount(init + [last]) == ActiveCount(init) + (if last.Some? then 1 else 0)
  {
    if init != [] {
      assert (init + [last])[1..] == init[1..] + [last];
      ActiveCountSplit(init[1..], last);
    }
  }

  lemma {:induction false} RunRequestNone(handlers: seq<Option<nat>>, headers: map<string, string>, tokens: map<nat, Option<string>>)
    requires ActiveCount(handlers) == 0
    ensures RunRequest(handlers, headers, tokens) == headers
  {
    if handlers != [] {
      var init := handlers[..|handlers| - 1];
      ActiveCountSplit(init, handlers[|handlers| - 1]);
      assert handlers == init + [handlers[|handlers| - 1]];
      RunRequestNone(init, headers, tokens);
    }
  }

  /** As written: a page that set up the interceptors and cleaned up, followed by a second page
      that sets them up, leaves two active response interceptors, so one failed request notifies
      twice: once through the first page's callback, which that page no longer shows, and once
      through the second's. */
  method TwoPagesNotifyTwice(error: Value) returns (sent: seq<Notification>)
    ensures sent == [Notification(0, ErrorMessage(error)), Notification(1, ErrorMessage(error))]
  {
    var client := new ApiClient();
    client.SetupInterceptors(0, Some(0));
    client.Cleanup();
    client.SetupInterceptors(1, Some(1));
    var handlers := client.responseInterceptors;
    assert handlers == [Some(Notifier(Some(0))), Some(Notifier(Some(1)))];
    assert handlers[1..][1..] == [];
    assert Notifications(handlers[1..][1..], error) == [];
    assert Notifications(handlers[1..], error) == [Notification(1, ErrorMessage(error))];
    sent := Notifications(handlers, error);
  }

  /** Corrected: the same page sequence with the interceptors removed by id leaves one active
      response interceptor, so one failed request notifies once. */
  method TwoPagesNotifyOnce(error: Value) returns (sent: seq<Notification>)
    ensures sent == [Notification(1, ErrorMessage(error))]
  {
    var client := new ApiClient();
    var ids := client.SetupInterceptorsOnce(0, Some(0), None);
    client.CleanupOnce(ids);
    var ids2 := client.SetupInterceptorsOnce(1, Some(1), None);
    var handlers := client.responseInterceptors;
    assert handlers == [None, Some(Notifier(Some(1)))];
    assert handlers[1..][1..] == [];
    assert Notifications(handlers[1..][1..], error) == [];
    assert Notifications(handlers[1..], error) == [Notification(1, ErrorMessage(error))];
    sent := Notifications(handlers, error);
  }
}
