/** The comment service of the back end
    (backend/src/main/java/com/blog/comments/service/CommentService.java): comments stored by id,
    replies pointing at their parent, and the reply tree the service builds for a post. The
    repository is a map from ids to entities; JPA's cascade of a removal to the replies is part
    of the model, the database and the logging are not. */
module CommentService {
  import opened Wrappers

  /** The stored entity. Its replies are not a field: they are the comments whose parent it is,
      which is what the `mappedBy = "parent"` relation reads back. */
  datatype Comment = Comment(
    content: Option<string>,
    authorId: Option<string>,
    authorName: Option<string>,
    authorEmail: Option<string>,
    approved: bool,
    postId: Option<int>,
    parent: Option<int>)

  /** The transfer object, both as a request and as a node of the reply tree. */
  datatype CommentDto = CommentDto(
    id: Option<int>,
    content: Option<string>,
    authorId: Option<string>,
    authorName: Option<string>,
    authorEmail: Option<string>,
    approved: bool,
    postId: Option<int>,
    parentId: Option<int>,
    replies: set<CommentDto>)

  datatype Failure =
    | ResourceNotFoundException(id: int)
    | IllegalArgumentException(message: string)
    | NullPointerException
    | DataIntegrityViolationException

  type Store = map<int, Comment>

  /** Ids are not negative, and a reply's parent is stored and was saved before it: a parent has
      to be found before a reply is saved, and ids grow. */
  ghost predicate ParentsBefore(s: Store) {
    forall k | k in s :: 0 <= k && (s[k].parent.Some? ==> s[k].parent.value in s && 0 <= s[k].parent.value < k)
  }

  ghost predicate Bounded(s: Store, bound: int) {
    forall k | k in s :: k < bound
  }

  /** Every reply is on the post of its parent. */
  ghost predicate SamePost(s: Store) {
    forall k | k in s && s[k].parent.Some? && s[k].parent.value in s :: s[s[k].parent.value].postId == s[k].postId
  }

  /** The columns the table declares not null. */
  predicate Storable(c: Comment) {
    c.content.Some? && c.authorId.Some? && c.postId.Some?
  }

  // ---------------------------------------------------------------- lookups

  /** `getCommentById`: the stored comment, or ResourceNotFoundException. */
  function Lookup(s: Store, id: int): (r: Result<Comment, Failure>)
    ensures r.Ok? <==> id in s
    ensures r.Ok? ==> r.value == s[id]
    ensures r.Err? ==> r.error == ResourceNotFoundException(id)
  {
    if id in s then Ok(s[id]) else Err(ResourceNotFoundException(id))
  }

  /** `toDto`: the fields of the entity, its parent's id, and no replies yet. */
  function ToDto(id: int, c: Comment): (r: CommentDto)
    ensures r.id == Some(id) && r.parentId == c.parent && r.postId == c.postId
    ensures r.content == c.content && r.authorId == c.authorId && r.approved == c.approved
    ensures r.replies == {}
  {
    CommentDto(Some(id), c.content, c.authorId, c.authorName, c.authorEmail, c.approved, c.postId, c.parent, {})
  }

  /** The ids of the direct replies of `id`. */
  function Children(s: Store, id: int): set<int> {
    set k | k in s && s[k].parent == Some(id)
  }

  // ---------------------------------------------------------------- the reply tree

  /** `buildCommentTree` of a stored comment: its transfer object with, as replies, the trees of
      the comments that answer it, one per reply. */
  function BuildTree(s: Store, bound: int, id: int): (r: CommentDto)
    requires ParentsBefore(s) && Bounded(s, bound) && id in s
    ensures r.id == Some(id) && r.parentId == s[id].parent && r.postId == s[id].postId
    ensures r.content == s[id].content && r.authorId == s[id].authorId
    ensures forall t | t in r.replies :: t.id.Some? && t.id.value in Children(s, id) && t.parentId == Some(id)
    ensures forall k | k in Children(s, id) :: exists t | t in r.replies :: t.id == Some(k)
    decreases bound - id
  {
    var replies := set k | k in s && s[k].parent == Some(id) :: BuildTree(s, bound, k);
    assert forall k | k in Children(s, id) :: BuildTree(s, bound, k) in replies;
    ToDto(id, s[id]).(replies := replies)
  }

  /** `buildCommentTree` as written for a possibly null comment: null gives null, a comment
      without replies gets an empty reply set. */
  function BuildCommentTree(s: Store, bound: int, comment: Option<int>): (r: Option<CommentDto>)
    requires ParentsBefore(s) && Bounded(s, bound)
    requires comment.Some? ==> comment.value in s
    ensures comment.None? <==> r.None?
    ensures (comment.Some? && Children(s, comment.value) == {}) ==> r.value.replies == {}
    ensures (comment.Some? && Children(s, comment.value) != {}) ==> r.value.replies != {}
  {
    match comment
    case None => None
    case Some(id) =>
      var t := BuildTree(s, bound, id);
      if Children(s, id) == {} then Some(t)
      else
        var k :| k in Children(s, id);
        assert exists t' | t' in t.replies :: t'.id == Some(k);
        Some(t)
  }

  /** The ids a tree shows, at every depth. */
  function Ids(t: CommentDto): set<int>
    decreases t
  {
    (if t.id.Some? then {t.id.value} else {}) + (set r, k | r in t.replies && k in Ids(r) :: k)
  }

  /** `k` is `id` or one of its replies at some depth. */
  predicate IsDescendant(s: Store, k: int, id: int)
    requires ParentsBefore(s) && k in s
    decreases k
  {
    k == id || (s[k].parent.Some? && IsDescendant(s, s[k].parent.value, id))
  }

  ghost function Descendants(s: Store, id: int): set<int>
    requires ParentsBefore(s)
  {
    set k | k in s && IsDescendant(s, k, id)
  }

  /** A descendant of a reply is a descendant of the comment it answers. */
  lemma {:induction false} DescendantOfChild(s: Store, k: int, child: int, id: int)
    requires ParentsBefore(s) && k in s && child in s && s[child].parent == Some(id)
    requires IsDescendant(s, k, child)
    ensures IsDescendant(s, k, id)
    decreases k
  {
    if k != child {
      DescendantOfChild(s, s[k].parent.value, child, id);
    }
  }

  /** A proper descendant of a comment descends from one of its direct replies. */
  lemma {:induction false} DescendantThroughChild(s: Store, k: int, id: int) returns (child: int)
    requires ParentsBefore(s) && k in s && IsDescendant(s, k, id) && k != id
    ensures child in Children(s, id) && IsDescendant(s, k, child)
    decreases k
  {
    var p := s[k].parent.value;
    if p == id {
      child := k;
    } else {
      child := DescendantThroughChild(s, p, id);
    }
  }

  /** The tree of a comment shows exactly that comment and its replies at every depth. */
  lemma {:induction false} TreeShowsSubtree(s: Store, bound: int, id: int)
    requires ParentsBefore(s) && Bounded(s, bound) && id in s
    ensures Ids(BuildTree(s, bound, id)) == Descendants(s, id)
    decreases bound - id
  {
    var t := BuildTree(s, bound, id);
    forall child | child in Children(s, id)
      ensures Ids(BuildTree(s, bound, child)) == Descendants(s, child)
    {
      TreeShowsSubtree(s, bound, child);
    }
    forall k | k in Ids(t)
      ensures k in Descendants(s, id)
    {
      if k != id {
        var r :| r in t.replies && k in Ids(r);
        var child :| child in s && s[child].parent == Some(id) && r == BuildTree(s, bound, child);
        DescendantOfChild(s, k, child, id);
      }
    }
    forall k | k in Descendants(s, id)
      ensures k in Ids(t)
    {
      if k != id {
        var child := DescendantThroughChild(s, k, id);
        var r := BuildTree(s, bound, child);
        assert r in t.replies;
        assert k in Descendants(s, child);
        assert k in Ids(r);
      }
    }
  }

  /** `getCommentTreeForPost`: the trees of the post's comments that answer no other comment. */
  function TreeForPost(s: Store, bound: int, postId: int): (r: set<CommentDto>)
    requires ParentsBefore(s) && Bounded(s, bound)
    ensures forall t | t in r :: t.parentId.None? && t.postId == Some(postId)
    ensures forall k | k in s && s[k].parent.None? && s[k].postId == Some(postId) ::
      exists t | t in r :: t.id == Some(k)
  {
    var roots := set k | k in s && s[k].parent.None? && s[k].postId == Some(postId) :: BuildTree(s, bound, k);
    assert forall k | k in s && s[k].parent.None? && s[k].postId == Some(postId) :: BuildTree(s, bound, k) in roots;
    roots
  }

  /** The comment a reply chain starts from. */
  ghost function Root(s: Store, k: int): (r: int)
    requires ParentsBefore(s) && k in s
    ensures r in s && s[r].parent.None? && IsDescendant(s, k, r)
    decreases k
  {
    if s[k].parent.None? then k else Root(s, s[k].parent.value)
  }

  /** Where replies stay on the post of their parent, the root of a reply is on its post. */
  lemma {:induction false} RootOnSamePost(s: Store, k: int)
    requires ParentsBefore(s) && SamePost(s) && k in s
    ensures s[Root(s, k)].postId == s[k].postId
    decreases k
  {
    if s[k].parent.Some? {
      RootOnSamePost(s, s[k].parent.value);
    }
  }

  /** Every comment of a post, reply or not, appears in the post's trees. */
  lemma EveryCommentShown(s: Store, bound: int, postId: int, k: int)
    requires ParentsBefore(s) && Bounded(s, bound) && SamePost(s)
    requires k in s && s[k].postId == Some(postId)
    ensures exists t | t in TreeForPost(s, bound, postId) :: k in Ids(t)
  {
    var root := Root(s, k);
    RootOnSamePost(s, k);
    TreeShowsSubtree(s, bound, root);
    assert k in Ids(BuildTree(s, bound, root));
    assert BuildTree(s, bound, root) in TreeForPost(s, bound, postId);
  }

  // ---------------------------------------------------------------- creating

  /** The checks `createComment` makes on the parent before saving: none without a parent id;
      otherwise the parent must exist, its post must not be null, and it must be the request's
      post. The result is the parent to link. */
  function ParentOf(s: Store, dto: CommentDto): (r: Result<Option<int>, Failure>)
    ensures dto.parentId.None? ==> r == Ok(None)
    ensures r.Ok? && r.value.Some? ==>
      (r.value == dto.parentId && r.value.value in s
       && s[r.value.value].postId.Some? && s[r.value.value].postId == dto.postId)
  {
    match dto.parentId
    case None => Ok(None)
    case Some(p) =>
      match Lookup(s, p)
      case Err(e) => Err(e)
      case Ok(parent) =>
        if parent.postId.None? then Err(NullPointerException)
        else if parent.postId != dto.postId then Err(IllegalArgumentException("Parent comment does not belong to the same post"))
        else Ok(Some(p))
  }

  /** `toEntity` followed by `setParent`: the request's fields and the parent found. The id is
      the one the store gives the comment; the request's own id is not copied (see
      `CreateAsWritten` for what copying it does). */
  function FromDto(dto: CommentDto, parent: Option<int>): (c: Comment)
    ensures c.parent == parent && c.postId == dto.postId && c.content == dto.content
  {
    Comment(dto.content, dto.authorId, dto.authorName, dto.authorEmail, dto.approved, dto.postId, parent)
  }

  /** A reply to a comment that does not exist is refused with ResourceNotFoundException. */
  lemma MissingParentRejected(s: Store, dto: CommentDto)
    requires dto.parentId.Some? && dto.parentId.value !in s
    ensures ParentOf(s, dto) == Err(ResourceNotFoundException(dto.parentId.value))
  {
  }

  /** A reply to a comment of another post is refused with IllegalArgumentException. */
  lemma OtherPostRejected(s: Store, dto: CommentDto)
    requires dto.parentId.Some? && dto.parentId.value in s
    requires s[dto.parentId.value].postId.Some? && s[dto.parentId.value].postId != dto.postId
    ensures ParentOf(s, dto).Err? && ParentOf(s, dto).error.IllegalArgumentException?
  {
  }

  /** Saving a comment that passed the checks under a fresh id keeps replies after their parents
      and on their parent's post. */
  lemma CreatedKeepsTree(s: Store, bound: int, dto: CommentDto)
    requires ParentsBefore(s) && Bounded(s, bound) && 0 <= bound
    requires ParentOf(s, dto).Ok?
    ensures ParentsBefore(s[bound := FromDto(dto, ParentOf(s, dto).value)])
    ensures Bounded(s[bound := FromDto(dto, ParentOf(s, dto).value)], bound + 1)
    ensures SamePost(s) ==> SamePost(s[bound := FromDto(dto, ParentOf(s, dto).value)])
  {
  }

  /** The request carries the id of a stored comment and names, as its parent, one of that
      comment's replies at some depth. */
  predicate UnderOwnReply(s: Store, dto: CommentDto)
    requires ParentsBefore(s)
  {
    dto.id.Some? && dto.id.value in s && dto.parentId.Some? && dto.parentId.value in s
    && dto.parentId.value != dto.id.value && IsDescendant(s, dto.parentId.value, dto.id.value)
  }

  /** `createComment` as written: the mapper copies the request's id into the entity, so a
      request carrying the id of a stored comment is merged into that comment. The merged entity
      has every field of the request, parent included, and an empty reply list; the replies are
      removed as orphans, and the removal cascades to their own replies. When the new parent is
      one of those replies, the merged comment would point at a deleted row and the flush is
      refused. Any other request is saved under the next id. */
  function CreateAsWritten(s: Store, bound: int, dto: CommentDto): (r: Result<(Store, int), Failure>)
    requires ParentsBefore(s)
    ensures r.Ok? <==> ParentOf(s, dto).Ok? && Storable(FromDto(dto, ParentOf(s, dto).value)) && !UnderOwnReply(s, dto)
    ensures r.Err? && ParentOf(s, dto).Err? ==> r.error == ParentOf(s, dto).error
    ensures r.Err? && ParentOf(s, dto).Ok? ==> r.error == DataIntegrityViolationException
    ensures r.Ok? && dto.id.Some? && dto.id.value in s ==>
      var id := dto.id.value;
      && r.value.1 == bound
      && (forall k :: k in r.value.0 <==> k == id || (k in s && !IsDescendant(s, k, id)))
      && r.value.0[id] == FromDto(dto, dto.parentId)
      && (forall k | k in r.value.0 && k != id :: r.value.0[k] == s[k])
    ensures r.Ok? && !(dto.id.Some? && dto.id.value in s) ==>
      r.value.1 == bound + 1 && r.value.0 == s[bound := FromDto(dto, dto.parentId)]
  {
    match ParentOf(s, dto)
    case Err(e) => Err(e)
    case Ok(parent) =>
      var c := FromDto(dto, parent);
      if !Storable(c) || UnderOwnReply(s, dto) then Err(DataIntegrityViolationException)
      else if dto.id.Some? && dto.id.value in s then Ok((WithoutSubtree(s, dto.id.value)[dto.id.value := c], bound))
      else Ok((s[bound := c], bound + 1))
  }

  /** Comment 1 on post 7, answered by comment 2. */
  function ThreadOfTwo(): (s: Store)
    ensures ParentsBefore(s) && Bounded(s, 3) && SamePost(s)
    ensures s.Keys == {1, 2} && s[2].parent == Some(1)
  {
    map[1 := Comment(Some("first"), Some("ann"), None, None, false, Some(7), None),
        2 := Comment(Some("reply"), Some("bob"), None, None, false, Some(7), Some(1))]
  }

  /** A create request that carries id 1 passes every check, overwrites comment 1 with the
      request's content and author, and deletes the reply 2 that nobody asked to delete. */
  lemma CreateAsWrittenDropsReplies()
    ensures var dto := CommentDto(Some(1), Some("edit"), Some("carl"), None, None, false, Some(7), None, {});
      && CreateAsWritten(ThreadOfTwo(), 3, dto).Ok?
      && CreateAsWritten(ThreadOfTwo(), 3, dto).value.0.Keys == {1}
      && CreateAsWritten(ThreadOfTwo(), 3, dto).value.0[1].content == Some("edit")
      && CreateAsWritten(ThreadOfTwo(), 3, dto).value.0[1].authorId == Some("carl")
  {
    var s := ThreadOfTwo();
    var dto := CommentDto(Some(1), Some("edit"), Some("carl"), None, None, false, Some(7), None, {});
    assert ParentOf(s, dto) == Ok(None);
    assert IsDescendant(s, 2, 1);
    var r := CreateAsWritten(s, 3, dto).value.0;
    assert 1 in r && 2 !in r;
  }

  /** The same request naming reply 2 as its parent passes the parent checks, and the save is
      refused, as reply 2 goes as an orphan while comment 1 would point at it. */
  lemma CreateAsWrittenUnderOwnReplyRefused()
    ensures var dto := CommentDto(Some(1), Some("edit"), Some("ann"), None, None, false, Some(7), Some(2), {});
      && ParentOf(ThreadOfTwo(), dto) == Ok(Some(2))
      && CreateAsWritten(ThreadOfTwo(), 3, dto) == Err(DataIntegrityViolationException)
  {
    var s := ThreadOfTwo();
    var dto := CommentDto(Some(1), Some("edit"), Some("ann"), None, None, false, Some(7), Some(2), {});
    assert ParentOf(s, dto) == Ok(Some(2));
    assert IsDescendant(s, 2, 1);
    assert UnderOwnReply(s, dto);
  }

  /** A request with id 1 naming comment 1 itself as its parent is saved: comment 1 becomes its
      own parent, so it is no longer a comment without a parent, which is where the tree of a
      post starts, and a reply can no longer be traced to a root. */
  lemma CreateAsWrittenOwnParent()
    ensures var dto := CommentDto(Some(1), Some("edit"), Some("ann"), None, None, false, Some(7), Some(1), {});
      && CreateAsWritten(ThreadOfTwo(), 3, dto).Ok?
      && CreateAsWritten(ThreadOfTwo(), 3, dto).value.0[1].parent == Some(1)
      && !ParentsBefore(CreateAsWritten(ThreadOfTwo(), 3, dto).value.0)
  {
    var s := ThreadOfTwo();
    var dto := CommentDto(Some(1), Some("edit"), Some("ann"), None, None, false, Some(7), Some(1), {});
    assert ParentOf(s, dto) == Ok(Some(1));
    assert !UnderOwnReply(s, dto);
    var r := CreateAsWritten(s, 3, dto).value.0;
    assert 1 in r && r[1].parent == Some(1);
  }

  // ---------------------------------------------------------------- updating and deleting

  /** `updateEntityFromDto`, which ignores null properties: every non-null field of the request
      replaces the stored one, `approved` (a primitive) always does, and the parent and the id
      are kept. */
  function Patched(c: Comment, dto: CommentDto): (r: Comment)
    ensures r.parent == c.parent && r.approved == dto.approved
    ensures r.content == (if dto.content.Some? then dto.content else c.content)
    ensures r.authorId == (if dto.authorId.Some? then dto.authorId else c.authorId)
    ensures r.authorName == (if dto.authorName.Some? then dto.authorName else c.authorName)
    ensures r.authorEmail == (if dto.authorEmail.Some? then dto.authorEmail else c.authorEmail)
    ensures r.postId == (if dto.postId.Some? then dto.postId else c.postId)
    ensures Storable(c) ==> Storable(r)
  {
    Comment(
      if dto.content.Some? then dto.content else c.content,
      if dto.authorId.Some? then dto.authorId else c.authorId,
      if dto.authorName.Some? then dto.authorName else c.authorName,
      if dto.authorEmail.Some? then dto.authorEmail else c.authorEmail,
      dto.approved,
      if dto.postId.Some? then dto.postId else c.postId,
      c.parent)
  }

  /** A request without a post id leaves each comment on its post. */
  lemma PatchWithoutPostKeepsPost(c: Comment, dto: CommentDto)
    requires dto.postId.None?
    ensures Patched(c, dto).postId == c.postId
  {
  }

  /** What remains after a comment is removed: the removal cascades to its replies, and their
      replies, so the whole subtree goes. */
  function WithoutSubtree(s: Store, id: int): (r: Store)
    requires ParentsBefore(s)
    ensures forall k :: k in r <==> k in s && !IsDescendant(s, k, id)
    ensures forall k | k in r :: r[k] == s[k]
  {
    map k | k in s && !IsDescendant(s, k, id) :: s[k]
  }

  /** Removing a subtree leaves no reply without its parent, and leaves every reply on its
      parent's post. */
  lemma WithoutSubtreeKeepsTree(s: Store, bound: int, id: int)
    requires ParentsBefore(s) && Bounded(s, bound)
    ensures ParentsBefore(WithoutSubtree(s, id)) && Bounded(WithoutSubtree(s, id), bound)
    ensures SamePost(s) ==> SamePost(WithoutSubtree(s, id))
  {
  }

  /** Deleting a comment removes exactly what its tree shows. */
  lemma DeleteRemovesShownTree(s: Store, bound: int, id: int)
    requires ParentsBefore(s) && Bounded(s, bound) && id in s
    ensures WithoutSubtree(s, id).Keys == s.Keys - Ids(BuildTree(s, bound, id))
  {
    TreeShowsSubtree(s, bound, id);
  }

  // ---------------------------------------------------------------- the service

  class CommentService {
    /** The comment repository. */
    var comments: Store
    /** The id the database gives the next comment saved. */
    var nextId: int

    ghost predicate Valid()
      reads this
    {
      ParentsBefore(comments) && Bounded(comments, nextId) && 0 <= nextId
    }

    constructor ()
      ensures Valid() && comments == map[] && SamePost(comments)
    {
      comments := map[];
      nextId := 1;
    }

    method GetCommentById(id: int) returns (r: Result<Comment, Failure>)
      ensures r == Lookup(comments, id)
    {
      if id in comments {
        r := Ok(comments[id]);
      } else {
        r := Err(ResourceNotFoundException(id));
      }
    }

    method GetCommentTreeForPost(postId: int) returns (r: set<CommentDto>)
      requires Valid()
      ensures r == TreeForPost(comments, nextId, postId)
    {
      r := TreeForPost(comments, nextId, postId);
    }

    /** `createComment`, with the request's id ignored: nothing is saved when the parent check
        fails or a not-null column would be null; otherwise the comment is saved under a fresh id,
        every stored comment is kept as it was, and the new one is returned with its parent's
        id. */
    method CreateComment(dto: CommentDto) returns (r: Result<CommentDto, Failure>)
      requires Valid()
      modifies this
      ensures Valid()
      ensures r.Ok? <==> ParentOf(old(comments), dto).Ok? && Storable(FromDto(dto, ParentOf(old(comments), dto).value))
      ensures r.Err? ==> comments == old(comments) && nextId == old(nextId)
      ensures r.Err? && ParentOf(old(comments), dto).Err? ==> r.error == ParentOf(old(comments), dto).error
      ensures r.Ok? ==>
        (nextId == old(nextId) + 1
         && comments == old(comments)[old(nextId) := FromDto(dto, dto.parentId)]
         && r.value == ToDto(old(nextId), comments[old(nextId)])
         && r.value.parentId == dto.parentId)
      ensures forall k | k in old(comments) :: k in comments && comments[k] == old(comments)[k]
      ensures SamePost(old(comments)) ==> SamePost(comments)
    {
      var parent := ParentOf(comments, dto);
      if parent.Err? {
        return Err(parent.error);
      }
      var c := FromDto(dto, parent.value);
      if !Storable(c) {
        return Err(DataIntegrityViolationException);
      }
      CreatedKeepsTree(comments, nextId, dto);
      var id := nextId;
      comments := comments[id := c];
      nextId := nextId + 1;
      r := Ok(ToDto(id, c));
    }

    /** `updateComment`: a missing id fails and changes nothing; otherwise the stored comment is
        patched in place. */
    method UpdateComment(id: int, dto: CommentDto) returns (r: Result<CommentDto, Failure>)
      requires Valid()
      modifies this
      ensures Valid() && nextId == old(nextId)
      ensures r.Err? <==> id !in old(comments)
      ensures r.Err? ==> r.error == ResourceNotFoundException(id) && comments == old(comments)
      ensures r.Ok? ==>
        (comments == old(comments)[id := Patched(old(comments)[id], dto)]
         && r.value == ToDto(id, comments[id]))
    {
      var existing := GetCommentById(id);
      if existing.Err? {
        return Err(existing.error);
      }
      var c := Patched(existing.value, dto);
      comments := comments[id := c];
      r := Ok(ToDto(id, c));
    }

    /** `deleteComment`: a missing id fails and deletes nothing; otherwise the comment goes with
        all its replies. */
    method DeleteComment(id: int) returns (r: Result<(), Failure>)
      requires Valid()
      modifies this
      ensures Valid() && nextId == old(nextId)
      ensures r.Err? <==> id !in old(comments)
      ensures r.Err? ==> r.error == ResourceNotFoundException(id) && comments == old(comments)
      ensures r.Ok? ==> comments == WithoutSubtree(old(comments), id)
      ensures SamePost(old(comments)) ==> SamePost(comments)
    {
      var existing := GetCommentById(id);
      if existing.Err? {
        return Err(existing.error);
      }
      WithoutSubtreeKeepsTree(comments, nextId, id);
      comments := WithoutSubtree(comments, id);
      r := Ok(());
    }
  }
}
