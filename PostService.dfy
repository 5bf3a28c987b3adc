/** The post service of the back end
    (backend/src/main/java/com/blog/posts/service/impl/PostServiceImpl.java): creating a post,
    updating one under the author check, deleting one, and resolving the tags of a request
    against the stored tags. The post, tag and category repositories are fields of the service;
    the mapper that builds a new post entity from the request is not part of this model, so its
    result is passed in. Java's null is `None`. */
module PostService {
  import opened Wrappers
  import opened TagDto

  /** A stored tag; `id` is its position in the tag repository. */
  datatype Tag = Tag(id: nat, name: Option<string>, description: Option<string>, slug: Option<string>)

  /** The fields of a post request that the service reads. */
  datatype PostDto = PostDto(
    title: Option<string>,
    content: Option<string>,
    excerpt: Option<string>,
    slug: Option<string>,
    featuredImage: Option<string>,
    published: bool,
    authorUsername: Option<string>,
    categories: seq<Option<int>>,
    tags: seq<TagDto>)

  /** A post entity: categories by id, tags as stored. */
  datatype Post = Post(
    id: Option<nat>,
    title: Option<string>,
    content: Option<string>,
    excerpt: Option<string>,
    slug: Option<string>,
    featuredImage: Option<string>,
    published: bool,
    authorUsername: Option<string>,
    authorName: Option<string>,
    categories: set<int>,
    tags: set<Tag>)

  /** The exceptions the service throws; a refused insert is a DataIntegrityViolationException.
      `CategoryNotFound(id)` is the RuntimeException "Category not found with id: " and the id;
      the repository's `findById(null)` throws an InvalidDataAccessApiUsageException. */
  datatype Failure =
    | PostNotFoundException
    | UnsupportedOperationException(message: string)
    | IllegalStateException
    | DataIntegrityViolationException
    | CategoryNotFound(id: int)
    | InvalidDataAccessApiUsageException

  // ---------------------------------------------------------------- tag resolution

  /** The names the request's tags carry. */
  function TagNames(dtos: seq<TagDto>): (names: set<Option<string>>)
    ensures forall i :: 0 <= i < |dtos| ==> dtos[i].name in names
    ensures forall n :: n in names ==> exists i :: 0 <= i < |dtos| && dtos[i].name == n
  {
    set i | 0 <= i < |dtos| :: dtos[i].name
  }

  /** `findByNameIn`: the stored tags whose name is one of the names, in storage order; a
      null name matches nothing. */
  function FindByNameIn(repo: seq<Tag>, names: set<Option<string>>): (r: seq<Tag>)
    ensures forall t :: t in r <==> t in repo && t.name.Some? && t.name in names
  {
    if repo == [] then []
    else
      var rest := FindByNameIn(repo[1..], names);
      assert forall t :: t in repo[1..] ==> t in repo;
      assert forall t :: t in repo ==> t == repo[0] || t in repo[1..];
      if repo[0].name.Some? && repo[0].name in names then [repo[0]] + rest else rest
  }

  predicate DistinctNames(found: seq<Tag>) {
    forall i, j :: 0 <= i < j < |found| ==> found[i].name != found[j].name
  }

  /** `Collectors.toMap(Tag::getName, identity())`: the tags by name, or an
      IllegalStateException when two tags share a name. */
  function ToNameMap(found: seq<Tag>): (r: Result<map<Option<string>, Tag>, Failure>)
    ensures r.Ok? <==> DistinctNames(found)
    ensures r.Err? ==> r.error == IllegalStateException
    ensures r.Ok? ==> forall t :: t in found ==> t.name in r.value && r.value[t.name] == t
    ensures r.Ok? ==> forall n :: n in r.value ==> r.value[n] in found && r.value[n].name == n
  {
    if found == [] then Ok(map[])
    else
      match ToNameMap(found[1..])
      case Err(e) => Err(e)
      case Ok(m) =>
        if found[0].name in m then
          assert !DistinctNames(found) by {
            var j :| 0 <= j < |found[1..]| && found[1..][j] == m[found[0].name];
            assert found[0].name == found[j + 1].name;
          }
          Err(IllegalStateException)
        else
          assert DistinctNames(found) by {
            forall i, j | 0 <= i < j < |found|
              ensures found[i].name != found[j].name
            {
              if i == 0 {
                assert found[j] == found[1..][j - 1];
              } else {
                assert found[i] == found[1..][i - 1] && found[j] == found[1..][j - 1];
              }
            }
          }
          Ok(m[found[0].name := found[0]])
  }

  /** The stored tags the request names, by name. */
  function ExistingTags(repo: seq<Tag>, dtos: seq<TagDto>): Result<map<Option<string>, Tag>, Failure> {
    ToNameMap(FindByNameIn(repo, TagNames(dtos)))
  }

  /** The tag loop: each request tag is the stored tag of its name, or a new tag saved under the
      next free id. Returns the set of tags and the new tags in the order they were saved. The
      lookup map is built before the loop, so it never holds tags the loop saves. */
  function Resolve(dtos: seq<TagDto>, existing: map<Option<string>, Tag>, next: nat): (r: (set<Tag>, seq<Tag>))
    ensures forall j :: 0 <= j < |r.1| ==> r.1[j].id == next + j
    decreases |dtos|
  {
    if dtos == [] then ({}, [])
    else
      var prev := Resolve(dtos[..|dtos| - 1], existing, next);
      var dto := dtos[|dtos| - 1];
      if dto.name in existing then (prev.0 + {existing[dto.name]}, prev.1)
      else
        var t := Tag(next + |prev.1|, dto.name, dto.description, dto.slug);
        (prev.0 + {t}, prev.1 + [t])
  }

  /** One more request tag: its stored tag, or a new tag under the next free id. */
  lemma ResolveStep(dtos: seq<TagDto>, i: nat, existing: map<Option<string>, Tag>, next: nat)
    requires i < |dtos|
    ensures dtos[i].name in existing ==>
      Resolve(dtos[..i + 1], existing, next)
        == (Resolve(dtos[..i], existing, next).0 + {existing[dtos[i].name]}, Resolve(dtos[..i], existing, next).1)
    ensures dtos[i].name !in existing ==>
      var t := Tag(next + |Resolve(dtos[..i], existing, next).1|, dtos[i].name, dtos[i].description, dtos[i].slug);
      Resolve(dtos[..i + 1], existing, next)
        == (Resolve(dtos[..i], existing, next).0 + {t}, Resolve(dtos[..i], existing, next).1 + [t])
  {
    assert dtos[..i + 1][..i] == dtos[..i];
  }

  /** The tags of the request whose name is not stored yet. */
  function Unknown(dtos: seq<TagDto>, existing: map<Option<string>, Tag>): (r: seq<TagDto>)
    ensures |r| <= |dtos|
    decreases |dtos|
  {
    if dtos == [] then []
    else
      var last := dtos[|dtos| - 1];
      Unknown(dtos[..|dtos| - 1], existing) + (if last.name in existing then [] else [last])
  }

  /** The loop inserts one new tag per request tag whose name is not stored, carrying that tag's
      name, description and slug, under consecutive fresh ids; whether the table accepts the
      inserts is `TagOutcome`. */
  lemma {:induction false} ResolveSavesUnknown(dtos: seq<TagDto>, existing: map<Option<string>, Tag>, next: nat)
    ensures var created := Resolve(dtos, existing, next).1;
      var unknown := Unknown(dtos, existing);
      |created| == |unknown|
      && forall k :: 0 <= k < |created| ==>
        created[k] == Tag(next + k, unknown[k].name, unknown[k].description, unknown[k].slug)
    decreases |dtos|
  {
    if dtos != [] {
      ResolveSavesUnknown(dtos[..|dtos| - 1], existing, next);
    }
  }

  /** A request naming only stored tags saves no tag and uses exactly the stored tags of those
      names. */
  lemma {:induction false} ResolveKnownSavesNothing(dtos: seq<TagDto>, existing: map<Option<string>, Tag>, next: nat)
    requires forall i :: 0 <= i < |dtos| ==> dtos[i].name in existing
    ensures Resolve(dtos, existing, next).1 == []
    ensures Resolve(dtos, existing, next).0 == set i | 0 <= i < |dtos| :: existing[dtos[i].name]
    decreases |dtos|
  {
    if dtos != [] {
      var init := dtos[..|dtos| - 1];
      ResolveKnownSavesNothing(init, existing, next);
      var s := set i | 0 <= i < |dtos| :: existing[dtos[i].name];
      var s0 := set i | 0 <= i < |init| :: existing[init[i].name];
      assert s == s0 + {existing[dtos[|dtos| - 1].name]} by {
        forall t | t in s ensures t in s0 + {existing[dtos[|dtos| - 1].name]} {
          var i :| 0 <= i < |dtos| && t == existing[dtos[i].name];
          if i < |init| {
            assert init[i] == dtos[i];
          }
        }
        forall t | t in s0 ensures t in s {
          var i :| 0 <= i < |init| && t == existing[init[i].name];
          assert init[i] == dtos[i];
        }
      }
    }
  }

  /** Every request tag is represented by a tag of its name: the stored one when its name is
      stored. */
  lemma {:induction false} ResolveCovers(dtos: seq<TagDto>, existing: map<Option<string>, Tag>, next: nat)
    requires forall n :: n in existing ==> existing[n].name == n
    ensures forall i :: 0 <= i < |dtos| && dtos[i].name in existing ==> existing[dtos[i].name] in Resolve(dtos, existing, next).0
    ensures forall i :: 0 <= i < |dtos| ==> exists t :: t in Resolve(dtos, existing, next).0 && t.name == dtos[i].name
    decreases |dtos|
  {
    if dtos != [] {
      var init := dtos[..|dtos| - 1];
      ResolveCovers(init, existing, next);
      forall i | 0 <= i < |init| ensures init[i] == dtos[i] { }
    }
  }

  /** Every tag of the result is a stored tag of a requested name or one the loop saved. */
  lemma {:induction false} ResolvedComeFromStoreOrSaves(dtos: seq<TagDto>, existing: map<Option<string>, Tag>, next: nat)
    ensures forall t :: t in Resolve(dtos, existing, next).0 ==>
      t in Resolve(dtos, existing, next).1 || exists n :: n in existing && existing[n] == t
    decreases |dtos|
  {
    if dtos != [] {
      ResolvedComeFromStoreOrSaves(dtos[..|dtos| - 1], existing, next);
    }
  }

  // ---------------------------------------------------------------- the tags table

  /** The columns of the tags table (Tag.java) are not null and unique in name and slug. */
  predicate UniqueTags(repo: seq<Tag>) {
    && (forall i :: 0 <= i < |repo| ==> repo[i].name.Some? && repo[i].slug.Some?)
    && (forall i, j :: 0 <= i < j < |repo| ==> repo[i].name != repo[j].name && repo[i].slug != repo[j].slug)
  }

  /** The insert of a new tag is accepted: name and slug are set and no stored tag holds
      either. */
  predicate Admissible(repo: seq<Tag>, t: Tag) {
    t.name.Some? && t.slug.Some? && forall u :: u in repo ==> u.name != t.name && u.slug != t.slug
  }

  /** Every new tag is accepted after the ones saved before it. */
  predicate SavesAdmissible(repo: seq<Tag>, created: seq<Tag>)
    decreases |created|
  {
    created == []
    || (SavesAdmissible(repo, created[..|created| - 1])
        && Admissible(repo + created[..|created| - 1], created[|created| - 1]))
  }

  /** The outcome of the tag loop inside the transaction: the IllegalStateException of a name
      clash, a refused insert, which rolls the transaction back, or the tags of the post and
      the new tags saved. */
  function TagOutcome(repo: seq<Tag>, dtos: seq<TagDto>): (r: Result<(set<Tag>, seq<Tag>), Failure>)
    ensures ExistingTags(repo, dtos).Err? ==> r == Err(IllegalStateException)
    ensures ExistingTags(repo, dtos).Ok? ==>
      var res := Resolve(dtos, ExistingTags(repo, dtos).value, |repo|);
      (SavesAdmissible(repo, res.1) ==> r == Ok(res)) && (!SavesAdmissible(repo, res.1) ==> r == Err(DataIntegrityViolationException))
  {
    match ExistingTags(repo, dtos)
    case Err(e) => Err(e)
    case Ok(existing) =>
      var res := Resolve(dtos, existing, |repo|);
      if SavesAdmissible(repo, res.1) then Ok(res) else Err(DataIntegrityViolationException)
  }

  /** An accepted insert keeps the table's columns unique. */
  lemma AdmissibleKeepsUnique(repo: seq<Tag>, t: Tag)
    requires UniqueTags(repo) && Admissible(repo, t)
    ensures UniqueTags(repo + [t])
  {
    var r := repo + [t];
    forall i, j | 0 <= i < j < |r|
      ensures r[i].name != r[j].name && r[i].slug != r[j].slug
    {
      if j == |repo| {
        assert r[i] == repo[i] && repo[i] in repo;
      }
    }
  }

  /** Accepted inserts keep the table's columns unique. */
  lemma {:induction false} SavesKeepUnique(repo: seq<Tag>, created: seq<Tag>)
    requires UniqueTags(repo) && SavesAdmissible(repo, created)
    ensures UniqueTags(repo + created)
    decreases |created|
  {
    if created == [] {
      assert repo + created == repo;
    } else {
      var init := created[..|created| - 1];
      var last := created[|created| - 1];
      SavesKeepUnique(repo, init);
      AdmissibleKeepsUnique(repo + init, last);
      assert repo + init + [last] == repo + created;
    }
  }

  /** Accepted inserts under the next free ids keep the table's ids its positions and its
      columns unique. */
  lemma SavedTagsKeepTable(repo: seq<Tag>, created: seq<Tag>)
    requires forall i :: 0 <= i < |repo| ==> repo[i].id == i
    requires forall j :: 0 <= j < |created| ==> created[j].id == |repo| + j
    requires UniqueTags(repo) && SavesAdmissible(repo, created)
    ensures forall i :: 0 <= i < |repo + created| ==> (repo + created)[i].id == i
    ensures UniqueTags(repo + created)
  {
    SavesKeepUnique(repo, created);
  }

  /** One more accepted insert. */
  lemma SavesAdmissibleStep(repo: seq<Tag>, added: seq<Tag>, t: Tag)
    ensures SavesAdmissible(repo, added + [t]) <==> SavesAdmissible(repo, added) && Admissible(repo + added, t)
  {
    assert (added + [t])[..|added|] == added;
  }

  /** If some inserts are refused, so are they in any longer run. */
  lemma {:induction false} SavesAdmissiblePrefix(repo: seq<Tag>, created: seq<Tag>, n: nat)
    requires n <= |created| && SavesAdmissible(repo, created)
    ensures SavesAdmissible(repo, created[..n])
    decreases |created|
  {
    if n < |created| {
      var init := created[..|created| - 1];
      SavesAdmissiblePrefix(repo, init, n);
      assert init[..n] == created[..n];
    } else {
      assert created[..n] == created;
    }
  }

  /** The tags saved for a prefix of the request are the first tags saved for all of it. */
  lemma {:induction false} ResolvePrefix(dtos: seq<TagDto>, k: nat, existing: map<Option<string>, Tag>, next: nat)
    requires k <= |dtos|
    ensures |Resolve(dtos[..k], existing, next).1| <= |Resolve(dtos, existing, next).1|
    ensures Resolve(dtos, existing, next).1[..|Resolve(dtos[..k], existing, next).1|] == Resolve(dtos[..k], existing, next).1
    decreases |dtos|
  {
    if k == |dtos| {
      assert dtos[..k] == dtos;
    } else {
      var init := dtos[..|dtos| - 1];
      ResolvePrefix(init, k, existing, next);
      assert init[..k] == dtos[..k];
    }
  }

  /** One accepted insert in the loop: the tags so far and the saves so far grow by the new
      tag, and every save so far stays accepted. */
  lemma AcceptedStep(dtos: seq<TagDto>, i: nat, existing: map<Option<string>, Tag>, next: nat, repo: seq<Tag>, t: Tag)
    requires i < |dtos| && dtos[i].name !in existing
    requires t == Tag(next + |Resolve(dtos[..i], existing, next).1|, dtos[i].name, dtos[i].description, dtos[i].slug)
    requires SavesAdmissible(repo, Resolve(dtos[..i], existing, next).1)
    requires Admissible(repo + Resolve(dtos[..i], existing, next).1, t)
    ensures Resolve(dtos[..i + 1], existing, next).0 == Resolve(dtos[..i], existing, next).0 + {t}
    ensures repo + Resolve(dtos[..i + 1], existing, next).1 == repo + Resolve(dtos[..i], existing, next).1 + [t]
    ensures SavesAdmissible(repo, Resolve(dtos[..i + 1], existing, next).1)
  {
    ResolveStep(dtos, i, existing, next);
    SavesAdmissibleStep(repo, Resolve(dtos[..i], existing, next).1, t);
  }

  /** A refused insert in the loop means the whole request is refused. */
  lemma RefusalIsFinal(dtos: seq<TagDto>, i: nat, existing: map<Option<string>, Tag>, next: nat, repo: seq<Tag>, t: Tag)
    requires i < |dtos| && dtos[i].name !in existing
    requires t == Tag(next + |Resolve(dtos[..i], existing, next).1|, dtos[i].name, dtos[i].description, dtos[i].slug)
    requires !Admissible(repo + Resolve(dtos[..i], existing, next).1, t)
    ensures !SavesAdmissible(repo, Resolve(dtos, existing, next).1)
  {
    ResolveStep(dtos, i, existing, next);
    var added := Resolve(dtos[..i], existing, next).1;
    SavesAdmissibleStep(repo, added, t);
    ResolvePrefix(dtos, i + 1, existing, next);
    if SavesAdmissible(repo, Resolve(dtos, existing, next).1) {
      SavesAdmissiblePrefix(repo, Resolve(dtos, existing, next).1, |added| + 1);
    }
  }

  /** With unique names in the table, the stored tags a request names never share a name, so
      the IllegalStateException of `Collectors.toMap` cannot occur. */
  lemma {:induction false} StoredNamesNeverClash(repo: seq<Tag>, names: set<Option<string>>)
    requires UniqueTags(repo)
    ensures DistinctNames(FindByNameIn(repo, names))
  {
    if repo != [] {
      var tail := repo[1..];
      assert UniqueTags(tail) by {
        forall i, j | 0 <= i < j < |tail|
          ensures tail[i].name != tail[j].name && tail[i].slug != tail[j].slug
        {
          assert tail[i] == repo[i + 1] && tail[j] == repo[j + 1];
        }
      }
      StoredNamesNeverClash(tail, names);
      var rest := FindByNameIn(tail, names);
      if repo[0].name.Some? && repo[0].name in names {
        var r := [repo[0]] + rest;
        forall i, j | 0 <= i < j < |r|
          ensures r[i].name != r[j].name
        {
          if i == 0 {
            assert r[j] in rest && r[j] in tail;
            var k :| 0 <= k < |tail| && tail[k] == r[j];
            assert tail[k] == repo[k + 1];
          } else {
            assert r[i] == rest[i - 1] && r[j] == rest[j - 1];
          }
        }
      }
    }
  }

  /** The same new name twice in one request is refused: the lookup map is built before the
      loop, so the loop inserts the name a second time, which the unique name column refuses. */
  lemma RepeatedNewNameRefused(repo: seq<Tag>, dto: TagDto)
    requires ExistingTags(repo, [dto, dto]).Ok? && dto.name !in ExistingTags(repo, [dto, dto]).value
    ensures TagOutcome(repo, [dto, dto]) == Err(DataIntegrityViolationException)
  {
    var existing := ExistingTags(repo, [dto, dto]).value;
    var next := |repo|;
    assert [dto, dto][..1] == [dto];
    assert [dto][..0] == [];
    var first := Tag(next, dto.name, dto.description, dto.slug);
    assert Resolve([dto], existing, next).1 == [first];
    var two := Resolve([dto, dto], existing, next).1;
    assert two == [first, Tag(next + 1, dto.name, dto.description, dto.slug)];
    assert two[..1] == [first];
    assert first in repo + [first];
    assert !Admissible(repo + two[..1], two[1]);
  }

  // ---------------------------------------------------------------- updates

  /** The categories of an update: the ids that are not null and that the category repository
      knows. */
  function CategorySet(ids: seq<Option<int>>, known: set<int>): (r: set<int>)
    ensures forall c :: c in r <==> Some(c) in ids && c in known
  {
    set c | c in known && Some(c) in ids
  }

  /** The categories the mapper gives a new post: each request id goes through
      `CategoryResolver.findById`, which throws for a null id and for an id no category has.
      The request's ids are a set, so which bad id is met first is not fixed by the source; the
      model meets them in request order and states only that the reported one is bad. */
  function ResolveCategories(ids: seq<Option<int>>, known: set<int>): (r: Result<set<int>, Failure>)
    ensures r.Ok? <==> forall i :: 0 <= i < |ids| ==> ids[i].Some? && ids[i].value in known
    ensures r.Ok? ==> r.value == CategorySet(ids, known)
    ensures r.Err? ==> (r.error == InvalidDataAccessApiUsageException && None in ids)
                       || (r.error.CategoryNotFound? && Some(r.error.id) in ids && r.error.id !in known)
  {
    if ids == [] then Ok({})
    else if ids[0].None? then Err(InvalidDataAccessApiUsageException)
    else if ids[0].value !in known then Err(CategoryNotFound(ids[0].value))
    else
      match ResolveCategories(ids[1..], known)
      case Err(e) => Err(e)
      case Ok(rest) =>
        assert ids == [ids[0]] + ids[1..];
        Ok({ids[0].value} + rest)
  }

  /** Null ids and unknown ids in the request do not change the categories. */
  lemma CategorySetIgnoresNullAndUnknown(ids: seq<Option<int>>, known: set<int>, unknown: int)
    requires unknown !in known
    ensures CategorySet(ids + [None], known) == CategorySet(ids, known)
    ensures CategorySet(ids + [Some(unknown)], known) == CategorySet(ids, known)
  {
    assert forall c :: Some(c) in ids + [None] <==> Some(c) in ids;
    assert forall c :: c in known ==> (Some(c) in ids + [Some(unknown)] <==> Some(c) in ids);
  }

  /** The post after an update: the request's title, content, excerpt, slug, image, published
      flag and author name; the categories and tags given, replacing the old ones; id and author
      user name as before. */
  function Updated(p: Post, dto: PostDto, categories: set<int>, tags: set<Tag>): (r: Post)
    ensures r.id == p.id && r.authorUsername == p.authorUsername
    ensures r.title == dto.title && r.content == dto.content && r.excerpt == dto.excerpt
    ensures r.slug == dto.slug && r.featuredImage == dto.featuredImage && r.published == dto.published
    ensures r.authorName == dto.authorUsername
    ensures r.categories == categories && r.tags == tags
  {
    p.(title := dto.title, content := dto.content, excerpt := dto.excerpt, slug := dto.slug,
       featuredImage := dto.featuredImage, published := dto.published,
       authorName := dto.authorUsername, categories := categories, tags := tags)
  }

  /** An update leaves nothing of the old post but its id and author user name: two posts
      updated from the same request, categories and tags become the same post up to those. */
  lemma UpdateForgetsOldFields(p: Post, q: Post, dto: PostDto, categories: set<int>, tags: set<Tag>)
    requires p.id == q.id && p.authorUsername == q.authorUsername
    ensures Updated(p, dto, categories, tags) == Updated(q, dto, categories, tags)
  {
  }

  /** The columns the posts table declares not null are set: title, content, author user name
      and slug; `published` is a primitive and always has a value. */
  predicate Complete(p: Post)
  {
    p.title.Some? && p.content.Some? && p.authorUsername.Some? && p.slug.Some?
  }

  /** The key a save stores `p` under: its own id, or the next fresh one. */
  function RowKey(p: Post, next: nat): (k: nat)
    ensures p.id.Some? ==> k == p.id.value
    ensures p.id.None? ==> k == next
  {
    if p.id.Some? then p.id.value else next
  }

  /** The database accepts `p` as the row under `key`: its not-null columns are set and no
      other stored row has its slug. */
  predicate Storable(posts: map<nat, Post>, key: nat, p: Post)
  {
    Complete(p) && forall k :: k in posts && k != key ==> posts[k].slug != p.slug
  }

  /** Stored posts have their not-null columns set and pairwise different slugs. */
  predicate UniqueSlugs(posts: map<nat, Post>)
  {
    (forall k :: k in posts ==> Complete(posts[k]))
    && forall j, k :: j in posts && k in posts && j != k ==> posts[j].slug != posts[k].slug
  }

  /** A row the database accepted is accepted again unchanged under the same key, and the
      table keeps unique slugs. */
  lemma StoredRowStorable(posts: map<nat, Post>, key: nat, p: Post)
    requires UniqueSlugs(posts) && Storable(posts, key, p)
    ensures UniqueSlugs(posts[key := p])
    ensures Storable(posts[key := p], key, p)
  {
  }

  /** A slug already stored under another key refuses the row, whatever else it holds. */
  lemma TakenSlugRefused(posts: map<nat, Post>, key: nat, p: Post, other: nat)
    requires other in posts && other != key && posts[other].slug == p.slug
    ensures !Storable(posts, key, p)
  {
  }

  class PostServiceImpl {
    var posts: map<nat, Post>
    var nextPostId: nat
    var tagRepo: seq<Tag>
    var categoryIds: set<int>

    /** Stored posts carry their key, below the next fresh id; stored tags carry their
        position and have set, unique names and slugs. */
    predicate Valid()
      reads this
    {
      (forall i :: 0 <= i < |tagRepo| ==> tagRepo[i].id == i)
      && UniqueTags(tagRepo)
      && (forall id :: id in posts ==> posts[id].id == Some(id) && id < nextPostId)
      && UniqueSlugs(posts)
    }

    constructor(categoryIds: set<int>)
      ensures Valid()
      ensures posts == map[] && nextPostId == 0 && tagRepo == [] && this.categoryIds == categoryIds
    {
      posts := map[];
      nextPostId := 0;
      tagRepo := [];
      this.categoryIds := categoryIds;
    }

    /** `getPostById`: the stored post of that id, or PostNotFoundException. */
    function GetPostById(id: int): (r: Result<Post, Failure>)
      requires Valid()
      reads this
      ensures r.Err? <==> id < 0 || id !in posts
      ensures r.Err? ==> r.error == PostNotFoundException
      ensures r.Ok? ==> r.value in posts.Values && r.value.id == Some(id)
    {
      if id < 0 || id !in posts then Err(PostNotFoundException) else Ok(posts[id])
    }

    /** `getAllPosts`: every stored post, each the one stored under its own id. */
    function GetAllPosts(): (r: set<Post>)
      requires Valid()
      reads this
      ensures forall id :: id in posts ==> posts[id] in r
      ensures forall p :: p in r ==> p.id.Some? && p.id.value in posts && posts[p.id.value] == p
    {
      posts.Values
    }

    /** The tag loop of both `createOrUpdatePost` overloads. A clash of stored names throws
        before any tag is saved; a refused insert throws and the transaction leaves the table
        as it was. */
    method ResolveTags(dtos: seq<TagDto>) returns (r: Result<set<Tag>, Failure>)
      requires Valid()
      modifies this
      ensures Valid()
      ensures TagOutcome(old(tagRepo), dtos).Err? ==>
        r == Err(TagOutcome(old(tagRepo), dtos).error) && tagRepo == old(tagRepo)
      ensures TagOutcome(old(tagRepo), dtos).Ok? ==>
        r == Ok(TagOutcome(old(tagRepo), dtos).value.0) && tagRepo == old(tagRepo) + TagOutcome(old(tagRepo), dtos).value.1
      ensures posts == old(posts) && nextPostId == old(nextPostId) && categoryIds == old(categoryIds)
    {
      var found := ExistingTags(tagRepo, dtos);
      if found.Err? {
        return Err(IllegalStateException);
      }
      var existing := found.value;
      var start := |tagRepo|;
      var before := tagRepo;
      var tags: set<Tag> := {};
      var i := 0;
      while i < |dtos|
        invariant 0 <= i <= |dtos|
        invariant tags == Resolve(dtos[..i], existing, start).0
        invariant tagRepo == before + Resolve(dtos[..i], existing, start).1
        invariant SavesAdmissible(before, Resolve(dtos[..i], existing, start).1)
        invariant posts == old(posts) && nextPostId == old(nextPostId) && categoryIds == old(categoryIds)
      {
        var dto := dtos[i];
        if dto.name in existing {
          ResolveStep(dtos, i, existing, start);
          tags := tags + {existing[dto.name]};
        } else {
          var t := Tag(|tagRepo|, dto.name, dto.description, dto.slug);
          if !Admissible(tagRepo, t) {
            RefusalIsFinal(dtos, i, existing, start, before, t);
            assert TagOutcome(before, dtos) == Err(DataIntegrityViolationException);
            tagRepo := before;
            return Err(DataIntegrityViolationException);
          }
          AcceptedStep(dtos, i, existing, start, before, t);
          tagRepo := tagRepo + [t];
          tags := tags + {t};
        }
        i := i + 1;
      }
      assert dtos[..|dtos|] == dtos;
      SavedTagsKeepTable(before, Resolve(dtos, existing, start).1);
      assert TagOutcome(before, dtos) == Ok(Resolve(dtos, existing, start));
      r := Ok(tags);
    }

    /** `postRepository.save`: the post is stored under its id, or under a fresh id when it has
        none; a row with a null column or a slug another row holds is refused. */
    method Save(p: Post) returns (r: Result<Post, Failure>)
      requires Valid()
      modifies this
      ensures Valid()
      ensures !Storable(old(posts), RowKey(p, old(nextPostId)), p) ==>
        r == Err(DataIntegrityViolationException) && posts == old(posts) && nextPostId == old(nextPostId)
      ensures Storable(old(posts), RowKey(p, old(nextPostId)), p) ==>
        r.Ok? && r.value.id == Some(RowKey(p, old(nextPostId)))
        && r.value == p.(id := r.value.id)
        && posts == old(posts)[r.value.id.value := r.value]
      ensures r.Ok? && p.id.None? ==> nextPostId == old(nextPostId) + 1
      ensures r.Ok? && p.id.Some? ==>
        nextPostId == if p.id.value < old(nextPostId) then old(nextPostId) else p.id.value + 1
      ensures tagRepo == old(tagRepo) && categoryIds == old(categoryIds)
    {
      var key := RowKey(p, nextPostId);
      if !Storable(posts, key, p) {
        return Err(DataIntegrityViolationException);
      }
      var saved := p.(id := Some(key));
      StoredRowStorable(posts, key, saved);
      if p.id.None? {
        nextPostId := nextPostId + 1;
      } else if nextPostId <= key {
        nextPostId := key + 1;
      }
      posts := posts[key := saved];
      r := Ok(saved);
    }

    /** `createOrUpdatePost(postDTO)`: the tags are resolved, then the mapper resolves the
        categories (a null or unknown id throws), and the post is saved; the source saves it
        twice, and the second save stores the same post again. A failed category lookup or a
        refused save rolls the transaction back, tags included. `mapped` is the rest of what the
        mapper builds from the request. */
    method CreateOrUpdatePost(dto: PostDto, mapped: Post) returns (r: Result<Post, Failure>)
      requires Valid()
      modifies this
      ensures Valid()
      ensures categoryIds == old(categoryIds)
      ensures TagOutcome(old(tagRepo), dto.tags).Err? ==>
        r == Err(TagOutcome(old(tagRepo), dto.tags).error) && posts == old(posts) && tagRepo == old(tagRepo)
      ensures TagOutcome(old(tagRepo), dto.tags).Ok? && ResolveCategories(dto.categories, old(categoryIds)).Err? ==>
        r == Err(ResolveCategories(dto.categories, old(categoryIds)).error)
        && posts == old(posts) && tagRepo == old(tagRepo) && nextPostId == old(nextPostId)
      ensures TagOutcome(old(tagRepo), dto.tags).Ok? && ResolveCategories(dto.categories, old(categoryIds)).Ok?
              && !Storable(old(posts), RowKey(mapped, old(nextPostId)), mapped) ==>
        r == Err(DataIntegrityViolationException)
        && posts == old(posts) && tagRepo == old(tagRepo) && nextPostId == old(nextPostId)
      ensures TagOutcome(old(tagRepo), dto.tags).Ok? && ResolveCategories(dto.categories, old(categoryIds)).Ok?
              && Storable(old(posts), RowKey(mapped, old(nextPostId)), mapped) ==>
        var resolved := TagOutcome(old(tagRepo), dto.tags).value;
        var categories := ResolveCategories(dto.categories, old(categoryIds)).value;
        r.Ok? && r.value.id.Some?
        && r.value == mapped.(tags := resolved.0, categories := categories, id := r.value.id)
        && (mapped.id.Some? ==> r.value.id == mapped.id)
        && (mapped.id.None? ==> r.value.id == Some(old(nextPostId)))
        && posts == old(posts)[r.value.id.value := r.value]
        && tagRepo == old(tagRepo) + resolved.1
      ensures r.Ok? ==> GetPostById(r.value.id.value) == r
    {
      var before := tagRepo;
      var tags := ResolveTags(dto.tags);
      if tags.Err? {
        return Err(tags.error);
      }
      var categories := ResolveCategories(dto.categories, categoryIds);
      if categories.Err? {
        tagRepo := before;
        return Err(categories.error);
      }
      var post := mapped.(tags := tags.value, categories := categories.value);
      var first := Save(post);
      if first.Err? {
        tagRepo := before;
        return Err(first.error);
      }
      r := Save(first.value);
    }

    /** `createOrUpdatePost(id, postDTO)`: a missing post throws PostNotFoundException; a
        request whose author differs from the post's stored author name throws before anything
        changes; otherwise the post takes the request's fields, the known categories and the
        resolved tags. The save of the changed post can be refused, which rolls the tags back. */
    method UpdatePost(id: int, dto: PostDto) returns (r: Result<Post, Failure>)
      requires Valid()
      modifies this
      ensures Valid()
      ensures categoryIds == old(categoryIds)
      ensures (id < 0 || id !in old(posts)) ==>
        r == Err(PostNotFoundException) && posts == old(posts) && tagRepo == old(tagRepo)
      ensures id >= 0 && id in old(posts) && old(posts)[id].authorName != dto.authorUsername ==>
        r == Err(UnsupportedOperationException("Author name cannot be changed"))
        && posts == old(posts) && tagRepo == old(tagRepo)
      ensures (id >= 0 && id in old(posts) && old(posts)[id].authorName == dto.authorUsername
               && TagOutcome(old(tagRepo), dto.tags).Err?) ==>
        r == Err(TagOutcome(old(tagRepo), dto.tags).error) && posts == old(posts) && tagRepo == old(tagRepo)
      ensures (id >= 0 && id in old(posts) && old(posts)[id].authorName == dto.authorUsername
               && TagOutcome(old(tagRepo), dto.tags).Ok?) ==>
        var resolved := TagOutcome(old(tagRepo), dto.tags).value;
        var updated := Updated(old(posts)[id], dto, CategorySet(dto.categories, categoryIds), resolved.0);
        !Storable(old(posts), id, updated) ==>
          (r == Err(DataIntegrityViolationException) && posts == old(posts) && tagRepo == old(tagRepo))
      ensures (id >= 0 && id in old(posts) && old(posts)[id].authorName == dto.authorUsername
               && TagOutcome(old(tagRepo), dto.tags).Ok?) ==>
        var resolved := TagOutcome(old(tagRepo), dto.tags).value;
        var updated := Updated(old(posts)[id], dto, CategorySet(dto.categories, categoryIds), resolved.0);
        Storable(old(posts), id, updated) ==>
          (r == Ok(updated) && posts == old(posts)[id := updated] && tagRepo == old(tagRepo) + resolved.1)
      ensures r.Ok? ==> GetPostById(id) == r
    {
      if id < 0 || id !in posts {
        return Err(PostNotFoundException);
      }
      var existing := posts[id];
      if existing.authorName != dto.authorUsername {
        return Err(UnsupportedOperationException("Author name cannot be changed"));
      }
      var categories := CategorySet(dto.categories, categoryIds);
      var before := tagRepo;
      var tags := ResolveTags(dto.tags);
      if tags.Err? {
        return Err(tags.error);
      }
      var updated := Updated(existing, dto, categories, tags.value);
      r := Save(updated);
      if r.Err? {
        tagRepo := before;
      }
    }

    /** `deleteBlog`: the post of that id is gone, nothing else changes; an id no post has,
        negative ids included, deletes nothing. */
    method DeleteBlog(id: int)
      requires Valid()
      modifies this
      ensures Valid()
      ensures id < 0 ==> posts == old(posts)
      ensures id >= 0 ==> posts == old(posts) - {id as nat}
      ensures GetPostById(id) == Err(PostNotFoundException)
      ensures nextPostId == old(nextPostId) && tagRepo == old(tagRepo) && categoryIds == old(categoryIds)
    {
      if id >= 0 {
        posts := posts - {id as nat};
      }
    }
  }
}
