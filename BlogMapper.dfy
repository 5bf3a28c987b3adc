/** The blog module's mapper (blog/src/main/java/blog/mapper/BlogMapper.java): a blog entity to
    its transfer object and back, and a transfer object's fields copied onto an existing entity.
    Java's null is `None` (or a null reference for the entity); `LocalDateTime.now()` is the
    parameter `now`. */
module BlogMapper {
  import opened Wrappers

  /** A `LocalDateTime`, as an instant on a single time line. */
  type Time = int

  /** `BlogDTO`. */
  datatype BlogDto = BlogDto(
    id: Option<int>,
    title: Option<string>,
    content: Option<string>,
    createdAt: Option<Time>,
    updatedAt: Option<Time>)

  /** The values of a `Blog` entity's fields at one moment. */
  datatype BlogFields = BlogFields(
    id: Option<int>,
    title: Option<string>,
    content: Option<string>,
    createdAt: Option<Time>,
    updatedAt: Option<Time>)

  /** The `Blog` entity, whose setters change it in place. */
  class Blog {
    var id: Option<int>
    var title: Option<string>
    var content: Option<string>
    var createdAt: Option<Time>
    var updatedAt: Option<Time>

    constructor (fields: BlogFields)
      ensures Fields() == fields
    {
      id := fields.id;
      title := fields.title;
      content := fields.content;
      createdAt := fields.createdAt;
      updatedAt := fields.updatedAt;
    }

    function Fields(): BlogFields
      reads this
    {
      BlogFields(id, title, content, createdAt, updatedAt)
    }
  }

  /** The transfer object of an entity's fields: every field copied. */
  function DtoOf(b: BlogFields): (d: BlogDto)
    ensures d.id == b.id && d.title == b.title && d.content == b.content
    ensures d.createdAt == b.createdAt && d.updatedAt == b.updatedAt
  {
    BlogDto(b.id, b.title, b.content, b.createdAt, b.updatedAt)
  }

  /** `toDto`: null for a null entity, otherwise the entity's fields. */
  function ToDto(blog: Blog?): (r: Option<BlogDto>)
    reads blog
    ensures r.None? <==> blog == null
    ensures r.Some? ==> r.value.id == blog.id && r.value.title == blog.title && r.value.content == blog.content
    ensures r.Some? ==> r.value.createdAt == blog.createdAt && r.value.updatedAt == blog.updatedAt
  {
    if blog == null then None else Some(DtoOf(blog.Fields()))
  }

  /** The fields of the entity `toEntity` builds at time `now`: the title and the content of the
      transfer object, both timestamps `now`, and no id whatever the transfer object carries. */
  function NewFields(dto: BlogDto, now: Time): (b: BlogFields)
    ensures b.id.None? && b.title == dto.title && b.content == dto.content
    ensures b.createdAt == Some(now) && b.updatedAt == Some(now)
  {
    BlogFields(None, dto.title, dto.content, Some(now), Some(now))
  }

  /** `toEntity`: null for a null transfer object, otherwise a new entity. */
  method ToEntity(dto: Option<BlogDto>, now: Time) returns (blog: Blog?)
    ensures (blog == null) <==> dto.None?
    ensures blog != null ==> fresh(blog) && blog.Fields() == NewFields(dto.value, now)
  {
    if dto.None? {
      return null;
    }
    blog := new Blog(NewFields(dto.value, now));
  }

  /** The entity's fields after `updateEntityFromDto` at time `now`: nothing changes for a null
      transfer object; otherwise a non-null title or content replaces the entity's, a null one
      keeps it, and the update time becomes `now`. */
  function Patched(b: BlogFields, dto: Option<BlogDto>, now: Time): (r: BlogFields)
    ensures dto.None? ==> r == b
    ensures dto.Some? ==> r.id == b.id && r.createdAt == b.createdAt && r.updatedAt == Some(now)
    ensures dto.Some? ==> r.title == (if dto.value.title.Some? then dto.value.title else b.title)
    ensures dto.Some? ==> r.content == (if dto.value.content.Some? then dto.value.content else b.content)
  {
    match dto
    case None => b
    case Some(d) =>
      b.(title := if d.title.Some? then d.title else b.title,
         content := if d.content.Some? then d.content else b.content,
         updatedAt := Some(now))
  }

  /** `updateEntityFromDto`: `thrown` is the NullPointerException of a null entity given a
      non-null transfer object. */
  method UpdateEntityFromDto(dto: Option<BlogDto>, blog: Blog?, now: Time) returns (thrown: bool)
    modifies blog
    ensures thrown <==> dto.Some? && blog == null
    ensures blog != null ==> blog.Fields() == Patched(old(blog.Fields()), dto, now)
  {
    if dto.None? {
      return false;
    }
    if blog == null {
      return true;
    }
    var d := dto.value;
    if d.title.Some? {
      blog.title := d.title;
    }
    if d.content.Some? {
      blog.content := d.content;
    }
    blog.updatedAt := Some(now);
    thrown := false;
  }

  /** A new entity's transfer object gives back the title and the content it was made from,
      with no id and both timestamps at the creation time. */
  lemma DtoOfNewFields(dto: BlogDto, now: Time)
    ensures DtoOf(NewFields(dto, now)) == dto.(id := None, createdAt := Some(now), updatedAt := Some(now))
  {
  }

  /** Copying an entity's own transfer object onto it changes only its update time. */
  lemma PatchWithOwnDto(b: BlogFields, now: Time)
    ensures Patched(b, Some(DtoOf(b)), now) == b.(updatedAt := Some(now))
  {
  }

  /** Applying the same update twice is applying it once, save for the update time. */
  lemma PatchTwice(b: BlogFields, dto: Option<BlogDto>, t1: Time, t2: Time)
    ensures Patched(Patched(b, dto, t1), dto, t2) == Patched(b, dto, t2)
  {
  }

  /** A transfer object with neither title nor content only refreshes the update time. */
  lemma EmptyPatchTouchesOnly(b: BlogFields, dto: BlogDto, now: Time)
    requires dto.title.None? && dto.content.None?
    ensures Patched(b, Some(dto), now) == b.(updatedAt := Some(now))
  {
  }

  /** An update never changes the id or the creation time. */
  lemma PatchKeepsIdentity(b: BlogFields, dto: Option<BlogDto>, now: Time)
    ensures Patched(b, dto, now).id == b.id && Patched(b, dto, now).createdAt == b.createdAt
  {
  }
}
