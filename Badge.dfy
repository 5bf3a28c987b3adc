/** The badge component of the front end (frontend/src/components/common/Badge.jsx): what a badge
    shows for its `dot`, `count`, `showZero` and `overflowCount` props, and the `Badge.Count`
    wrapper that attaches a count badge to other content. Class names and styles are not
    modelled; children are a loosely typed value. */
module Badge {
  import opened Wrappers
  import opened Js
  import Helpers

  const DefaultOverflowCount := 99

  /** `count > overflowCount ? `${overflowCount}+` : count`. */
  function DisplayCount(count: int, overflowCount: int): (r: Value)
    ensures count > overflowCount ==> r == Str(Helpers.IntToString(overflowCount) + "+")
    ensures count <= overflowCount ==> r == Num(count)
  {
    if count > overflowCount then Str(Helpers.IntToString(overflowCount) + "+") else Num(count)
  }

  /** `renderContent()`: a dot shows nothing; a count shows its display form, or nothing for a
      hidden zero; with no count (`null`) the children are shown. */
  function RenderContent(dot: bool, count: Option<int>, showZero: bool, overflowCount: int,
                         children: Value): (r: Value)
    ensures dot ==> r == Null
    ensures !dot && count.None? ==> r == children
    ensures !dot && count == Some(0) && !showZero ==> r == Null
    ensures !dot && count.Some? && (count.value != 0 || showZero) ==>
      r == DisplayCount(count.value, overflowCount)
  {
    if dot then Null
    else match count
      case Some(n) =>
        if n == 0 && !showZero then Null else DisplayCount(n, overflowCount)
      case None => children
  }

  /** What the component renders: nothing, or a span holding some content. */
  datatype Rendered = Nothing | Span(content: Value)

  /** `Badge(props)`: a zero count that is not to be shown hides the whole badge, unless it is a
      dot. */
  function RenderBadge(dot: bool, count: Option<int>, showZero: bool, overflowCount: int,
                       children: Value): (r: Rendered)
    ensures r.Nothing? <==> count == Some(0) && !showZero && !dot
    ensures r.Span? ==> r.content == RenderContent(dot, count, showZero, overflowCount, children)
  {
    if count == Some(0) && !showZero && !dot then Nothing
    else Span(RenderContent(dot, count, showZero, overflowCount, children))
  }

  /** A shown number never exceeds the overflow limit, and a number is only ever shown for a
      count badge, as the count itself. */
  lemma ShownNumberBounded(dot: bool, count: Option<int>, showZero: bool, overflowCount: int,
                           children: Value)
    requires !children.Num?
    requires RenderBadge(dot, count, showZero, overflowCount, children).Span?
    requires RenderBadge(dot, count, showZero, overflowCount, children).content.Num?
    ensures count.Some? && count.value <= overflowCount
    ensures RenderBadge(dot, count, showZero, overflowCount, children).content == Num(count.value)
  {
  }

  /** What `Badge.Count` renders: the children alone, or a wrapper holding the children and a
      count badge. */
  datatype CountRendered = ChildrenOnly(children: Value) | Wrapper(children: Value, badge: Rendered)

  /** `Badge.Count(props)`: a hidden zero gives back the children (`children || null`);
      otherwise the children come with a badge for the count. */
  function RenderCount(count: int, showZero: bool, overflowCount: int, children: Value): (r: CountRendered)
    ensures count == 0 && !showZero ==> r == ChildrenOnly(if Truthy(children) then children else Null)
    ensures !(count == 0 && !showZero) ==> r.Wrapper? && r.children == children
  {
    if count == 0 && !showZero then ChildrenOnly(if Truthy(children) then children else Null)
    else
      Wrapper(children, RenderBadge(false, Some(count), showZero, overflowCount,
                                    DisplayCount(count, overflowCount)))
  }

  /** The badge inside `Badge.Count` is always rendered and shows the display form of the
      count. */
  lemma CountBadgeShowsCount(count: int, showZero: bool, overflowCount: int, children: Value)
    requires !(count == 0 && !showZero)
    ensures RenderCount(count, showZero, overflowCount, children).badge
      == Span(DisplayCount(count, overflowCount))
  {
  }
}
