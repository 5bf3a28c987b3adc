/** The avatar component of the front end (frontend/src/components/common/Avatar.js): the
    initials made from a name, the choice between image, initials and icon, and the group that
    shows a limited number of avatars followed by a "+N" avatar. The component's one piece of
    state, whether the image failed to load, is a parameter. Class names and styles are not
    modelled. */
module Avatar {
  import opened Wrappers
  import opened Js
  import Helpers

  /** The last index whose character `p` accepts, or -1. */
  function LastIndexWhere(s: string, p: char -> bool): (r: int)
    ensures -1 <= r < |s|
    ensures r >= 0 ==> p(s[r])
    ensures forall j :: r < j < |s| ==> !p(s[j])
  {
    if s == [] then -1
    else if p(s[|s| - 1]) then |s| - 1
    else LastIndexWhere(s[..|s| - 1], p)
  }

  /** `str.charAt(0)`: the first character, or the empty string. */
  function CharAt0(s: string): (r: string)
    ensures |r| <= 1 && (s != [] ==> r == [s[0]])
  {
    if s == [] then [] else [s[0]]
  }

  /** `name.trim().split(/\s+/)`: the runs of spaces are collapsed to one blank, and the text is
      split at the blanks. */
  function Words(name: string): (parts: seq<string>)
    ensures |parts| >= 1
  {
    Split(Helpers.CollapseRuns(JsTrim(name), IsJsSpace, ' ', false), ' ')
  }

  /** The first character of the first word and, when there are several, of the last word,
      upper-cased. */
  function WordInitials(names: seq<string>): (r: string)
    requires |names| >= 1
    ensures |r| <= 2
    ensures forall i :: 0 <= i < |r| ==> !IsAsciiLower(r[i])
  {
    if |names| == 1 then Upper(CharAt0(names[0]))
    else Upper(CharAt0(names[0]) + CharAt0(names[|names| - 1]))
  }

  /** `getInitials()`: none for a missing or empty name; one word gives its first character,
      several give the first characters of the first and the last word; upper-cased. */
  function AvatarInitials(name: Option<string>): (r: Option<string>)
    ensures r.None? <==> name.None? || name == Some("")
    ensures r.Some? ==> |r.value| <= 2
    ensures r.Some? ==> forall i :: 0 <= i < |r.value| ==> !IsAsciiLower(r.value[i])
  {
    match name
    case None => None
    case Some(n) => if n == "" then None else Some(WordInitials(Words(n)))
  }

  /** A name of blanks only has empty initials. */
  lemma InitialsOfBlankName(n: string)
    requires n != "" && JsTrim(n) == ""
    ensures AvatarInitials(Some(n)) == Some("")
  {
    assert Split("", ' ') == [""];
  }

  /** Over any notion of space: a trimmed text without spaces is one word. */
  lemma OneWordInitials(t: string, isSep: char -> bool)
    requires t != [] && isSep(' ')
    requires forall i :: 0 <= i < |t| ==> !isSep(t[i])
    ensures WordInitials(Split(Helpers.CollapseRuns(t, isSep, ' ', false), ' ')) == [AsciiUpper(t[0])]
  {
    Helpers.SplitRunsSingle(t, isSep, ' ');
    assert CharAt0(t) == [t[0]];
  }

  /** The initials of several words whose first and last words start with `a` and `b`. */
  lemma FirstLastInitials(parts: seq<string>, a: char, b: char)
    requires |parts| >= 2 && parts[0] != [] && parts[0][0] == a
    requires parts[|parts| - 1] != [] && parts[|parts| - 1][0] == b
    ensures WordInitials(parts) == [AsciiUpper(a), AsciiUpper(b)]
  {
    assert CharAt0(parts[0]) + CharAt0(parts[|parts| - 1]) == [a, b];
  }

  /** Over any notion of space: a trimmed text with a space has the initials of its first
      character and of the character after its last space. */
  lemma SeveralWordsInitials(t: string, isSep: char -> bool, parts: seq<string>)
    requires t != [] && isSep(' ') && !isSep(t[0]) && !isSep(t[|t| - 1])
    requires LastIndexWhere(t, isSep) >= 0
    requires parts == Split(Helpers.CollapseRuns(t, isSep, ' ', false), ' ')
    ensures WordInitials(parts) == [AsciiUpper(t[0]), AsciiUpper(t[LastIndexWhere(t, isSep) + 1])]
  {
    var k := LastIndexWhere(t, isSep) + 1;
    assert 0 < k < |t|;
    Helpers.SplitRunsFirst(t, isSep, ' ');
    Helpers.SplitRunsLast(t, isSep, ' ', k, parts);
    FirstLastInitials(parts, t[0], t[k]);
  }

  /** A name of one word gives its first character, upper-cased. */
  lemma InitialsOfOneWord(n: string)
    requires JsTrim(n) != ""
    requires forall i :: 0 <= i < |JsTrim(n)| ==> !IsJsSpace(JsTrim(n)[i])
    ensures AvatarInitials(Some(n)) == Some([AsciiUpper(JsTrim(n)[0])])
  {
    assert n != [];
    OneWordInitials(JsTrim(n), IsJsSpace);
  }

  /** A name of several words gives the first characters of the first and of the last word,
      upper-cased; the last word starts right after the last space of the trimmed name. */
  lemma InitialsOfSeveralWords(n: string)
    requires LastIndexWhere(JsTrim(n), IsJsSpace) >= 0
    ensures var t := JsTrim(n);
      AvatarInitials(Some(n))
        == Some([AsciiUpper(t[0]), AsciiUpper(t[LastIndexWhere(t, IsJsSpace) + 1])])
  {
    var t := JsTrim(n);
    TrimProperties(n, IsJsSpace);
    assert n != [];
    SeveralWordsInitials(t, IsJsSpace, Words(n));
  }

  /** What the avatar shows. */
  datatype Content = Image(src: string) | Initials(text: Option<string>) | Icon

  /** `renderContent()`: the image while it has a source that has not failed, then the
      initials of a name, then the person icon. */
  function RenderContent(src: Option<string>, imageError: bool, name: Option<string>): (r: Content)
    ensures src.Some? && src.value != "" && !imageError ==> r == Image(src.value)
    ensures !(src.Some? && src.value != "" && !imageError) && name.Some? && name.value != "" ==>
      r == Initials(AvatarInitials(name)) && r.text.Some?
    ensures !(src.Some? && src.value != "" && !imageError) && !(name.Some? && name.value != "") ==>
      r == Icon
  {
    if src.Some? && src.value != "" && !imageError then Image(src.value)
    else if name.Some? && name.value != "" then Initials(AvatarInitials(name))
    else Icon
  }

  /** `maxCount ? avatars.slice(0, maxCount) : avatars`: a missing or zero limit shows all; a
      negative one counts from the end, as `slice` does. */
  function AvatarsToShow<T>(avatars: seq<T>, maxCount: Option<int>): (r: seq<T>)
    ensures |r| <= |avatars| && r == avatars[..|r|]
    ensures maxCount.None? || maxCount == Some(0) ==> r == avatars
    ensures maxCount.Some? && maxCount.value > 0 ==>
      |r| == if maxCount.value < |avatars| then maxCount.value else |avatars|
    ensures maxCount.Some? && maxCount.value < 0 ==>
      |r| == if |avatars| + maxCount.value > 0 then |avatars| + maxCount.value else 0
  {
    match maxCount
    case None => avatars
    case Some(m) =>
      if m == 0 then avatars
      else
        var end := if m > 0 then (if m < |avatars| then m else |avatars|)
                   else (if |avatars| + m > 0 then |avatars| + m else 0);
        avatars[..end]
  }

  /** The rendered group: the avatars shown and, when some are hidden, the name given to the
      extra avatar. */
  datatype Group<T> = Group(shown: seq<T>, remainingCount: nat, moreName: Option<string>)

  const DefaultMaxCount := 5

  /** `AvatarGroup(props)`. */
  function RenderGroup<T>(avatars: seq<T>, maxCount: Option<int> := Some(DefaultMaxCount)): (g: Group<T>)
    ensures g.shown == AvatarsToShow(avatars, maxCount)
    ensures |g.shown| + g.remainingCount == |avatars|
    ensures g.moreName.Some? <==> g.remainingCount > 0
    ensures g.moreName.Some? ==> g.moreName.value == "+" + Helpers.IntToString(g.remainingCount)
  {
    var shown := AvatarsToShow(avatars, maxCount);
    var remaining := |avatars| - |shown|;
    Group(shown, remaining, if remaining > 0 then Some("+" + Helpers.IntToString(remaining)) else None)
  }

  /** As written, the extra avatar is an ordinary avatar named "+N", so it shows the initials of
      that name: the plus sign alone, never the number. */
  lemma MoreAvatarShowsOnlyPlus(remaining: nat)
    requires remaining > 0
    ensures RenderContent(None, false, Some("+" + Helpers.IntToString(remaining))) == Initials(Some("+"))
  {
    var name := "+" + Helpers.IntToString(remaining);
    var d := Helpers.DigitsOf(remaining);
    assert name == "+" + d;
    assert forall i :: 0 <= i < |name| ==> name[i] == '+' || IsDigit(name[i]);
    TrimOfTrimmed(name, IsJsSpace);
    InitialsOfOneWord(name);
  }

  /** The label the extra avatar evidently should show: the plus sign and the number of hidden
      avatars, which can be read back from it. */
  function MoreAvatarLabel(remaining: nat): (text: string)
    requires remaining > 0
    ensures |text| >= 2 && text[0] == '+'
    ensures forall i :: 1 <= i < |text| ==> IsDigit(text[i])
    ensures Helpers.ValueOf(text[1..]) == remaining
  {
    var d := Helpers.DigitsOf(remaining);
    Helpers.DigitsValue(remaining);
    var text := "+" + d;
    assert text[1..] == d;
    text
  }

  /** The corrected extra avatar: it shows its label as it is, not the initials of the label. */
  function CorrectedMoreContent(remaining: nat): (r: Content)
    requires remaining > 0
    ensures r.Initials? && r.text.Some? && |r.text.value| >= 2 && r.text.value[0] == '+'
    ensures forall i :: 1 <= i < |r.text.value| ==> IsDigit(r.text.value[i])
    ensures Helpers.ValueOf(r.text.value[1..]) == remaining
  {
    Initials(Some(MoreAvatarLabel(remaining)))
  }

  /** The corrected group shows the count: its extra avatar shows the name the group gives it,
      which reads back as the number of hidden avatars, where the avatar as written shows "+". */
  lemma CorrectedGroupShowsCount<T>(avatars: seq<T>, maxCount: Option<int>)
    requires RenderGroup(avatars, maxCount).remainingCount > 0
    ensures var g := RenderGroup(avatars, maxCount);
      CorrectedMoreContent(g.remainingCount).text == g.moreName
      && CorrectedMoreContent(g.remainingCount) != RenderContent(None, false, g.moreName)
  {
    var g := RenderGroup(avatars, maxCount);
    assert Helpers.IntToString(g.remainingCount) == Helpers.DigitsOf(g.remainingCount);
    MoreAvatarShowsOnlyPlus(g.remainingCount);
    assert |MoreAvatarLabel(g.remainingCount)| >= 2;
  }
}
