/** The string helpers of the front end (frontend/src/utils/helpers.js): truncation, the first
    paragraph of a Markdown text, slugs, e-mail and password checks, initials and thousands
    separators. All are pure functions of their arguments. */
module Helpers {
  import opened Wrappers
  import opened Js

  // ---------------------------------------------------------------------------------------------
  // truncate

  /** `truncate(text, maxLength)`: empty for a missing or empty text, the text itself when it
      fits, otherwise its first `maxLength` characters followed by an ellipsis. A negative
      `maxLength` keeps no character, as `substring` clamps it to 0. */
  function Truncate(text: Option<string>, maxLength: int := 100): (r: string)
    ensures text.None? || text == Some("") <==> r == ""
    ensures text.Some? && |text.value| <= maxLength ==> r == text.value
    ensures text.Some? && text.value != "" && |text.value| > maxLength ==>
      var kept := if maxLength < 0 then 0 else maxLength;
      |r| == kept + 3 && r[..kept] == text.value[..kept] && r[kept..] == "..."
  {
    match text
    case None => ""
    case Some(t) =>
      if t == "" then ""
      else if |t| <= maxLength then t
      else t[..if maxLength < 0 then 0 else maxLength] + "..."
  }

  // ---------------------------------------------------------------------------------------------
  // Runs of separator characters, shared by slugify and extractFirstParagraph

  predicate NoDouble(s: string, c: char) {
    forall i :: 0 <= i < |s| - 1 ==> !(s[i] == c && s[i + 1] == c)
  }

  /** `s.replace(/[sep]+/g, by)`: every maximal run of separators becomes one `mark`. `inRun` says
      that the character before `s` was a separator already replaced. */
  function CollapseRuns(s: string, isSep: char -> bool, mark: char, inRun: bool): (r: string)
    ensures forall i :: 0 <= i < |r| ==> r[i] == mark || !isSep(r[i])
    ensures inRun && r != [] ==> !isSep(r[0])
    ensures isSep(mark) ==> NoDouble(r, mark)
  {
    if s == [] then []
    else if isSep(s[0]) then
      (if inRun then [] else [mark]) + CollapseRuns(s[1..], isSep, mark, true)
    else [s[0]] + CollapseRuns(s[1..], isSep, mark, false)
  }

  /** The characters collapsing leaves in place have the properties all input characters had. */
  lemma {:induction false} CollapseKeeps(s: string, isSep: char -> bool, mark: char, inRun: bool, ok: char -> bool)
    requires forall i :: 0 <= i < |s| ==> ok(s[i])
    ensures forall i :: 0 <= i < |CollapseRuns(s, isSep, mark, inRun)| ==>
      CollapseRuns(s, isSep, mark, inRun)[i] == mark || ok(CollapseRuns(s, isSep, mark, inRun)[i])
  {
    if s != [] {
      CollapseKeeps(s[1..], isSep, mark, isSep(s[0]), ok);
      var rest := CollapseRuns(s[1..], isSep, mark, isSep(s[0]));
      var head := if isSep(s[0]) then (if inRun then [] else [mark]) else [s[0]];
      var r := CollapseRuns(s, isSep, mark, inRun);
      assert r == head + rest;
      assert ok(s[0]);
      forall i | 0 <= i < |r|
        ensures r[i] == mark || ok(r[i])
      {
        if i >= |head| {
          var k := i - |head|;
          assert r[i] == rest[k];
          assert rest[k] == mark || ok(rest[k]);
        } else {
          assert r[i] == head[i];
        }
      }
    }
  }

  /** Collapsing loses nothing that a filter keeping neither separators nor the mark keeps. */
  lemma {:induction false} CollapseKeepsOthers(s: string, isSep: char -> bool, mark: char, inRun: bool,
                                               keep: char -> bool)
    requires !keep(mark)
    requires forall c :: keep(c) ==> !isSep(c)
    ensures Filter(CollapseRuns(s, isSep, mark, inRun), keep) == Filter(s, keep)
  {
    if s != [] {
      CollapseKeepsOthers(s[1..], isSep, mark, isSep(s[0]), keep);
      var rest := CollapseRuns(s[1..], isSep, mark, isSep(s[0]));
      if isSep(s[0]) {
        FilterAppend(if inRun then [] else [mark], rest, keep);
      } else {
        FilterAppend([s[0]], rest, keep);
      }
    }
  }

  /** Whether the scan is inside a run after reading `u`. */
  function EndInRun(u: string, isSep: char -> bool, inRun: bool): bool {
    if u == [] then inRun else isSep(u[|u| - 1])
  }

  /** Collapsing works piece by piece. */
  lemma {:induction false} CollapseAppend(u: string, w: string, isSep: char -> bool, mark: char, inRun: bool)
    ensures CollapseRuns(u + w, isSep, mark, inRun)
      == CollapseRuns(u, isSep, mark, inRun) + CollapseRuns(w, isSep, mark, EndInRun(u, isSep, inRun))
  {
    if u == [] {
      assert u + w == w;
    } else {
      assert (u + w)[1..] == u[1..] + w;
      CollapseAppend(u[1..], w, isSep, mark, isSep(u[0]));
    }
  }

  lemma {:induction false} CollapseNoSep(w: string, isSep: char -> bool, mark: char, inRun: bool)
    requires forall i :: 0 <= i < |w| ==> !isSep(w[i])
    ensures CollapseRuns(w, isSep, mark, inRun) == w
  {
    if w != [] {
      CollapseNoSep(w[1..], isSep, mark, false);
    }
  }

  /** A string that starts with a kept character and ends with a separator collapses to one
      that ends with the mark. */
  lemma {:induction false} CollapseEndsWithMark(u: string, isSep: char -> bool, mark: char)
    requires u != [] && !isSep(u[0]) && isSep(u[|u| - 1])
    ensures var c := CollapseRuns(u, isSep, mark, false); c != [] && c[|c| - 1] == mark
  {
    var v := u[..|u| - 1];
    var x := u[|u| - 1];
    assert u == v + [x];
    CollapseAppend(v, [x], isSep, mark, false);
    if isSep(v[|v| - 1]) {
      CollapseEndsWithMark(v, isSep, mark);
    }
  }

  /** The first piece of `s.split(/\s+/)` (modelled as collapsing the runs, then splitting at
      the mark) starts with the first character of a string that starts with no separator. */
  lemma SplitRunsFirst(t: string, isSep: char -> bool, mark: char)
    requires t != [] && !isSep(t[0]) && isSep(mark)
    ensures var parts := Split(CollapseRuns(t, isSep, mark, false), mark);
      parts[0] != [] && parts[0][0] == t[0]
  {
    var c := CollapseRuns(t, isSep, mark, false);
    assert c[0] == t[0];
    SplitFirst(c, mark);
  }

  /** A string with no separator is a single piece. */
  lemma SplitRunsSingle(t: string, isSep: char -> bool, mark: char)
    requires isSep(mark) && forall i :: 0 <= i < |t| ==> !isSep(t[i])
    ensures Split(CollapseRuns(t, isSep, mark, false), mark) == [t]
  {
    CollapseNoSep(t, isSep, mark, false);
    assert mark !in t;
    SplitNoSep(t, mark);
  }

  /** The last piece is the text after the last separator. */
  lemma SplitRunsLast(t: string, isSep: char -> bool, mark: char, k: nat, parts: seq<string>)
    requires 0 < k < |t| && isSep(mark) && !isSep(t[0]) && isSep(t[k - 1])
    requires forall j :: k <= j < |t| ==> !isSep(t[j])
    requires parts == Split(CollapseRuns(t, isSep, mark, false), mark)
    ensures |parts| >= 2 && parts[|parts| - 1] == t[k..]
  {
    var u, w := t[..k], t[k..];
    assert t == u + w;
    assert forall j :: 0 <= j < |w| ==> !isSep(w[j]);
    var cu := CollapseRuns(u, isSep, mark, false);
    CollapseAppend(u, w, isSep, mark, false);
    CollapseNoSep(w, isSep, mark, true);
    assert CollapseRuns(t, isSep, mark, false) == cu + w;
    CollapseEndsWithMark(u, isSep, mark);
    assert mark !in w;
    SplitLast(cu, w, mark);
  }

  /** A piece of a string keeps the properties every character of the string has, and has no
      doubled `mark` when the string has none. */
  lemma InfixKeeps(c: string, i: nat, j: nat, mark: char, ok: char -> bool)
    requires i <= j <= |c|
    requires forall k :: 0 <= k < |c| ==> ok(c[k])
    requires NoDouble(c, mark)
    ensures forall k :: 0 <= k < j - i ==> ok(c[i..j][k])
    ensures NoDouble(c[i..j], mark)
  {
    assert forall k :: 0 <= k < j - i ==> c[i..j][k] == c[i + k];
  }

  /** Trimming with `isSpace` a string whose characters all pass `ok` and that has no doubled
      `mark` keeps both properties and leaves no removable character at either end. */
  lemma TrimKeepsShape(c: string, isSpace: char -> bool, mark: char, ok: char -> bool)
    requires forall k :: 0 <= k < |c| ==> ok(c[k])
    requires NoDouble(c, mark)
    ensures forall k :: 0 <= k < |Trim(c, isSpace)| ==> ok(Trim(c, isSpace)[k])
    ensures NoDouble(Trim(c, isSpace), mark)
    ensures Trim(c, isSpace) == [] || !isSpace(Trim(c, isSpace)[0])
    ensures Trim(c, isSpace) == [] || !isSpace(Trim(c, isSpace)[|Trim(c, isSpace)| - 1])
  {
    var t := TrimStart(c, isSpace);
    var r := TrimEnd(t, isSpace);
    InfixKeeps(c, |c| - |t|, |c|, mark, ok);
    InfixKeeps(t, 0, |r|, mark, ok);
    if r != [] {
      assert r[0] == t[0];
    }
  }

  /** A string with no run of two separators, whose only separator character is `mark`, is left
      as it is (when it does not start with `mark` right after a run). */
  lemma {:induction false} CollapseOfCollapsed(s: string, isSep: char -> bool, mark: char, inRun: bool)
    requires forall i :: 0 <= i < |s| ==> s[i] == mark || !isSep(s[i])
    requires isSep(mark) && NoDouble(s, mark)
    requires inRun ==> s == [] || s[0] != mark
    ensures CollapseRuns(s, isSep, mark, inRun) == s
  {
    if s != [] {
      CollapseOfCollapsed(s[1..], isSep, mark, isSep(s[0]));
    }
  }

  // ---------------------------------------------------------------------------------------------
  // slugify

  predicate IsSlugChar(c: char) { IsAsciiLower(c) || IsDigit(c) || c == '-' }

  predicate IsDash(c: char) { c == '-' }

  /** What slugify promises of its output. */
  predicate IsSlug(s: string) {
    && (forall i :: 0 <= i < |s| ==> IsSlugChar(s[i]))
    && (s == [] || (s[0] != '-' && s[|s| - 1] != '-'))
    && NoDouble(s, '-')
  }

  /** Kept by `replace(/[^\w\s-]/g, '')`. */
  predicate KeptInSlug(c: char) { IsWordChar(c) || IsJsSpace(c) || c == '-' }

  /** Matched by `[\s_-]`. */
  predicate IsSlugSeparator(c: char) { IsJsSpace(c) || c == '_' || c == '-' }

  /** `slugify(str)`: lower-case, trim, drop what is not a word character, space or dash,
      turn each run of spaces, underscores and dashes into one dash, strip the outer dashes. */
  function Slugify(str: Option<string>): (r: string)
    ensures IsSlug(r)
    ensures str.None? || str == Some("") ==> r == ""
  {
    match str
    case None => ""
    case Some(s) =>
      if s == "" then ""
      else
        var lowered := Lower(s);
        var trimmed := JsTrim(lowered);
        SlugTail(trimmed)
  }

  /** The last three steps of slugify, on a lower-cased string. */
  function SlugTail(trimmed: string): (r: string)
    requires forall i :: 0 <= i < |trimmed| ==> !IsAsciiUpper(trimmed[i])
    ensures IsSlug(r)
  {
    var kept := Filter(trimmed, KeptInSlug);
    var collapsed := CollapseRuns(kept, IsSlugSeparator, '-', false);
    SlugCharsSurvive(trimmed, collapsed);
    assert IsSlugSeparator('-');
    DashTrimIsSlug(collapsed);
    Trim(collapsed, IsDash)
  }

  /** The characters slugify's filter and collapse leave are slug characters. */
  lemma SlugCharsSurvive(trimmed: string, c: string)
    requires forall i :: 0 <= i < |trimmed| ==> !IsAsciiUpper(trimmed[i])
    requires c == CollapseRuns(Filter(trimmed, KeptInSlug), IsSlugSeparator, '-', false)
    ensures forall i :: 0 <= i < |c| ==> IsSlugChar(c[i])
  {
    var kept := Filter(trimmed, KeptInSlug);
    FilterKeeps(trimmed, KeptInSlug, c => !IsAsciiUpper(c));
    assert forall i :: 0 <= i < |kept| ==> KeptInSlug(kept[i]) && !IsAsciiUpper(kept[i]);
    CollapseKeeps(kept, IsSlugSeparator, '-', false, c => KeptInSlug(c) && !IsAsciiUpper(c));
  }

  /** Stripping the outer dashes of a string of slug characters with no double dash gives a slug. */
  lemma DashTrimIsSlug(c: string)
    requires forall i :: 0 <= i < |c| ==> IsSlugChar(c[i])
    requires NoDouble(c, '-')
    ensures IsSlug(Trim(c, IsDash))
  {
    TrimKeepsShape(c, IsDash, '-', IsSlugChar);
  }

  lemma LowerTrimKeepsNoUpper(s: string)
    ensures forall i :: 0 <= i < |JsTrim(Lower(s))| ==> !IsAsciiUpper(JsTrim(Lower(s))[i])
  {
    var l := Lower(s);
    TrimProperties(l, IsJsSpace);
  }

  lemma SlugCharFacts(c: char)
    requires IsSlugChar(c)
    ensures !IsJsSpace(c) && !IsAsciiUpper(c) && KeptInSlug(c)
    ensures c == '-' || !IsSlugSeparator(c)
  {
  }

  /** A slug is its own slug. */
  lemma SlugOfSlug(w: string)
    requires IsSlug(w)
    ensures Slugify(Some(w)) == w
  {
    if w != "" {
      forall i | 0 <= i < |w|
        ensures !IsJsSpace(w[i]) && !IsAsciiUpper(w[i]) && KeptInSlug(w[i])
        ensures w[i] == '-' || !IsSlugSeparator(w[i])
      {
        SlugCharFacts(w[i]);
      }
      LowerOfLower(w);
      TrimOfTrimmed(w, IsJsSpace);
      assert JsTrim(Lower(w)) == w;
      FilterAll(w, KeptInSlug);
      assert IsSlugSeparator('-');
      CollapseOfCollapsed(w, IsSlugSeparator, '-', false);
      TrimOfTrimmed(w, IsDash);
    }
  }

  /** slugify is idempotent. */
  lemma SlugifyIdempotent(str: Option<string>)
    ensures Slugify(Some(Slugify(str))) == Slugify(str)
  {
    SlugOfSlug(Slugify(str));
  }

  // ---------------------------------------------------------------------------------------------
  // extractFirstParagraph

  predicate FenceAt(s: string, k: nat) {
    k + 3 <= |s| && s[k] == '`' && s[k + 1] == '`' && s[k + 2] == '`'
  }

  /** The first index at or after `from` where three backticks start. */
  function FindFence(s: string, from: nat): (r: Option<nat>)
    decreases |s| - from
    ensures r.Some? ==> from <= r.value && FenceAt(s, r.value)
    ensures r.Some? ==> forall k :: from <= k < r.value ==> !FenceAt(s, k)
    ensures r.None? ==> forall k :: from <= k ==> !FenceAt(s, k)
  {
    if from + 3 > |s| then None
    else if FenceAt(s, from) then Some(from)
    else FindFence(s, from + 1)
  }

  /** `s.replace(/```[\s\S]*?```/g, '')`: from left to right, each fence with a later closing
      fence is removed together with everything up to and including the nearest closing fence;
      where no closing fence follows, the scan moves on by one character. */
  function RemoveCodeBlocks(s: string): (r: string)
    ensures |r| <= |s|
  {
    if s == [] then []
    else if FenceAt(s, 0) then
      match FindFence(s, 3)
      case Some(k) => RemoveCodeBlocks(s[k + 3..])
      case None => [s[0]] + RemoveCodeBlocks(s[1..])
    else [s[0]] + RemoveCodeBlocks(s[1..])
  }

  /** Text without a backtick has no code block to remove. */
  lemma {:induction false} NoBacktickUnchanged(s: string)
    requires forall k :: 0 <= k < |s| ==> s[k] != '`'
    ensures RemoveCodeBlocks(s) == s
  {
    if s != [] {
      assert !FenceAt(s, 0);
      assert forall k :: 0 <= k < |s[1..]| ==> s[1..][k] == s[k + 1];
      NoBacktickUnchanged(s[1..]);
    }
  }

  /** Text before the first backtick is kept as it is. */
  lemma {:induction false} PlainPrefixKept(a: string, b: string)
    requires '`' !in a
    ensures RemoveCodeBlocks(a + b) == a + RemoveCodeBlocks(b)
  {
    if a != [] {
      assert (a + b)[0] == a[0] && !FenceAt(a + b, 0);
      assert (a + b)[1..] == a[1..] + b;
      PlainPrefixKept(a[1..], b);
      assert RemoveCodeBlocks(a + b) == [a[0]] + RemoveCodeBlocks(a[1..] + b);
      assert a == [a[0]] + a[1..];
    } else {
      assert a + b == b;
    }
  }

  /** In a block whose inner text has no backtick, the nearest closing fence is the one right
      after that text. */
  lemma ClosingFence(m: string, b: string)
    requires '`' !in m
    ensures FindFence("```" + m + "```" + b, 3) == Some(3 + |m|)
  {
    var s := "```" + m + "```" + b;
    assert FenceAt(s, 3 + |m|);
    forall k | 3 <= k < 3 + |m|
      ensures !FenceAt(s, k)
    {
      assert s[k] == m[k - 3];
    }
  }

  /** A fenced block whose inner text has no backtick is removed together with its fences; the
      text before it and the text after it are kept. */
  lemma BlockRemoved(a: string, m: string, b: string)
    requires '`' !in a && '`' !in m
    ensures RemoveCodeBlocks(a + "```" + m + "```" + b) == a + RemoveCodeBlocks(b)
  {
    var block := "```" + m + "```" + b;
    assert a + "```" + m + "```" + b == a + block;
    PlainPrefixKept(a, block);
    assert FenceAt(block, 0);
    ClosingFence(m, b);
    assert block[3 + |m| + 3..] == b;
  }

  /** A fence that is never closed is not removed. */
  lemma UnclosedFenceKept(m: string)
    requires '`' !in m
    ensures RemoveCodeBlocks("```" + m) == "```" + m
  {
    var s := "```" + m;
    forall k | 3 <= k
      ensures !FenceAt(s, k)
    {
      if k < |s| {
        assert s[k] == m[k - 3];
      }
    }
    assert FindFence(s, 3).None?;
    assert s[1..] == "``" + m;
    assert !FenceAt("``" + m, 0) by {
      if |m| > 0 {
        assert ("``" + m)[2] == m[0];
      }
    }
    assert ("``" + m)[1..] == "`" + m;
    assert !FenceAt("`" + m, 0) by {
      if |m| > 0 {
        assert ("`" + m)[1] == m[0];
      }
    }
    assert ("`" + m)[1..] == m;
    assert forall k :: 0 <= k < |m| ==> m[k] != '`';
    NoBacktickUnchanged(m);
    assert RemoveCodeBlocks("`" + m) == "`" + m;
    assert RemoveCodeBlocks("``" + m) == "``" + m;
    assert RemoveCodeBlocks(s) == [s[0]] + RemoveCodeBlocks(s[1..]);
  }

  /** `s.split('\n\n')[0]`: the text before the first blank line. */
  function FirstParagraph(s: string): (r: string)
    ensures |r| <= |s| && r == s[..|r|]
    ensures NoDouble(r, '\n')
    ensures r == s || (|r| + 2 <= |s| && s[|r|] == '\n' && s[|r| + 1] == '\n')
  {
    if s == [] then []
    else if |s| >= 2 && s[0] == '\n' && s[1] == '\n' then []
    else
      var rest := FirstParagraph(s[1..]);
      assert rest == s[1..][..|rest|];
      [s[0]] + rest
  }

  /** The Markdown marks removed by `replace(/[#*_`\[\]]/g, '')`. */
  predicate IsMarkdownMark(c: char) {
    c == '#' || c == '*' || c == '_' || c == '`' || c == '[' || c == ']'
  }

  predicate NotMarkdownMark(c: char) { !IsMarkdownMark(c) }

  predicate NotSpace(c: char) { !IsJsSpace(c) }

  /** A character that may stay in the cleaned paragraph: a blank, or neither a space nor a mark. */
  predicate PlainChar(c: char) { c == ' ' || (!IsJsSpace(c) && !IsMarkdownMark(c)) }

  /** What extractFirstParagraph promises of its output: one line of plain words, separated by
      single blanks, with no Markdown marks and no space at either end. */
  predicate IsPlainLine(s: string) {
    && (forall i :: 0 <= i < |s| ==> PlainChar(s[i]))
    && (s == [] || (!IsJsSpace(s[0]) && !IsJsSpace(s[|s| - 1])))
    && NoDouble(s, ' ')
  }

  /** The last three steps of extractFirstParagraph on its first paragraph. */
  function CleanParagraph(p: string): (r: string)
    ensures IsPlainLine(r)
  {
    var stripped := Filter(p, NotMarkdownMark);
    var collapsed := CollapseRuns(stripped, IsJsSpace, ' ', false);
    PlainCharsSurvive(p, collapsed);
    SpaceTrimIsPlain(collapsed);
    JsTrim(collapsed)
  }

  lemma PlainCharsSurvive(p: string, c: string)
    requires c == CollapseRuns(Filter(p, NotMarkdownMark), IsJsSpace, ' ', false)
    ensures forall i :: 0 <= i < |c| ==> PlainChar(c[i])
    ensures NoDouble(c, ' ')
  {
    var stripped := Filter(p, NotMarkdownMark);
    assert IsJsSpace(' ');
    CollapseKeeps(stripped, IsJsSpace, ' ', false, NotMarkdownMark);
  }

  lemma SpaceTrimIsPlain(c: string)
    requires forall i :: 0 <= i < |c| ==> PlainChar(c[i])
    requires NoDouble(c, ' ')
    ensures IsPlainLine(JsTrim(c))
  {
    TrimKeepsShape(c, IsJsSpace, ' ', PlainChar);
  }

  /** `extractFirstParagraph(markdown)`: the first paragraph of the text once fenced code blocks
      are gone, as one plain line. */
  function ExtractFirstParagraph(markdown: Option<string>): (r: string)
    ensures IsPlainLine(r)
    ensures markdown.None? || markdown == Some("") ==> r == ""
  {
    match markdown
    case None => ""
    case Some(m) =>
      if m == "" then ""
      else CleanParagraph(FirstParagraph(RemoveCodeBlocks(m)))
  }

  /** The words of the first paragraph survive, in order: only spaces and Markdown marks are
      dropped. */
  lemma ParagraphKeepsWords(p: string)
    ensures Filter(CleanParagraph(p), NotSpace) == Filter(Filter(p, NotMarkdownMark), NotSpace)
  {
    var stripped := Filter(p, NotMarkdownMark);
    var collapsed := CollapseRuns(stripped, IsJsSpace, ' ', false);
    TrimKeepsOthers(collapsed, IsJsSpace, NotSpace);
    CollapseKeepsOthers(stripped, IsJsSpace, ' ', false, NotSpace);
  }

  // ---------------------------------------------------------------------------------------------
  // isValidEmail

  predicate NoJsSpace(s: string) {
    forall k :: 0 <= k < |s| ==> !IsJsSpace(s[k])
  }

  /** What `/^[^\s@]+@[^\s@]+\.[^\s@]+$/` matches: a non-empty local part, '@', a non-empty
      domain part, '.', a non-empty last part, none of which holds a space or '@'. */
  predicate EmailRegexMatches(s: string) {
    && NoJsSpace(s)
    && exists i, j :: (0 < i && i + 1 < j && j + 1 < |s| && s[i] == '@' && s[j] == '.'
      && (forall k :: 0 <= k < |s| && k != i ==> s[k] != '@'))
  }

  /** The index of the first `c` in `s`, or `|s|`. */
  function IndexOf(s: string, c: char): (r: nat)
    ensures r <= |s|
    ensures r < |s| ==> s[r] == c
    ensures forall k :: 0 <= k < r ==> s[k] != c
  {
    if s == [] then 0
    else if s[0] == c then 0
    else 1 + IndexOf(s[1..], c)
  }

  /** The e-mail test on the lower-cased text, done by locating the only '@'. */
  predicate EmailTest(s: string) {
    var at := IndexOf(s, '@');
    && NoJsSpace(s)
    && 0 < at < |s|
    && (forall k :: at < k < |s| ==> s[k] != '@')
    && (exists j :: at + 1 < j < |s| - 1 && s[j] == '.')
  }

  /** `isValidEmail(email)`: `String(email)` lower-cased must match the e-mail pattern; `null`
      becomes the string "null". */
  function IsValidEmail(email: Option<string>): (r: bool)
    ensures r <==> EmailRegexMatches(Lower(match email case None => "null" case Some(e) => e))
    ensures email.None? ==> !r
  {
    EmailTestMatchesRegex(Lower(match email case None => "null" case Some(e) => e));
    assert email.None? ==> '@' !in Lower("null");
    EmailTest(Lower(match email case None => "null" case Some(e) => e))
  }

  /** The test agrees with the regular expression, both ways. */
  lemma EmailTestMatchesRegex(s: string)
    ensures EmailTest(s) <==> EmailRegexMatches(s)
  {
    var at := IndexOf(s, '@');
    if EmailTest(s) {
      var j :| at + 1 < j < |s| - 1 && s[j] == '.';
      assert 0 < at && at + 1 < j && j + 1 < |s| && s[at] == '@' && s[j] == '.';
    }
    if EmailRegexMatches(s) {
      var i, j :| 0 < i && i + 1 < j && j + 1 < |s| && s[i] == '@' && s[j] == '.'
        && (forall k :: 0 <= k < |s| && k != i ==> s[k] != '@');
      assert at == i;
    }
  }

  /** Lower-casing leaves spaces alone, so a lower-cased text without spaces had none. */
  lemma NoSpaceUnderLower(e: string)
    requires NoJsSpace(Lower(e))
    ensures NoJsSpace(e)
  {
    forall k | 0 <= k < |e|
      ensures !IsJsSpace(e[k])
    {
      assert !IsJsSpace(Lower(e)[k]);
      SpaceIsNotUpper(e[k]);
    }
  }

  lemma SpaceIsNotUpper(c: char)
    ensures IsJsSpace(c) ==> AsciiLower(c) == c
  {
  }

  /** A valid address has no space, exactly one '@' and a '.' after it, in the text as given:
      lower-casing changes none of these characters. */
  lemma ValidEmailShape(e: string)
    requires IsValidEmail(Some(e))
    ensures NoJsSpace(e)
    ensures exists i :: (0 <= i < |e| && e[i] == '@'
      && (forall k :: 0 <= k < |e| && k != i ==> e[k] != '@')
      && (exists j :: i < j < |e| && e[j] == '.'))
  {
    var s := Lower(e);
    var at := IndexOf(s, '@');
    var j :| at + 1 < j < |s| - 1 && s[j] == '.';
    assert e[at] == '@';
    assert e[j] == '.';
    NoSpaceUnderLower(e);
  }

  // ---------------------------------------------------------------------------------------------
  // validatePassword

  datatype PasswordCheck = PasswordCheck(
    isValid: bool,
    hasUpperCase: bool,
    hasLowerCase: bool,
    hasNumbers: bool,
    hasSpecialChar: bool,
    isLongEnough: bool)

  const MinPasswordLength := 8

  /** `[!@#$%^&*(),.?":{}|<>]`. */
  predicate IsSpecialChar(c: char) {
    c in "!@#$%^&*(),.?\":{}|<>"
  }

  /** `/[class]/.test(s)`: some character of `s` is in the class. */
  function AnyChar(s: string, inClass: char -> bool): (r: bool)
    ensures r <==> exists i :: 0 <= i < |s| && inClass(s[i])
  {
    if s == [] then false
    else if inClass(s[0]) then true
    else
      var rest := AnyChar(s[1..], inClass);
      assert forall i :: 1 <= i < |s| ==> s[i] == s[1..][i - 1];
      rest
  }

  /** `validatePassword(password)`: four character-class flags and a length flag. */
  function ValidatePassword(password: string): (r: PasswordCheck)
    ensures r.hasUpperCase <==> exists i :: 0 <= i < |password| && IsAsciiUpper(password[i])
    ensures r.hasLowerCase <==> exists i :: 0 <= i < |password| && IsAsciiLower(password[i])
    ensures r.hasNumbers <==> exists i :: 0 <= i < |password| && IsDigit(password[i])
    ensures r.hasSpecialChar <==> exists i :: 0 <= i < |password| && IsSpecialChar(password[i])
    ensures r.isLongEnough <==> |password| >= MinPasswordLength
  {
    var upper := AnyChar(password, IsAsciiUpper);
    var lower := AnyChar(password, IsAsciiLower);
    var numbers := AnyChar(password, IsDigit);
    var special := AnyChar(password, IsSpecialChar);
    var long := |password| >= MinPasswordLength;
    PasswordCheck(upper && lower && numbers && special && long, upper, lower, numbers, special, long)
  }

  /** A password is valid exactly when it has an upper-case letter, a lower-case letter, a digit
      and a special character and at least eight characters. */
  lemma PasswordValidIff(password: string)
    ensures ValidatePassword(password).isValid <==>
      && (exists i :: 0 <= i < |password| && IsAsciiUpper(password[i]))
      && (exists i :: 0 <= i < |password| && IsAsciiLower(password[i]))
      && (exists i :: 0 <= i < |password| && IsDigit(password[i]))
      && (exists i :: 0 <= i < |password| && IsSpecialChar(password[i]))
      && |password| >= 8
  {
  }

  // ---------------------------------------------------------------------------------------------
  // getInitials

  /** `parts.map(part => part[0]).join('')`: the first character of every part; an empty part
      gives `undefined`, which joins as nothing. */
  function FirstChars(parts: seq<string>): string {
    if parts == [] then []
    else (if parts[0] == "" then [] else [parts[0][0]]) + FirstChars(parts[1..])
  }

  /** The characters of `s` that start a word: not a blank, and first or after a blank. */
  function WordStarts(s: string, atStart: bool): (r: string)
    ensures forall i :: 0 <= i < |r| ==> r[i] != ' '
  {
    if s == [] then []
    else if s[0] == ' ' then WordStarts(s[1..], true)
    else (if atStart then [s[0]] else []) + WordStarts(s[1..], false)
  }

  /** `getInitials(name)`: the upper-cased first characters of the space-separated parts, at most
      two of them. */
  function GetInitials(name: Option<string>): (r: string)
    ensures |r| <= 2
    ensures forall i :: 0 <= i < |r| ==> !IsAsciiLower(r[i])
    ensures name.None? || name == Some("") ==> r == ""
  {
    match name
    case None => ""
    case Some(n) =>
      if n == "" then ""
      else
        var all := Upper(FirstChars(Split(n, ' ')));
        if |all| <= 2 then all else all[..2]
  }

  /** The first characters of the parts of a split are the word starts of the string. */
  lemma {:induction false} FirstCharsOfSplit(s: string)
    ensures FirstChars(Split(s, ' ')) == WordStarts(s, true)
    ensures FirstChars(Split(s, ' ')[1..]) == WordStarts(s, false)
  {
    if s != [] {
      FirstCharsOfSplit(s[1..]);
      var rest := Split(s[1..], ' ');
      if s[0] == ' ' {
        assert Split(s, ' ') == [""] + rest;
        assert ([""] + rest)[1..] == rest;
      } else {
        var parts := [[s[0]] + rest[0]] + rest[1..];
        assert Split(s, ' ') == parts;
        assert parts[1..] == rest[1..];
        assert FirstChars(rest) == (if rest[0] == "" then [] else [rest[0][0]]) + FirstChars(rest[1..]);
      }
    }
  }

  /** The initials are the first two word starts of the name, upper-cased. */
  lemma InitialsAreWordStarts(n: string)
    requires n != ""
    ensures var w := Upper(WordStarts(n, true));
      GetInitials(Some(n)) == if |w| <= 2 then w else w[..2]
  {
    FirstCharsOfSplit(n);
  }

  // ---------------------------------------------------------------------------------------------
  // formatNumber

  function DigitChar(d: nat): (c: char)
    requires d < 10
    ensures IsDigit(c)
  {
    ('0' as int + d) as char
  }

  /** The decimal digits of `n`, most significant first, with no leading zero. */
  function DigitsOf(n: nat): (r: string)
    ensures r != []
    ensures forall i :: 0 <= i < |r| ==> IsDigit(r[i])
    ensures n > 0 ==> r[0] != '0'
  {
    if n < 10 then [DigitChar(n)] else DigitsOf(n / 10) + [DigitChar(n % 10)]
  }

  /** The number a string of digits denotes. */
  function ValueOf(s: string): nat
    requires forall i :: 0 <= i < |s| ==> IsDigit(s[i])
  {
    if s == [] then 0
    else
      var last := s[|s| - 1];
      assert IsDigit(last);
      10 * ValueOf(s[..|s| - 1]) + (last as int - '0' as int)
  }

  lemma {:induction false} DigitsValue(n: nat)
    ensures ValueOf(DigitsOf(n)) == n
  {
    if n >= 10 {
      DigitsValue(n / 10);
      var d := DigitsOf(n);
      assert d[..|d| - 1] == DigitsOf(n / 10);
    }
  }

  /** `num.toString()` for an integer. */
  function IntToString(n: int): (r: string)
    ensures |r| >= (if n < 0 then 2 else 1) && (r[0] == '-' <==> n < 0)
    ensures forall i :: (if n < 0 then 1 else 0) <= i < |r| ==> IsDigit(r[i])
    ensures n != 0 ==> r[if n < 0 then 1 else 0] != '0'
  {
    (if n < 0 then "-" else "") + DigitsOf(if n < 0 then -n else n)
  }

  /** Reading a run of digits the way `Number` does gives the number it denotes. */
  lemma {:induction false} DecimalValueOfDigits(d: string)
    requires forall i :: 0 <= i < |d| ==> IsDigit(d[i])
    ensures DecimalValue(d) == ValueOf(d)
  {
    if d != [] {
      DecimalValueOfDigits(d[..|d| - 1]);
    }
  }

  /** The text of an integer is an optionally signed run of digits. */
  lemma IntToStringIsLiteral(n: int)
    ensures IsIntegerLiteral(IntToString(n))
    ensures IntToString(n)[0] == '-' <==> n < 0
    ensures n >= 0 ==> IntToString(n) == DigitsOf(n)
    ensures n < 0 ==> IntToString(n)[1..] == DigitsOf(-n)
  {
    var m: nat := if n < 0 then -n else n;
    var d := DigitsOf(m);
    var s := IntToString(n);
    if n < 0 {
      assert s[0] == '-' && s[1..] == d;
    } else {
      assert s == d;
      assert IsDigit(s[0]);
    }
  }

  /** The text of an integer has no space to trim. */
  lemma IntToStringTrimmed(n: int)
    ensures JsTrim(IntToString(n)) == IntToString(n)
  {
    var m: nat := if n < 0 then -n else n;
    var d := DigitsOf(m);
    var s := IntToString(n);
    IntToStringIsLiteral(n);
    assert IsDigit(d[|d| - 1]);
    assert s[|s| - 1] == d[|d| - 1];
    assert s[0] == '-' || IsDigit(s[0]);
    assert !IsJsSpace(s[0]) && !IsJsSpace(s[|s| - 1]);
    TrimOfTrimmed(s, IsJsSpace);
  }

  /** `Number(String(n))` is `n`: the text of an integer reads back as that integer. */
  lemma NumberOfIntToString(n: int)
    ensures ToNumber(Str(IntToString(n))) == Num(n)
  {
    var m: nat := if n < 0 then -n else n;
    var d := DigitsOf(m);
    var s := IntToString(n);
    IntToStringIsLiteral(n);
    IntToStringTrimmed(n);
    DigitsValue(m);
    DecimalValueOfDigits(d);
    if n < 0 {
      assert s[1..] == d;
      assert ToNumber(Str(s)) == Num(0 - (DecimalValue(d) as int));
    } else {
      assert s == d;
      assert s[0] != '+';
      assert ToNumber(Str(s)) == Num(DecimalValue(d));
    }
  }

  /** A comma before every group of three digits counted from the right, never at the front:
      what `replace(/\B(?=(\d{3})+(?!\d))/g, ',')` does to a run of digits. */
  function GroupThousands(d: string): (r: string)
    requires d != [] && forall i :: 0 <= i < |d| ==> IsDigit(d[i])
    ensures |r| == |d| + (|d| - 1) / 3
    ensures forall i :: 0 <= i < |r| ==> (r[i] == ',' <==> i > 0 && (|r| - i) % 4 == 0)
    ensures forall i :: 0 <= i < |r| ==> r[i] == ',' || IsDigit(r[i])
  {
    if |d| <= 3 then
      forall i | 0 <= i < |d|
        ensures d[i] != ',' && (i > 0 ==> (|d| - i) % 4 != 0)
      {
        assert IsDigit(d[i]);
      }
      d
    else
      var head := GroupThousands(d[..|d| - 3]);
      var tail := d[|d| - 3..];
      assert forall i :: 0 <= i < 3 ==> tail[i] == d[|d| - 3 + i];
      GroupStep(head, tail);
      head + [','] + tail
  }

  /** Adding a comma and three digits to a grouped string keeps the comma positions. */
  lemma GroupStep(head: string, tail: string)
    requires head != [] && head[0] != ','
    requires forall i :: 0 <= i < |head| ==> (head[i] == ',' <==> i > 0 && (|head| - i) % 4 == 0)
    requires |tail| == 3 && forall i :: 0 <= i < 3 ==> IsDigit(tail[i])
    ensures var r := head + [','] + tail;
      forall i :: 0 <= i < |r| ==> (r[i] == ',' <==> i > 0 && (|r| - i) % 4 == 0)
  {
    var r := head + [','] + tail;
    forall i | 0 <= i < |r|
      ensures r[i] == ',' <==> i > 0 && (|r| - i) % 4 == 0
    {
      if i < |head| {
        assert r[i] == head[i];
        assert (|r| - i) % 4 == (|head| - i) % 4;
      } else if i > |head| {
        assert r[i] == tail[i - |head| - 1] && IsDigit(tail[i - |head| - 1]);
      }
    }
  }

  /** `formatNumber(num)`: '0' for null or undefined, otherwise the integer's decimal form with
      thousands separators. The sign stays in front: there is no comma right after '-'. */
  function FormatNumber(num: Option<int>): (r: string)
    ensures num.None? ==> r == "0"
  {
    match num
    case None => "0"
    case Some(n) =>
      (if n < 0 then "-" else "") + GroupThousands(DigitsOf(if n < 0 then -n else n))
  }

  predicate NotComma(c: char) { c != ',' }

  lemma {:induction false} UngroupThousands(d: string)
    requires d != [] && forall i :: 0 <= i < |d| ==> IsDigit(d[i])
    ensures Filter(GroupThousands(d), NotComma) == d
  {
    if |d| <= 3 {
      FilterAll(d, NotComma);
    } else {
      var init := d[..|d| - 3];
      var tail := d[|d| - 3..];
      var head := GroupThousands(init);
      assert GroupThousands(d) == head + [','] + tail;
      UngroupThousands(init);
      FilterAppend(head + [','], tail, NotComma);
      FilterAppend(head, [','], NotComma);
      assert Filter([','], NotComma) == [];
      FilterAll(tail, NotComma);
      assert init + tail == d;
    }
  }

  /** Removing the commas from a formatted number gives back `num.toString()`. */
  lemma FormatNumberUngroups(n: int)
    ensures Filter(FormatNumber(Some(n)), NotComma) == IntToString(n)
  {
    var d := DigitsOf(if n < 0 then -n else n);
    UngroupThousands(d);
    if n < 0 {
      FilterAppend("-", GroupThousands(d), NotComma);
    } else {
      assert FormatNumber(Some(n)) == GroupThousands(d);
    }
  }
}
