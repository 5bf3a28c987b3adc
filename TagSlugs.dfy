/** The slug the post editor (frontend/src/pages/PostForm.jsx) sends with every tag: the
    pattern as the source writes it and the pattern it evidently means. */
module TagSlugs {
  import opened Js
  import Helpers

  /** What `/[^\w-]+/g` does not remove: word characters and the dash. */
  predicate IsTagSlugChar(c: char) { IsWordChar(c) || c == '-' }

  /** The slug sent with a tag as evidently intended: lower case, every run of spaces one dash,
      and every character other than word characters and dashes removed. */
  function TagSlug(tag: string): (r: string)
    ensures forall i :: 0 <= i < |r| ==> IsTagSlugChar(r[i])
  {
    Filter(Helpers.CollapseRuns(Lower(tag), IsJsSpace, '-', false), IsTagSlugChar)
  }

  lemma WordCharIsNotSpace(c: char)
    ensures IsWordChar(c) ==> !IsJsSpace(c)
  {
  }

  /** The intended slug keeps every word character of the lower-cased tag, in order. */
  lemma TagSlugKeepsWords(tag: string)
    ensures Filter(TagSlug(tag), IsWordChar) == Filter(Lower(tag), IsWordChar)
  {
    var c := Helpers.CollapseRuns(Lower(tag), IsJsSpace, '-', false);
    FilterFilter(c, IsTagSlugChar, IsWordChar);
    forall ch: char
      ensures IsWordChar(ch) ==> !IsJsSpace(ch)
    {
      WordCharIsNotSpace(ch);
    }
    Helpers.CollapseKeepsOthers(Lower(tag), IsJsSpace, '-', false, IsWordChar);
  }

  lemma LowerIsNotSpace(c: char)
    ensures IsAsciiLower(c) ==> !IsJsSpace(c) && !IsAsciiUpper(c)
  {
  }

  /** Lower-case words with one space between them are already lower case. */
  lemma LowerOfWords(a: string, b: string)
    requires forall i :: 0 <= i < |a| ==> IsAsciiLower(a[i])
    requires forall i :: 0 <= i < |b| ==> IsAsciiLower(b[i])
    ensures Lower(a + " " + b) == a + " " + b
  {
    NoUpperBetween(a, b, a + " " + b);
  }

  lemma NoUpperBetween(a: string, b: string, s: string)
    requires forall i :: 0 <= i < |a| ==> IsAsciiLower(a[i])
    requires forall i :: 0 <= i < |b| ==> IsAsciiLower(b[i])
    requires s == a + [' '] + b
    ensures Lower(s) == s
  {
    forall i | 0 <= i < |s|
      ensures !IsAsciiUpper(s[i])
    {
      if i < |a| {
        assert s[i] == a[i];
      } else if i > |a| {
        assert s[i] == b[i - |a| - 1];
      }
    }
    LowerOfLower(s);
  }

  /** Over any notion of space: collapsing the one space between two words gives one mark. */
  lemma CollapseBetween(a: string, b: string, isSep: char -> bool, mark: char)
    requires a != [] && isSep(' ')
    requires forall i :: 0 <= i < |a| ==> !isSep(a[i])
    requires forall i :: 0 <= i < |b| ==> !isSep(b[i])
    ensures Helpers.CollapseRuns(a + " " + b, isSep, mark, false) == a + [mark] + b
  {
    CollapseAfterWord(a, [' '] + b, b, isSep, mark);
    assert a + " " + b == a + ([' '] + b);
  }

  lemma CollapseAfterWord(a: string, w: string, b: string, isSep: char -> bool, mark: char)
    requires a != [] && isSep(' ') && w == [' '] + b
    requires forall i :: 0 <= i < |a| ==> !isSep(a[i])
    requires forall i :: 0 <= i < |b| ==> !isSep(b[i])
    ensures Helpers.CollapseRuns(a + w, isSep, mark, false) == a + [mark] + b
  {
    Helpers.CollapseAppend(a, w, isSep, mark, false);
    Helpers.CollapseNoSep(a, isSep, mark, false);
    assert !Helpers.EndInRun(a, isSep, false);
    assert w[1..] == b;
    Helpers.CollapseNoSep(b, isSep, mark, true);
  }

  /** Collapsing the space between two lower-case words gives one dash. */
  lemma CollapseWords(a: string, b: string)
    requires a != [] && forall i :: 0 <= i < |a| ==> IsAsciiLower(a[i])
    requires forall i :: 0 <= i < |b| ==> IsAsciiLower(b[i])
    ensures Helpers.CollapseRuns(a + " " + b, IsJsSpace, '-', false) == a + "-" + b
  {
    forall i | 0 <= i < |a|
      ensures !IsJsSpace(a[i])
    {
      LowerIsNotSpace(a[i]);
    }
    forall i | 0 <= i < |b|
      ensures !IsJsSpace(b[i])
    {
      LowerIsNotSpace(b[i]);
    }
    CollapseBetween(a, b, IsJsSpace, '-');
  }

  /** Two lower-case words with one space between them give the words joined by a dash. */
  lemma TagSlugOfWords(a: string, b: string)
    requires a != [] && forall i :: 0 <= i < |a| ==> IsAsciiLower(a[i])
    requires forall i :: 0 <= i < |b| ==> IsAsciiLower(b[i])
    ensures TagSlug(a + " " + b) == a + "-" + b
  {
    LowerOfWords(a, b);
    CollapseWords(a, b);
    var t := a + "-" + b;
    assert forall i :: 0 <= i < |t| ==> IsTagSlugChar(t[i]);
    FilterAll(t, IsTagSlugChar);
  }

  /** As written, two lower-case words lose their space and keep only their letters `w`. */
  lemma AsWrittenTagSlugOfWords(a: string, b: string)
    requires forall i :: 0 <= i < |a| ==> IsAsciiLower(a[i])
    requires forall i :: 0 <= i < |b| ==> IsAsciiLower(b[i])
    ensures AsWrittenTagSlug(a + " " + b) == Filter(a, IsBackslashWOrDash) + Filter(b, IsBackslashWOrDash)
  {
    var s := a + " " + b;
    LowerOfWords(a, b);
    NoBackslashInWords(a, b, s);
    NoBackslashUnchanged(s);
    FilterAppend(a + " ", b, IsBackslashWOrDash);
    FilterAppend(a, " ", IsBackslashWOrDash);
  }

  /** Lower-case words and a space hold no backslash. */
  lemma NoBackslashInWords(a: string, b: string, s: string)
    requires forall i :: 0 <= i < |a| ==> IsAsciiLower(a[i])
    requires forall i :: 0 <= i < |b| ==> IsAsciiLower(b[i])
    requires s == a + " " + b
    ensures '\\' !in s
  {
    forall i | 0 <= i < |s|
      ensures s[i] != '\\'
    {
      if i < |a| {
        assert s[i] == a[i];
      } else if i > |a| {
        assert s[i] == b[i - |a| - 1];
      }
    }
  }

  /** Drops the leading letters `s`. */
  function DropLeadingS(s: string): (r: string)
    ensures |r| <= |s| && r == s[|s| - |r|..]
    ensures forall i :: 0 <= i < |s| - |r| ==> s[i] == 's'
    ensures r == [] || r[0] != 's'
  {
    if s != [] && s[0] == 's' then DropLeadingS(s[1..]) else s
  }

  /** `replace(/\\s+/g, '-')` as the source writes it: the doubled backslash makes the pattern a
      backslash followed by letters `s`, and each such run becomes a dash. */
  function ReplaceBackslashRuns(s: string): (r: string)
    ensures |r| <= |s| && (r == [] <==> s == [])
    ensures r != [] ==> r[0] == '-' || r[0] == s[0]
    ensures forall i :: 0 <= i < |r| ==> r[i] == '-' || r[i] in s
    ensures forall i :: 0 <= i < |r| - 1 ==> !(r[i] == '\\' && r[i + 1] == 's')
    decreases |s|
  {
    if s == [] then []
    else if |s| >= 2 && s[0] == '\\' && s[1] == 's' then "-" + ReplaceBackslashRuns(DropLeadingS(s[2..]))
    else [s[0]] + ReplaceBackslashRuns(s[1..])
  }

  /** What `/[^\\w-]+/g` does not remove: the class holds a backslash, the letter `w` and the
      dash. */
  predicate IsBackslashWOrDash(c: char) { c == '\\' || c == 'w' || c == '-' }

  /** The slug as the source writes it. */
  function AsWrittenTagSlug(tag: string): (r: string)
    ensures forall i :: 0 <= i < |r| ==> IsBackslashWOrDash(r[i])
  {
    Filter(ReplaceBackslashRuns(Lower(tag)), IsBackslashWOrDash)
  }

  /** The written slug of "hello world" is "w". */
  lemma AsWrittenTagSlugOfTwoWords()
    ensures AsWrittenTagSlug("hello world") == "w"
  {
    assert "hello world" == "hello" + " " + "world";
    AsWrittenTagSlugOfWords("hello", "world");
    assert Filter("hello", IsBackslashWOrDash) == "";
    assert Filter("world", IsBackslashWOrDash) == "w";
  }

  /** The slug meant for "hello world" is "hello-world". */
  lemma TagSlugOfTwoWords()
    ensures TagSlug("hello world") == "hello-world"
  {
    assert "hello world" == "hello" + " " + "world";
    assert "hello-world" == "hello" + "-" + "world";
    TagSlugOfWords("hello", "world");
  }

  /** Text without a backslash has nothing for the written pattern to replace. */
  lemma {:induction false} NoBackslashUnchanged(s: string)
    requires '\\' !in s
    ensures ReplaceBackslashRuns(s) == s
  {
    if s != [] {
      NoBackslashUnchanged(s[1..]);
    }
  }
}
