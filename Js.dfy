/** What the front end's code relies on from the JavaScript runtime and the Java back end's code
    from java.lang.String: character classes, trimming, ASCII case mapping, filtering and splitting
    strings, and the loosely typed values that the React hooks keep in their state objects. */
module Js {
  import opened Wrappers

  /** The characters that `String.prototype.trim` removes and that `\s` matches in a regular
      expression: WhiteSpace and LineTerminator of the ECMAScript grammar. */
  predicate IsJsSpace(c: char) {
    c == '\t' || c == '\n' || c == '\U{000B}' || c == '\U{000C}' || c == '\r' || c == ' '
    || c == '\U{00A0}' || c == '\U{1680}' || ('\U{2000}' <= c <= '\U{200A}')
    || c == '\U{2028}' || c == '\U{2029}' || c == '\U{202F}' || c == '\U{205F}' || c == '\U{3000}'
    || c == '\U{FEFF}'
  }

  /** The characters that Java's `String.trim` removes: every code point up to U+0020. */
  predicate IsJavaTrimmable(c: char) {
    c <= ' '
  }

  predicate IsAsciiUpper(c: char) { 'A' <= c <= 'Z' }
  predicate IsAsciiLower(c: char) { 'a' <= c <= 'z' }
  predicate IsDigit(c: char) { '0' <= c <= '9' }

  /** `\w` in a regular expression without the `u` flag. */
  predicate IsWordChar(c: char) {
    IsAsciiUpper(c) || IsAsciiLower(c) || IsDigit(c) || c == '_'
  }

  function AsciiLower(c: char): (r: char)
    ensures !IsAsciiUpper(r)
    ensures IsAsciiUpper(c) ==> IsAsciiLower(r)
    ensures !IsAsciiUpper(c) ==> r == c
  {
    if IsAsciiUpper(c) then (c as int + 32) as char else c
  }

  function AsciiUpper(c: char): (r: char)
    ensures !IsAsciiLower(r)
    ensures IsAsciiLower(c) ==> IsAsciiUpper(r)
    ensures !IsAsciiLower(c) ==> r == c
  {
    if IsAsciiLower(c) then (c as int - 32) as char else c
  }

  /** `toLowerCase`, restricted to the ASCII letters. */
  function Lower(s: string): (r: string)
    ensures |r| == |s|
    ensures forall i :: 0 <= i < |s| ==> r[i] == AsciiLower(s[i])
  {
    if s == [] then [] else [AsciiLower(s[0])] + Lower(s[1..])
  }

  /** `toUpperCase`, restricted to the ASCII letters. */
  function Upper(s: string): (r: string)
    ensures |r| == |s|
    ensures forall i :: 0 <= i < |s| ==> r[i] == AsciiUpper(s[i])
  {
    if s == [] then [] else [AsciiUpper(s[0])] + Upper(s[1..])
  }

  /** Text without upper-case letters is its own lower case. */
  lemma {:induction false} LowerOfLower(w: string)
    requires forall i :: 0 <= i < |w| ==> !IsAsciiUpper(w[i])
    ensures Lower(w) == w
  {
    if w != [] {
      LowerOfLower(w[1..]);
    }
  }

  /** Drops the characters of the prefix that `isSpace` accepts. */
  function TrimStart(s: string, isSpace: char -> bool): (r: string)
    ensures |r| <= |s| && r == s[|s| - |r|..]
    ensures r == [] || !isSpace(r[0])
    ensures forall i :: 0 <= i < |s| - |r| ==> isSpace(s[i])
  {
    if s != [] && isSpace(s[0]) then TrimStart(s[1..], isSpace) else s
  }

  /** Drops the characters of the suffix that `isSpace` accepts. */
  function TrimEnd(s: string, isSpace: char -> bool): (r: string)
    ensures |r| <= |s| && r == s[..|r|]
    ensures r == [] || !isSpace(r[|r| - 1])
    ensures forall i :: |r| <= i < |s| ==> isSpace(s[i])
  {
    if s != [] && isSpace(s[|s| - 1]) then TrimEnd(s[..|s| - 1], isSpace) else s
  }

  function Trim(s: string, isSpace: char -> bool): string {
    TrimEnd(TrimStart(s, isSpace), isSpace)
  }

  /** JavaScript's `String.prototype.trim`, which removes white space and line terminators
      from both ends (`TrimProperties` states what is removed and kept). */
  function JsTrim(s: string): (r: string)
    ensures |r| <= |s|
  {
    Trim(s, IsJsSpace)
  }

  /** Java's `String.trim`, which removes the characters up to U+0020 from both ends. */
  function JavaTrim(s: string): (r: string)
    ensures |r| <= |s|
  {
    Trim(s, IsJavaTrimmable)
  }

  /** What JavaScript's trim leaves: no white space or line terminator at either end, and only
      such characters removed. */
  lemma JsTrimEnds(s: string)
    ensures var r := JsTrim(s);
      r == [] || (!IsJsSpace(r[0]) && !IsJsSpace(r[|r| - 1]))
    ensures var r := JsTrim(s);
      exists i, j :: (0 <= i <= j <= |s| && r == s[i..j]
        && (forall k :: 0 <= k < i ==> IsJsSpace(s[k]))
        && (forall k :: j <= k < |s| ==> IsJsSpace(s[k])))
  {
    TrimProperties(s, IsJsSpace);
  }

  /** What Java's trim leaves: no character up to U+0020 at either end, and only such
      characters removed. */
  lemma JavaTrimEnds(s: string)
    ensures var r := JavaTrim(s);
      r == [] || (!IsJavaTrimmable(r[0]) && !IsJavaTrimmable(r[|r| - 1]))
    ensures var r := JavaTrim(s);
      exists i, j :: (0 <= i <= j <= |s| && r == s[i..j]
        && (forall k :: 0 <= k < i ==> IsJavaTrimmable(s[k]))
        && (forall k :: j <= k < |s| ==> IsJavaTrimmable(s[k])))
  {
    TrimProperties(s, IsJavaTrimmable);
  }

  /** A trimmed string neither starts nor ends with a character the trim removes, and is the
      untrimmed string with only such characters cut from both ends. */
  lemma TrimProperties(s: string, isSpace: char -> bool)
    ensures var r := Trim(s, isSpace);
      r == [] || (!isSpace(r[0]) && !isSpace(r[|r| - 1]))
    ensures var r := Trim(s, isSpace);
      exists i, j :: (0 <= i <= j <= |s| && r == s[i..j]
        && (forall k :: 0 <= k < i ==> isSpace(s[k]))
        && (forall k :: j <= k < |s| ==> isSpace(s[k])))
  {
    var t := TrimStart(s, isSpace);
    var r := TrimEnd(t, isSpace);
    var i := |s| - |t|;
    var j := i + |r|;
    assert r == s[i..j] by {
      assert t == s[i..] && r == t[..|r|];
    }
    forall k | j <= k < |s|
      ensures isSpace(s[k])
    {
      assert s[k] == t[k - i];
    }
    if r != [] {
      assert r[0] == t[0];
    }
    assert 0 <= i <= j <= |s| && r == s[i..j]
      && (forall k :: 0 <= k < i ==> isSpace(s[k]))
      && (forall k :: j <= k < |s| ==> isSpace(s[k]));
  }

  /** Trimming a string that neither starts nor ends with a removable character gives it back. */
  lemma TrimOfTrimmed(s: string, isSpace: char -> bool)
    requires s == [] || (!isSpace(s[0]) && !isSpace(s[|s| - 1]))
    ensures Trim(s, isSpace) == s
  {
  }

  /** The characters of `s` that `keep` accepts, in order. */
  function Filter(s: string, keep: char -> bool): (r: string)
    ensures |r| <= |s|
    ensures forall i :: 0 <= i < |r| ==> keep(r[i])
  {
    if s == [] then [] else (if keep(s[0]) then [s[0]] else []) + Filter(s[1..], keep)
  }

  lemma {:induction false} FilterAppend(a: string, b: string, keep: char -> bool)
    ensures Filter(a + b, keep) == Filter(a, keep) + Filter(b, keep)
  {
    if a == [] {
      assert a + b == b;
    } else {
      assert (a + b)[1..] == a[1..] + b;
      FilterAppend(a[1..], b, keep);
    }
  }

  /** Every character of a filtered string has the properties all characters of the input had. */
  lemma {:induction false} FilterKeeps(s: string, keep: char -> bool, ok: char -> bool)
    requires forall i :: 0 <= i < |s| ==> ok(s[i])
    ensures forall i :: 0 <= i < |Filter(s, keep)| ==> ok(Filter(s, keep)[i])
  {
    if s != [] {
      FilterKeeps(s[1..], keep, ok);
    }
  }

  /** Trimming removes nothing that a filter keeping no removable character would keep. */
  lemma {:induction false} TrimStartKeepsOthers(s: string, isSpace: char -> bool, keep: char -> bool)
    requires forall c :: keep(c) ==> !isSpace(c)
    ensures Filter(TrimStart(s, isSpace), keep) == Filter(s, keep)
  {
    if s != [] && isSpace(s[0]) {
      TrimStartKeepsOthers(s[1..], isSpace, keep);
    }
  }

  lemma {:induction false} TrimEndKeepsOthers(s: string, isSpace: char -> bool, keep: char -> bool)
    requires forall c :: keep(c) ==> !isSpace(c)
    ensures Filter(TrimEnd(s, isSpace), keep) == Filter(s, keep)
  {
    if s != [] && isSpace(s[|s| - 1]) {
      var init := s[..|s| - 1];
      TrimEndKeepsOthers(init, isSpace, keep);
      assert s == init + [s[|s| - 1]];
      FilterAppend(init, [s[|s| - 1]], keep);
    }
  }

  lemma TrimKeepsOthers(s: string, isSpace: char -> bool, keep: char -> bool)
    requires forall c :: keep(c) ==> !isSpace(c)
    ensures Filter(Trim(s, isSpace), keep) == Filter(s, keep)
  {
    TrimStartKeepsOthers(s, isSpace, keep);
    TrimEndKeepsOthers(TrimStart(s, isSpace), isSpace, keep);
  }

  /** Filtering by a wider class first changes nothing. */
  lemma {:induction false} FilterFilter(s: string, wide: char -> bool, narrow: char -> bool)
    requires forall c :: narrow(c) ==> wide(c)
    ensures Filter(Filter(s, wide), narrow) == Filter(s, narrow)
  {
    if s != [] {
      FilterFilter(s[1..], wide, narrow);
      FilterAppend(if wide(s[0]) then [s[0]] else [], Filter(s[1..], wide), narrow);
    }
  }

  lemma {:induction false} FilterAll(s: string, keep: char -> bool)
    requires forall i :: 0 <= i < |s| ==> keep(s[i])
    ensures Filter(s, keep) == s
  {
    if s != [] {
      FilterAll(s[1..], keep);
    }
  }

  /** `s.split(sep)` for a one-character separator: the pieces between separators, so there is
      always one more piece than separators, and an empty string gives one empty piece. */
  function Split(s: string, sep: char): (parts: seq<string>)
    ensures |parts| >= 1
    ensures forall k :: 0 <= k < |parts| ==> sep !in parts[k]
  {
    if s == [] then [""]
    else
      var rest := Split(s[1..], sep);
      if s[0] == sep then [""] + rest else [[s[0]] + rest[0]] + rest[1..]
  }

  /** `parts.join(sep)` for an array of strings. */
  function Join(parts: seq<string>, sep: string): string {
    if |parts| == 0 then ""
    else if |parts| == 1 then parts[0]
    else parts[0] + sep + Join(parts[1..], sep)
  }

  /** A join starts with the first part, then the separator when there are more, and ends with
      the last part; no parts join to the empty string. */
  lemma {:induction false} JoinEnds(parts: seq<string>, sep: string)
    ensures parts == [] ==> Join(parts, sep) == ""
    ensures parts != [] ==> Join(parts, sep)[..|parts[0]|] == parts[0]
    ensures parts != [] ==> var r := Join(parts, sep); var last := parts[|parts| - 1];
      |r| >= |last| && r[|r| - |last|..] == last
    ensures |parts| > 1 ==> Join(parts, sep)[|parts[0]|..|parts[0]| + |sep|] == sep
  {
    if |parts| > 1 {
      JoinEnds(parts[1..], sep);
      var rest := Join(parts[1..], sep);
      assert Join(parts, sep) == parts[0] + sep + rest;
      assert parts[|parts| - 1] == parts[1..][|parts[1..]| - 1];
    }
  }

  /** Joining the pieces of a split with the separator gives the string back. */
  lemma {:induction false} SplitJoin(s: string, sep: char)
    ensures Join(Split(s, sep), [sep]) == s
  {
    if s != [] {
      SplitJoin(s[1..], sep);
      var rest := Split(s[1..], sep);
      if s[0] != sep && |rest| > 1 {
        assert ([[s[0]] + rest[0]] + rest[1..])[1..] == rest[1..];
      }
      if s[0] == sep {
        assert ([""] + rest)[1..] == rest;
      }
    }
  }

  lemma {:induction false} SplitNoSep(s: string, sep: char)
    requires sep !in s
    ensures Split(s, sep) == [s]
  {
    if s != [] {
      assert sep !in s[1..] by {
        forall c | c in s[1..] ensures c != sep { assert c in s; }
      }
      SplitNoSep(s[1..], sep);
      assert [s[0]] + s[1..] == s;
    }
  }

  lemma {:induction false} SplitHasSep(s: string, sep: char)
    requires sep in s
    ensures |Split(s, sep)| >= 2
  {
    if s[0] != sep {
      SplitHasSep(s[1..], sep);
    }
  }

  /** A piece without the separator, then the separator: the piece comes off first. */
  lemma {:induction false} SplitAfterPiece(a: string, b: string, sep: char)
    requires sep !in a
    ensures Split(a + [sep] + b, sep) == [a] + Split(b, sep)
  {
    if a == [] {
      assert a + [sep] + b == [sep] + b;
      assert ([sep] + b)[1..] == b;
    } else {
      assert (a + [sep] + b)[1..] == a[1..] + [sep] + b;
      assert sep !in a[1..] by {
        forall c | c in a[1..] ensures c != sep { assert c in a; }
      }
      SplitAfterPiece(a[1..], b, sep);
      assert [a[0]] + a[1..] == a;
    }
  }

  lemma SplitFirst(s: string, sep: char)
    requires s != [] && s[0] != sep
    ensures Split(s, sep)[0] != [] && Split(s, sep)[0][0] == s[0]
  {
  }

  /** After the last separator comes the last piece. */
  lemma {:induction false} SplitLast(a: string, b: string, sep: char)
    requires a != [] && a[|a| - 1] == sep && sep !in b
    ensures |Split(a + b, sep)| >= 2
    ensures Split(a + b, sep)[|Split(a + b, sep)| - 1] == b
  {
    assert (a + b)[1..] == a[1..] + b;
    var rest := Split(a[1..] + b, sep);
    if |a| == 1 {
      assert a[1..] + b == b;
      SplitNoSep(b, sep);
    } else {
      SplitLast(a[1..], b, sep);
    }
    if a[0] != sep {
      assert Split(a + b, sep) == [[a[0]] + rest[0]] + rest[1..];
    }
  }

  /** The loosely typed values that React state objects hold here. */
  datatype Value =
    | Undefined
    | Null
    | Bool(b: bool)
    | Num(n: int)
    | NaN
    | Str(s: string)
    | Arr(elems: seq<Value>)
    | Rec(fields: map<string, Value>)

  /** An optional sign followed by at least one decimal digit. */
  predicate IsIntegerLiteral(s: string) {
    var digits := if s != [] && (s[0] == '-' || s[0] == '+') then s[1..] else s;
    digits != [] && forall i :: 0 <= i < |digits| ==> IsDigit(digits[i])
  }

  /** The number a run of decimal digits denotes. */
  function DecimalValue(s: string): nat {
    if s == [] then 0
    else
      var d := (s[|s| - 1] as int) - ('0' as int);
      DecimalValue(s[..|s| - 1]) * 10 + (if 0 <= d <= 9 then d else 0)
  }

  /** `Number(v)`: numbers as they are, `null` and `false` 0, `true` 1, a string by its trimmed
      text (empty is 0, an optionally signed decimal integer its value, anything else `NaN`), an
      array by its text (empty is 0, one element is read as that element's text, more elements
      are joined with commas and give `NaN`), and `NaN` for `undefined` and objects. */
  function ToNumber(v: Value): (r: Value)
    ensures r.Num? || r.NaN?
    ensures v.Num? ==> r == v
    ensures v.Null? || v == Bool(false) || v == Arr([]) ==> r == Num(0)
    ensures v == Bool(true) ==> r == Num(1)
    ensures v.Undefined? || v.Rec? ==> r == NaN
    ensures v.Str? && JsTrim(v.s) != "" && !IsIntegerLiteral(JsTrim(v.s)) ==> r == NaN
    ensures v.Str? && IsIntegerLiteral(JsTrim(v.s)) && JsTrim(v.s)[0] != '-' ==>
      r.Num? && r.n >= 0
    ensures v.Arr? && |v.elems| > 1 ==> r == NaN
  {
    match v
    case Num(_) => v
    case NaN => NaN
    case Null => Num(0)
    case Bool(b) => Num(if b then 1 else 0)
    case Str(s) =>
      var t := JsTrim(s);
      if t == "" then Num(0)
      else if !IsIntegerLiteral(t) then NaN
      else if t[0] == '-' then Num(0 - (DecimalValue(t[1..]) as int))
      else if t[0] == '+' then Num(DecimalValue(t[1..]))
      else Num(DecimalValue(t))
    case Arr(elems) =>
      if elems == [] then Num(0)
      else if |elems| > 1 then NaN
      else
        (match elems[0]
         case Null => Num(0)
         case Undefined => Num(0)
         case Num(_) => elems[0]
         case Str(_) => ToNumber(elems[0])
         case Arr(_) => ToNumber(elems[0])
         case _ => NaN)
    case _ => NaN
  }

  /** A positive number, as `n > 0` on a number: never `NaN`. */
  predicate IsPositive(v: Value) {
    v.Num? && v.n > 0
  }

  /** A plain object: property names to values. Key order is not modelled. */
  type Obj = map<string, Value>

  /** JavaScript truthiness of a value. */
  predicate Truthy(v: Value): (r: bool)
    ensures !r <==> v in {Undefined, Null, Bool(false), Num(0), NaN, Str("")}
  {
    match v
    case Undefined => false
    case Null => false
    case Bool(b) => b
    case Num(n) => n != 0
    case NaN => false
    case Str(s) => s != ""
    case Arr(_) => true
    case Rec(_) => true
  }

  /** Property access `o[k]`: a missing property reads as `undefined`. */
  function Get(o: Obj, k: string): (v: Value)
    ensures k !in o ==> v == Undefined
    ensures k in o ==> v == o[k]
  {
    if k in o then o[k] else Undefined
  }

  /** Object spread `{...a, ...b}`: every property of both, those of `b` winning. */
  function Spread(a: Obj, b: Obj): (r: Obj)
    ensures r.Keys == a.Keys + b.Keys
    ensures forall k :: k in b ==> r[k] == b[k]
    ensures forall k :: k in a && k !in b ==> r[k] == a[k]
  {
    a + b
  }

  /** `s.includes(t)` on strings. */
  predicate Contains(s: string, t: string) {
    exists i :: 0 <= i <= |s| - |t| && OccursAt(s, t, i)
  }

  predicate OccursAt(s: string, t: string, i: int) {
    0 <= i <= |s| - |t| && s[i..i + |t|] == t
  }

  /** `v?.includes(t)` for a text `t`: false (undefined) for a missing value, membership for an
      array, a text search for a string, and a TypeError for any other value, which has no
      `includes`. */
  function IncludesText(v: Value, t: string): (r: Result<bool, string>)
    ensures v.Undefined? || v.Null? ==> r == Ok(false)
    ensures v.Arr? ==> r == Ok(Str(t) in v.elems)
    ensures v.Str? ==> r == Ok(Contains(v.s, t))
    ensures r.Err? <==> !(v.Undefined? || v.Null? || v.Arr? || v.Str?)
  {
    match v
    case Undefined => Ok(false)
    case Null => Ok(false)
    case Arr(items) => Ok(Str(t) in items)
    case Str(s) => Ok(Contains(s, t))
    case _ => Err("TypeError")
  }

  /** `a === b`. NaN differs from itself; arrays and objects are compared by content, since the
      model has no object identity. */
  predicate StrictEquals(a: Value, b: Value): (r: bool)
    ensures a.NaN? || b.NaN? ==> !r
    ensures !a.NaN? ==> (r <==> a == b)
  {
    a == b && !a.NaN?
  }
}
