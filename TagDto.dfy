/** The tag of a post request (backend/src/main/java/com/blog/posts/dto/request/TagDTO.java):
    its name is stored trimmed and lower-cased, so that tags are looked up by a canonical name. */
module TagDto {
  import opened Wrappers
  import opened Js

  /** A tag as the post request carries it; Java's null is `None`. */
  datatype TagDto = TagDto(name: Option<string>, slug: Option<string>, description: Option<string>)

  /** The name `setName` stores: null stays null, any other name is trimmed as `String.trim`
      does and then lower-cased. */
  function NormalizeName(name: Option<string>): (r: Option<string>)
    ensures name.None? <==> r.None?
    ensures r.Some? ==> |r.value| <= |name.value|
    ensures r.Some? ==> forall i :: 0 <= i < |r.value| ==> !IsAsciiUpper(r.value[i])
  {
    match name
    case None => None
    case Some(s) => Some(Lower(JavaTrim(s)))
  }

  /** `setName`: only the name changes. */
  function SetName(dto: TagDto, name: Option<string>): (r: TagDto)
    ensures r.name == NormalizeName(name)
    ensures r.slug == dto.slug && r.description == dto.description
  {
    dto.(name := NormalizeName(name))
  }

  /** Lower-casing keeps the characters `String.trim` removes, and keeps the others out of
      that class. */
  lemma LowerKeepsTrimmable(c: char)
    ensures IsJavaTrimmable(AsciiLower(c)) <==> IsJavaTrimmable(c)
  {
  }

  /** The stored name neither starts nor ends with a character `String.trim` removes. */
  lemma NormalizedNameTrimmed(name: string)
    ensures var r := NormalizeName(Some(name)).value;
      r == [] || (!IsJavaTrimmable(r[0]) && !IsJavaTrimmable(r[|r| - 1]))
  {
    var t := JavaTrim(name);
    TrimProperties(name, IsJavaTrimmable);
    var r := Lower(t);
    if r != [] {
      LowerKeepsTrimmable(t[0]);
      LowerKeepsTrimmable(t[|t| - 1]);
    }
  }

  /** A text with no removable ends and no capitals is its own normal form. */
  lemma NormalFormFixed(r: string)
    requires r == [] || (!IsJavaTrimmable(r[0]) && !IsJavaTrimmable(r[|r| - 1]))
    requires forall i :: 0 <= i < |r| ==> !IsAsciiUpper(r[i])
    ensures Lower(JavaTrim(r)) == r
  {
    TrimOfTrimmed(r, IsJavaTrimmable);
    LowerOfLower(r);
  }

  /** Normalising a normalised name changes nothing, so setting the name read from a tag stores
      the same name again. */
  lemma NormalizeIdempotent(name: Option<string>)
    ensures NormalizeName(NormalizeName(name)) == NormalizeName(name)
  {
    if name.Some? {
      var r := NormalizeName(name).value;
      NormalizedNameTrimmed(name.value);
      NormalFormFixed(r);
    }
  }

  /** Blanks in front of a name do not change what is stored. */
  lemma LeadingBlankIgnored(c: char, name: string)
    requires IsJavaTrimmable(c)
    ensures NormalizeName(Some([c] + name)) == NormalizeName(Some(name))
  {
    assert ([c] + name)[1..] == name;
  }

  lemma {:induction false} TrimStartOfUpper(s: string)
    ensures TrimStart(Upper(s), IsJavaTrimmable) == Upper(TrimStart(s, IsJavaTrimmable))
  {
    if s != [] {
      LowerKeepsTrimmable(AsciiUpper(s[0]));
      assert Upper(s)[1..] == Upper(s[1..]);
      TrimStartOfUpper(s[1..]);
    }
  }

  lemma {:induction false} TrimEndOfUpper(s: string)
    ensures TrimEnd(Upper(s), IsJavaTrimmable) == Upper(TrimEnd(s, IsJavaTrimmable))
    decreases |s|
  {
    if s != [] {
      var n := |s| - 1;
      assert Upper(s)[..n] == Upper(s[..n]);
      TrimEndOfUpper(s[..n]);
    }
  }

  /** Upper-case letters in a name do not change what is stored. */
  lemma CaseIgnored(name: string)
    ensures NormalizeName(Some(Upper(name))) == NormalizeName(Some(name))
  {
    TrimStartOfUpper(name);
    TrimEndOfUpper(TrimStart(name, IsJavaTrimmable));
    var t := JavaTrim(name);
    assert JavaTrim(Upper(name)) == Upper(t);
    LowerOfUpper(t);
  }

  lemma LowerOfUpper(t: string)
    ensures Lower(Upper(t)) == Lower(t)
  {
    var u := Upper(t);
    forall i | 0 <= i < |t|
      ensures Lower(u)[i] == Lower(t)[i]
    {
      assert u[i] == AsciiUpper(t[i]);
    }
  }
}
