/** The hand-written conversions of the back end's user mapper
    (backend/src/main/java/com/blog/auth/mapper/UserMapper.java) between a profile image as
    bytes and as Base64 text. Java's null is `None`; a thrown IllegalArgumentException is
    `Err`. */
module UserMapper {
  import opened Wrappers
  import opened Js
  import opened Base64

  /** `stringToByteArray`: null or blank text gives null; Base64 text gives its bytes; any other
      text gives its own bytes, so the conversion never throws. */
  function StringToByteArray(value: Option<string>): (r: Option<seq<byte>>)
    ensures value.None? || JavaTrim(value.value) == [] <==> r.None?
    ensures value.Some? && JavaTrim(value.value) != [] && Decode(value.value).Some? ==> r == Decode(value.value)
    ensures value.Some? && JavaTrim(value.value) != [] && Decode(value.value).None? ==> r == Some(Utf8(value.value))
  {
    match value
    case None => None
    case Some(s) =>
      if JavaTrim(s) == [] then None
      else match Decode(s)
        case Some(bytes) => Some(bytes)
        case None => Some(Utf8(s))
  }

  /** `map(byte[])`: null stays null, bytes become their Base64 text. */
  function MapBytes(value: Option<seq<byte>>): (r: Option<string>)
    ensures value.None? <==> r.None?
    ensures r.Some? ==> Decode(r.value) == value
  {
    match value
    case None => None
    case Some(b) =>
      DecodeEncode(b);
      Some(Encode(b))
  }

  /** `map(String)`: null stays null, Base64 text becomes its bytes, and any other text throws:
      unlike `stringToByteArray` there is no fallback. */
  function MapString(value: Option<string>): (r: Result<Option<seq<byte>>, string>)
    ensures value.None? ==> r == Ok(None)
    ensures value.Some? ==> (r.Err? <==> Decode(value.value).None?)
    ensures value.Some? && r.Ok? ==> r.value == Decode(value.value)
  {
    match value
    case None => Ok(None)
    case Some(s) =>
      match Decode(s)
      case None => Err("IllegalArgumentException")
      case Some(bytes) => Ok(Some(bytes))
  }

  /** The characters of Base64 text are not blanks. */
  lemma EncodedNotBlank(b: seq<byte>)
    ensures forall i :: 0 <= i < |Encode(b)| ==> !IsJavaTrimmable(Encode(b)[i])
  {
  }

  /** Non-empty bytes survive the trip through their Base64 text and back through
      `stringToByteArray`; empty bytes come back as null, since their text is empty. */
  lemma StringToByteArrayOfMapped(b: seq<byte>)
    ensures b != [] ==> StringToByteArray(MapBytes(Some(b))) == Some(b)
    ensures b == [] ==> StringToByteArray(MapBytes(Some(b))).None?
  {
    var s := Encode(b);
    DecodeEncode(b);
    EncodedNotBlank(b);
    if b != [] {
      TrimOfTrimmed(s, IsJavaTrimmable);
    }
  }

  /** `map(String)` undoes `map(byte[])`, null included. */
  lemma MapStringOfMapBytes(value: Option<seq<byte>>)
    ensures MapString(MapBytes(value)) == Ok(value)
  {
  }

  /** Text that is not Base64 is kept as its bytes by `stringToByteArray` but makes
      `map(String)` throw. */
  lemma FallbackOnlyInStringToByteArray(s: string)
    requires JavaTrim(s) != [] && Decode(s).None?
    ensures StringToByteArray(Some(s)) == Some(Utf8(s))
    ensures MapString(Some(s)).Err?
  {
  }

  /** For instance a name with a space is not Base64. */
  lemma SpaceIsNotBase64(a: char, b: char)
    requires InAlphabet(a) && InAlphabet(b)
    ensures Decode([a, ' ', b]).None?
    ensures StringToByteArray(Some([a, ' ', b])) == Some(Utf8([a, ' ', b]))
  {
    assert JavaTrim([a, ' ', b]) != [] by {
      assert !IsJavaTrimmable(a) && !IsJavaTrimmable(b);
      TrimOfTrimmed([a, ' ', b], IsJavaTrimmable);
    }
  }
}
