/** What the back end's user mapper relies on from java.util.Base64: the basic encoder and decoder
    of section 4 of RFC 4648 ("base64", with padding), with the decoder's handling of a final
    unit, and String.getBytes in UTF-8, the platform's default character set. */
module Base64 {
  import opened Wrappers

  newtype byte = x: int | 0 <= x < 256

  /** The character of a 6-bit value in the alphabet of Table 1 of RFC 4648. */
  function CharOf(v: int): (c: char)
    requires 0 <= v < 64
  {
    if v < 26 then ('A' as int + v) as char
    else if v < 52 then ('a' as int + (v - 26)) as char
    else if v < 62 then ('0' as int + (v - 52)) as char
    else if v == 62 then '+'
    else '/'
  }

  /** The 6-bit value of an alphabet character; `None` for the padding character and every
      other character. */
  function ValueOf(c: char): (r: Option<int>)
    ensures r.Some? ==> 0 <= r.value < 64
  {
    if 'A' <= c <= 'Z' then Some(c as int - 'A' as int)
    else if 'a' <= c <= 'z' then Some(c as int - 'a' as int + 26)
    else if '0' <= c <= '9' then Some(c as int - '0' as int + 52)
    else if c == '+' then Some(62)
    else if c == '/' then Some(63)
    else None
  }

  lemma ValueOfCharOf(v: int)
    requires 0 <= v < 64
    ensures ValueOf(CharOf(v)) == Some(v)
  {
  }

  predicate InAlphabet(c: char) {
    ValueOf(c).Some?
  }

  // ---------------------------------------------------------------- encoding

  /** The four characters of three bytes. */
  function Quad(b0: int, b1: int, b2: int): (s: string)
    requires 0 <= b0 < 256 && 0 <= b1 < 256 && 0 <= b2 < 256
    ensures |s| == 4 && forall i :: 0 <= i < 4 ==> InAlphabet(s[i])
  {
    ValueOfCharOf(b0 / 4);
    ValueOfCharOf((b0 % 4) * 16 + b1 / 16);
    ValueOfCharOf((b1 % 16) * 4 + b2 / 64);
    ValueOfCharOf(b2 % 64);
    [CharOf(b0 / 4), CharOf((b0 % 4) * 16 + b1 / 16), CharOf((b1 % 16) * 4 + b2 / 64), CharOf(b2 % 64)]
  }

  /** `Base64.getEncoder().encodeToString`: every three bytes become four characters, and a
      final one or two bytes become the first two or three characters of their unit (the
      missing bytes taken as zero) followed by `==` or `=`. */
  function Encode(b: seq<byte>): (s: string)
    ensures |s| == 4 * ((|b| + 2) / 3)
    ensures forall i :: 0 <= i < |s| ==> InAlphabet(s[i]) || s[i] == '='
    decreases |b|
  {
    if |b| == 0 then ""
    else if |b| == 1 then Quad(b[0] as int, 0, 0)[..2] + "=="
    else if |b| == 2 then Quad(b[0] as int, b[1] as int, 0)[..3] + "="
    else Quad(b[0] as int, b[1] as int, b[2] as int) + Encode(b[3..])
  }

  // ---------------------------------------------------------------- decoding

  /** The bytes of four 6-bit values. */
  function Unit(v0: int, v1: int, v2: int, v3: int): (r: seq<byte>)
    requires 0 <= v0 < 64 && 0 <= v1 < 64 && 0 <= v2 < 64 && 0 <= v3 < 64
    ensures |r| == 3
  {
    [(v0 * 4 + v1 / 16) as byte, ((v1 % 16) * 16 + v2 / 4) as byte, ((v2 % 4) * 64 + v3) as byte]
  }

  /** `Base64.getDecoder().decode`: `None` where Java throws IllegalArgumentException. Complete
      units of four alphabet characters give three bytes each. The last unit may have two or
      three characters, with or without its padding (`==` after two, `=` after three), and
      gives one or two bytes; the unused low bits of its last character are ignored. A unit of
      one character, padding anywhere else, anything after the padding, and any character
      outside the alphabet are errors. */
  function Decode(s: string): (r: Option<seq<byte>>)
    ensures s == [] ==> r == Some([])
    ensures r.Some? ==> 4 * |r.value| <= 3 * |s|
    decreases |s|
  {
    if s == [] then Some([])
    else if |s| >= 4 && InAlphabet(s[0]) && InAlphabet(s[1]) && InAlphabet(s[2]) && InAlphabet(s[3]) then
      match Decode(s[4..])
      case None => None
      case Some(rest) =>
        Some(Unit(ValueOf(s[0]).value, ValueOf(s[1]).value, ValueOf(s[2]).value, ValueOf(s[3]).value) + rest)
    else if |s| >= 2 && InAlphabet(s[0]) && InAlphabet(s[1]) && (|s| == 2 || s[2..] == "==") then
      Some(Unit(ValueOf(s[0]).value, ValueOf(s[1]).value, 0, 0)[..1])
    else if |s| >= 3 && InAlphabet(s[0]) && InAlphabet(s[1]) && InAlphabet(s[2]) && (|s| == 3 || s[3..] == "=") then
      Some(Unit(ValueOf(s[0]).value, ValueOf(s[1]).value, ValueOf(s[2]).value, 0)[..2])
    else None
  }

  /** Three bytes survive a trip through their four characters. */
  lemma UnitOfEncoded(b0: int, b1: int, b2: int)
    requires 0 <= b0 < 256 && 0 <= b1 < 256 && 0 <= b2 < 256
    ensures Unit(b0 / 4, (b0 % 4) * 16 + b1 / 16, (b1 % 16) * 4 + b2 / 64, b2 % 64)
      == [b0 as byte, b1 as byte, b2 as byte]
  {
    var v1 := (b0 % 4) * 16 + b1 / 16;
    var v2 := (b1 % 16) * 4 + b2 / 64;
    assert v1 / 16 == b0 % 4 && v1 % 16 == b1 / 16;
    assert v2 / 4 == b1 % 16 && v2 % 4 == b2 / 64;
  }

  /** The four characters of three bytes decode to them. */
  lemma DecodeQuad(b0: int, b1: int, b2: int)
    requires 0 <= b0 < 256 && 0 <= b1 < 256 && 0 <= b2 < 256
    ensures var q := Quad(b0, b1, b2);
      Unit(ValueOf(q[0]).value, ValueOf(q[1]).value, ValueOf(q[2]).value, ValueOf(q[3]).value)
      == [b0 as byte, b1 as byte, b2 as byte]
  {
    ValueOfCharOf(b0 / 4);
    ValueOfCharOf((b0 % 4) * 16 + b1 / 16);
    ValueOfCharOf((b1 % 16) * 4 + b2 / 64);
    ValueOfCharOf(b2 % 64);
    UnitOfEncoded(b0, b1, b2);
  }

  lemma DecodeEncodeOne(b: seq<byte>)
    requires |b| == 1
    ensures Decode(Encode(b)) == Some(b)
  {
    var q := Quad(b[0] as int, 0, 0);
    var s := Encode(b);
    assert s == [q[0], q[1], '=', '='];
    assert s[2..] == "==";
    DecodeQuad(b[0] as int, 0, 0);
    var v0, v1 := ValueOf(q[0]).value, ValueOf(q[1]).value;
    assert Unit(v0, v1, 0, 0)[0] == Unit(v0, v1, ValueOf(q[2]).value, ValueOf(q[3]).value)[0];
    assert Decode(s) == Some(Unit(v0, v1, 0, 0)[..1]);
    assert Unit(v0, v1, 0, 0)[..1] == [b[0]] == b;
  }

  lemma DecodeEncodeTwo(b: seq<byte>)
    requires |b| == 2
    ensures Decode(Encode(b)) == Some(b)
  {
    var q := Quad(b[0] as int, b[1] as int, 0);
    var s := Encode(b);
    assert s == [q[0], q[1], q[2], '='];
    assert s[2..] != "==" by {
      assert s[2..][0] == q[2];
    }
    assert s[3..] == "=";
    DecodeQuad(b[0] as int, b[1] as int, 0);
    var v0, v1, v2 := ValueOf(q[0]).value, ValueOf(q[1]).value, ValueOf(q[2]).value;
    assert Unit(v0, v1, v2, 0)[..2] == Unit(v0, v1, v2, ValueOf(q[3]).value)[..2];
    assert Decode(s) == Some(Unit(v0, v1, v2, 0)[..2]);
    assert Unit(v0, v1, v2, 0)[..2] == [b[0], b[1]] == b;
  }

  /** Decoding what the encoder produced gives the bytes back. */
  lemma {:induction false} DecodeEncode(b: seq<byte>)
    ensures Decode(Encode(b)) == Some(b)
    decreases |b|
  {
    if |b| == 1 {
      DecodeEncodeOne(b);
    } else if |b| == 2 {
      DecodeEncodeTwo(b);
    } else if |b| >= 3 {
      var q := Quad(b[0] as int, b[1] as int, b[2] as int);
      var s := Encode(b);
      DecodeQuad(b[0] as int, b[1] as int, b[2] as int);
      DecodeEncode(b[3..]);
      assert s[..4] == q && s[4..] == Encode(b[3..]);
      assert [b[0], b[1], b[2]] + b[3..] == b;
    }
  }

  /** A one-character final unit is an error, with or without padding. */
  lemma LoneCharacterRejected(c: char)
    ensures Decode([c]).None?
    ensures Decode([c, '=', '=', '=']).None?
  {
  }

  /** Padding must be complete: two characters and a single `=` are an error, as is anything
      after the padding. */
  lemma IncompletePaddingRejected(c0: char, c1: char, c2: char)
    requires InAlphabet(c0) && InAlphabet(c1)
    ensures Decode([c0, c1, '=']).None?
    ensures Decode([c0, c1, '=', '=', c2]).None?
  {
    assert [c0, c1, '='][2..] == "=";
    assert [c0, c1, '=', '=', c2][2..] != "==";
  }

  /** Unpadded input decodes as if padded. */
  lemma PaddingOptional(c0: char, c1: char, c2: char)
    requires InAlphabet(c0) && InAlphabet(c1) && InAlphabet(c2)
    ensures Decode([c0, c1]) == Decode([c0, c1, '=', '='])
    ensures Decode([c0, c1, c2]) == Decode([c0, c1, c2, '='])
  {
    assert [c0, c1, '=', '='][2..] == "==";
    assert [c0, c1, c2, '='][3..] == "=";
  }

  // ---------------------------------------------------------------- String.getBytes

  /** The UTF-8 encoding of one character. */
  function Utf8Char(c: char): (r: seq<byte>)
    ensures 1 <= |r| <= 4
    ensures (c as int < 0x80) <==> |r| == 1
  {
    var n := c as int;
    if n < 0x80 then [n as byte]
    else if n < 0x800 then [(0xC0 + n / 64) as byte, (0x80 + n % 64) as byte]
    else if n < 0x10000 then [(0xE0 + n / 4096) as byte, (0x80 + (n / 64) % 64) as byte, (0x80 + n % 64) as byte]
    else [(0xF0 + n / 262144) as byte, (0x80 + (n / 4096) % 64) as byte, (0x80 + (n / 64) % 64) as byte, (0x80 + n % 64) as byte]
  }

  /** `String.getBytes()` in UTF-8. */
  function Utf8(s: string): (r: seq<byte>)
    ensures |r| >= |s|
  {
    if s == [] then [] else Utf8Char(s[0]) + Utf8(s[1..])
  }

  /** The bytes of an ASCII text are its character codes. */
  lemma {:induction false} Utf8OfAscii(s: string)
    requires forall i :: 0 <= i < |s| ==> s[i] as int < 0x80
    ensures |Utf8(s)| == |s|
    ensures forall i :: 0 <= i < |s| ==> Utf8(s)[i] as int == s[i] as int
  {
    if s != [] {
      Utf8OfAscii(s[1..]);
    }
  }
}
