/**
 * JavaScript strings as the backend sees them. A JavaScript string is a
 * sequence of UTF-16 code units: `length` counts code units, and a regular
 * expression without the `u` flag reads one code unit at a time. A character
 * outside the Basic Multilingual Plane therefore counts twice.
 */
module JsText {
  /** One UTF-16 code unit. */
  newtype CodeUnit = x: int | 0 <= x < 0x1_0000

  /** A JavaScript string value. */
  type JsString = seq<CodeUnit>

  /** A character that UTF-16 stores in a single code unit. */
  predicate IsBmp(c: char) {
    (c as int) < 0x1_0000
  }

  /** The code unit of a character of the Basic Multilingual Plane. */
  function Unit(c: char): CodeUnit
    requires IsBmp(c)
  {
    c as int as CodeUnit
  }

  /** The UTF-16 encoding of one character: a surrogate pair above U+FFFF. */
  function EncodeChar(c: char): (r: JsString)
    ensures |r| == if IsBmp(c) then 1 else 2
  {
    if IsBmp(c) then [Unit(c)]
    else
      var w := c as int - 0x1_0000;
      [(0xD800 + w / 0x400) as CodeUnit, (0xDC00 + w % 0x400) as CodeUnit]
  }

  /** The JavaScript string holding the text `s`. */
  function Utf16(s: string): JsString {
    if s == [] then [] else EncodeChar(s[0]) + Utf16(s[1..])
  }

  /** Text made only of BMP characters is stored one code unit per character. */
  lemma {:induction false} Utf16OfBmp(s: string)
    requires forall i :: 0 <= i < |s| ==> IsBmp(s[i])
    ensures |Utf16(s)| == |s|
    ensures forall i :: 0 <= i < |s| ==> Utf16(s)[i] == Unit(s[i])
  {
    if s != [] {
      Utf16OfBmp(s[1..]);
      assert Utf16(s) == [Unit(s[0])] + Utf16(s[1..]);
    }
  }

  /** Text made only of characters above U+FFFF takes two code units per character. */
  lemma {:induction false} Utf16OfAstral(s: string)
    requires forall i :: 0 <= i < |s| ==> !IsBmp(s[i])
    ensures |Utf16(s)| == 2 * |s|
  {
    if s != [] {
      Utf16OfAstral(s[1..]);
    }
  }
}
