/**
 JavaScript strings as the login form's validators see them: sequences of
 UTF-16 code units, with the character classes that ECMAScript regular
 expressions use (ECMA-262, sections 12.2, 12.3 and 22.2) and the ASCII part
 of `String.prototype.toLowerCase`.
 */
module Chars {

  /** One UTF-16 code unit: the element of a JavaScript string. */
  type CodeUnit = x: int | 0 <= x < 0x1_0000

  /** A JavaScript string value. */
  type JsString = seq<CodeUnit>

  /** The UTF-16 encoding of one Unicode scalar value: one code unit inside
      the Basic Multilingual Plane, a surrogate pair outside it. */
  function EncodeChar(c: char): (r: JsString)
    ensures |r| == 1 <==> (c as int) < 0x1_0000
    ensures |r| == 1 ==> r[0] == c as int
    ensures |r| == 2 ==> 0xD800 <= r[0] < 0xDC00 <= r[1] < 0xE000
  {
    var cp := c as int;
    if cp < 0x1_0000 then [cp]
    else
      var v := cp - 0x1_0000;
      [0xD800 + v / 0x400, 0xDC00 + v % 0x400]
  }

  /** The JavaScript string holding the same text as a Dafny string. */
  function Encode(s: string): (r: JsString)
    ensures |r| >= |s|
    ensures InBmp(s) ==> |r| == |s| && forall i | 0 <= i < |s| :: r[i] == s[i] as int
  {
    if |s| == 0 then [] else EncodeChar(s[0]) + Encode(s[1..])
  }

  /** The JavaScript string for text inside the Basic Multilingual Plane,
      where every character is one code unit. */
  function Units(s: string): (r: JsString)
    requires InBmp(s)
  {
    seq(|s|, i requires 0 <= i < |s| => s[i] as int)
  }

  /** Every character of `s` is a single UTF-16 code unit. */
  predicate InBmp(s: string) {
    forall i | 0 <= i < |s| :: (s[i] as int) < 0x1_0000
  }

  /** Encoding is done character by character, so it distributes over
      concatenation. */
  lemma {:induction false} EncodeAppend(a: string, b: string)
    ensures Encode(a + b) == Encode(a) + Encode(b)
    decreases |a|
  {
    if |a| > 0 {
      calc {
        Encode(a + b);
        { assert (a + b)[1..] == a[1..] + b; }
        EncodeChar(a[0]) + Encode(a[1..] + b);
        { EncodeAppend(a[1..], b); }
        EncodeChar(a[0]) + (Encode(a[1..]) + Encode(b));
      }
    } else {
      assert a + b == b;
    }
  }

  /** LineTerminator (ECMA-262, section 12.3): LF, CR, LINE SEPARATOR and
      PARAGRAPH SEPARATOR. These are what `.` refuses to match. */
  predicate IsLineTerminator(u: CodeUnit) {
    u == 0x0A || u == 0x0D || u == 0x2028 || u == 0x2029
  }

  /** The Unicode "Space_Separator" (Zs) general category. */
  predicate IsSpaceSeparator(u: CodeUnit) {
    || u == 0x20 || u == 0xA0 || u == 0x1680
    || (0x2000 <= u <= 0x200A)
    || u == 0x202F || u == 0x205F || u == 0x3000
  }

  /** WhiteSpace (ECMA-262, section 12.2): TAB, VT, FF, ZWNBSP and every Zs. */
  predicate IsWhiteSpace(u: CodeUnit) {
    u == 0x09 || u == 0x0B || u == 0x0C || u == 0xFEFF || IsSpaceSeparator(u)
  }

  /** The class escape `\s`: WhiteSpace or LineTerminator. */
  predicate IsRegExpSpace(u: CodeUnit) {
    IsWhiteSpace(u) || IsLineTerminator(u)
  }

  /** `[a-z]` */
  predicate IsAsciiLower(u: CodeUnit) {
    0x61 <= u <= 0x7A
  }

  /** `[A-Z]` */
  predicate IsAsciiUpper(u: CodeUnit) {
    0x41 <= u <= 0x5A
  }

  /** `\d`, which is `[0-9]` */
  predicate IsAsciiDigit(u: CodeUnit) {
    0x30 <= u <= 0x39
  }

  /** Lower-cases one code unit (ASCII letters only). */
  function ToLower(u: CodeUnit): (r: CodeUnit)
    ensures IsAsciiUpper(u) ==> IsAsciiLower(r) && r - u == 0x20
    ensures !IsAsciiUpper(u) ==> r == u
    ensures !IsAsciiUpper(r)
  {
    if IsAsciiUpper(u) then u + 0x20 else u
  }

  /** Lower-cases a string code unit by code unit. */
  function LowerCase(s: JsString): (r: JsString)
    ensures |r| == |s|
    ensures forall i | 0 <= i < |s| :: r[i] == ToLower(s[i])
  {
    if |s| == 0 then [] else [ToLower(s[0])] + LowerCase(s[1..])
  }

  /** Lower-casing never creates or removes a `\s` character: an upper-case
      letter and its lower-case form are both outside the class. */
  lemma ToLowerKeepsSpaces(u: CodeUnit)
    ensures IsRegExpSpace(ToLower(u)) <==> IsRegExpSpace(u)
  {
  }
}
