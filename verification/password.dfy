/**
 The password check of the login form: the regular expression
 `^(?=.*[a-z])(?=.*[A-Z])(?=.*\d).{8,}$`, with no flags.

 Without the `m` flag `^` and `$` only match at the ends of the input, and
 `.` matches any code unit except a line terminator. Without the `u` flag the
 input is read as UTF-16 code units, so `.{8,}` counts code units, not
 characters.
 */
module PasswordPattern {
  import opened Chars

  /** The three classes the lookaheads look for. */
  datatype Class = Lower | Upper | Digit

  predicate InClass(c: Class, u: CodeUnit) {
    match c
    case Lower => IsAsciiLower(u)
    case Upper => IsAsciiUpper(u)
    case Digit => IsAsciiDigit(u)
  }

  /** `.*` matches all of `s[..j]`. */
  predicate DotsUpTo(s: JsString, j: nat)
    requires j <= |s|
  {
    forall k | 0 <= k < j :: !IsLineTerminator(s[k])
  }

  /** The lookahead `(?=.*C)` at the start of `s`: `.*` can stop just before a
      unit of class C. */
  ghost predicate LookaheadFinds(s: JsString, c: Class) {
    exists j | 0 <= j < |s| :: DotsUpTo(s, j) && InClass(c, s[j])
  }

  /** The language of `^(?=.*[a-z])(?=.*[A-Z])(?=.*\d).{8,}$`. */
  ghost predicate Matches(s: JsString) {
    && LookaheadFinds(s, Lower)
    && LookaheadFinds(s, Upper)
    && LookaheadFinds(s, Digit)
    && |s| >= 8 && DotsUpTo(s, |s|)
  }

  /** `s` contains a unit of class `c` somewhere. */
  predicate Contains(s: JsString, c: Class) {
    exists k | 0 <= k < |s| :: InClass(c, s[k])
  }

  /** The password rule in plain words: at least eight code units, a lower-case
      letter, an upper-case letter and a digit, and no line terminator. */
  ghost predicate Strong(s: JsString) {
    && |s| >= 8
    && Contains(s, Lower) && Contains(s, Upper) && Contains(s, Digit)
    && forall k | 0 <= k < |s| :: !IsLineTerminator(s[k])
  }

  /** Once `.{8,}$` has checked the whole input, every lookahead is the plain
      question whether the class occurs at all. */
  lemma MatchesIffStrong(s: JsString)
    ensures Matches(s) <==> Strong(s)
  {
  }

  /** Which of the three classes the scan has met so far. */
  datatype Seen = Seen(lower: bool, upper: bool, digit: bool) {
    function Note(u: CodeUnit): Seen {
      Seen(lower || IsAsciiLower(u), upper || IsAsciiUpper(u), digit || IsAsciiDigit(u))
    }
    predicate All() {
      lower && upper && digit
    }
  }

  /** `c` was met before index `i` or occurs in `s[i..]`. */
  predicate Found(s: JsString, i: nat, seen: Seen, c: Class)
    requires i <= |s|
  {
    var before := match c
      case Lower => seen.lower
      case Upper => seen.upper
      case Digit => seen.digit;
    before || exists k | i <= k < |s| :: InClass(c, s[k])
  }

  /** One pass over `s[i..]` that stops at the first line terminator and
      otherwise notes which classes occur. */
  function Scan(s: JsString, i: nat, seen: Seen): (ok: bool)
    requires i <= |s|
    ensures ok <==>
      && (forall k | i <= k < |s| :: !IsLineTerminator(s[k]))
      && Found(s, i, seen, Lower) && Found(s, i, seen, Upper) && Found(s, i, seen, Digit)
    decreases |s| - i
  {
    if i == |s| then seen.All()
    else if IsLineTerminator(s[i]) then false
    else Scan(s, i + 1, seen.Note(s[i]))
  }

  /** `validatePassword`: the length test and one scan. */
  function ValidatePassword(password: JsString): (ok: bool)
    ensures ok <==> Matches(password)
    ensures ok <==> Strong(password)
  {
    MatchesIffStrong(password);
    |password| >= 8 && Scan(password, 0, Seen(false, false, false))
  }
}
