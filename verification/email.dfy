/**
 The email check of the login form: the regular expression
 `^[^\s@]+@[^\s@]+\.[^\s@]+$` matched against the lower-cased input.

 `Matches` is what the expression means under ECMAScript semantics: the whole
 string is the concatenation of its five pieces, for SOME choice of where the
 pieces meet (a backtracking engine tries the choices one by one; the domain
 may contain several dots, any of which can serve as the `\.`).
 `ValidateEmail` is a single left-to-right pass of a seven-state automaton
 that makes no choices, and it is proved to accept exactly `Matches`.
 */
module EmailPattern {
  import opened Chars

  /** '@' */
  const AT: CodeUnit := 0x40
  /** '.' */
  const DOT: CodeUnit := 0x2E

  /** The class `[^\s@]` shared by the three runs of the pattern. */
  predicate IsAtom(u: CodeUnit) {
    !IsRegExpSpace(u) && u != AT
  }

  /** `[^\s@]+` matches all of `t`. */
  predicate AtomRun(t: JsString) {
    |t| > 0 && forall k | 0 <= k < |t| :: IsAtom(t[k])
  }

  /** The language of `^[^\s@]+@[^\s@]+\.[^\s@]+$`. */
  ghost predicate Matches(s: JsString) {
    exists local, host, tld ::
      && AtomRun(local) && AtomRun(host) && AtomRun(tld)
      && s == local + [AT] + host + [DOT] + tld
  }

  /** Every code unit of `s[lo..hi]` is in `[^\s@]`. */
  predicate AllAtoms(s: JsString, lo: nat, hi: nat)
    requires lo <= hi <= |s|
  {
    forall k | lo <= k < hi :: IsAtom(s[k])
  }

  /** No code unit of `s[lo..hi]` is a dot. */
  predicate NoDots(s: JsString, lo: nat, hi: nat)
    requires lo <= hi <= |s|
  {
    forall k | lo <= k < hi :: s[k] != DOT
  }

  /** `s` matches the pattern with its '@' at index `at` and the escaped dot
      at index `dot`. */
  predicate SplitsAt(s: JsString, at: nat, dot: nat) {
    && 0 < at && at + 1 < dot && dot + 1 < |s|
    && s[at] == AT && s[dot] == DOT
    && AllAtoms(s, 0, at) && AllAtoms(s, at + 1, |s|)
  }

  /** The index form of `Matches`. */
  ghost predicate Shaped(s: JsString) {
    exists at: nat, dot: nat :: SplitsAt(s, at, dot)
  }

  /** Any '@' of a matching string is THE '@': there is exactly one. */
  lemma SoleAt(s: JsString, at: nat, dot: nat, j: nat)
    requires SplitsAt(s, at, dot)
    requires j < |s| && s[j] == AT
    ensures j == at
  {
  }

  lemma {:induction false} ShapedIffMatches(s: JsString)
    ensures Shaped(s) <==> Matches(s)
  {
    if Shaped(s) {
      var at: nat, dot: nat :| SplitsAt(s, at, dot);
      var local, host, tld := s[..at], s[at + 1..dot], s[dot + 1..];
      assert AtomRun(local) by {
        forall k | 0 <= k < |local| ensures IsAtom(local[k]) {
          assert local[k] == s[k];
        }
      }
      assert AtomRun(host) by {
        forall k | 0 <= k < |host| ensures IsAtom(host[k]) {
          assert host[k] == s[at + 1 + k];
        }
      }
      assert AtomRun(tld) by {
        forall k | 0 <= k < |tld| ensures IsAtom(tld[k]) {
          assert tld[k] == s[dot + 1 + k];
        }
      }
      assert s == local + [AT] + host + [DOT] + tld by {
        assert s == s[..at] + [s[at]] + s[at + 1..dot] + [s[dot]] + s[dot + 1..];
      }
    }
    if Matches(s) {
      var local, host, tld :|
        && AtomRun(local) && AtomRun(host) && AtomRun(tld)
        && s == local + [AT] + host + [DOT] + tld;
      var at := |local|;
      var dot := |local| + 1 + |host|;
      assert s[at] == AT;
      assert s[dot] == DOT;
      forall k | 0 <= k < at ensures IsAtom(s[k]) {
        assert s[k] == local[k];
      }
      forall k | at + 1 <= k < |s| ensures IsAtom(s[k]) {
        if k < dot {
          assert s[k] == host[k - at - 1];
        } else if k > dot {
          assert s[k] == tld[k - dot - 1];
        }
      }
      assert SplitsAt(s, at, dot);
    }
  }

  // ---------------------------------------------------------------------
  // The automaton

  /** What the part of the input read so far looks like. */
  datatype Scan =
    | Start      // nothing read
    | Local      // a non-empty `[^\s@]+`
    | AtSign     // the local part and its '@'
    | Host       // ... and a non-empty domain with no dot past its first unit
    | HostDot    // ... whose last unit is such a dot
    | Complete   // ... and a dot past the first unit is followed by more text
    | Reject     // no continuation can match

  function Step(q: Scan, u: CodeUnit): Scan {
    match q
    case Start => if IsAtom(u) then Local else Reject
    case Local => if u == AT then AtSign else if IsAtom(u) then Local else Reject
    case AtSign => if IsAtom(u) then Host else Reject
    case Host => if u == DOT then HostDot else if IsAtom(u) then Host else Reject
    case HostDot => if IsAtom(u) then Complete else Reject
    case Complete => if IsAtom(u) then Complete else Reject
    case Reject => Reject
  }

  /** The state after reading all of `s`. */
  function Run(s: JsString): Scan {
    if |s| == 0 then Start else Step(Run(s[..|s| - 1]), s[|s| - 1])
  }

  /** The unit at index `j` rules a match out whatever follows it. */
  predicate Fatal(s: JsString, j: nat)
    requires j < |s|
  {
    || IsRegExpSpace(s[j])
    || (s[j] == AT && (j == 0 || exists k | 0 <= k < j :: s[k] == AT))
  }

  predicate Spoiled(s: JsString) {
    exists j | 0 <= j < |s| :: Fatal(s, j)
  }

  /** What each state says about the text read so far; `at` and `dot` locate
      the '@' and the escaped dot once they have been read. */
  ghost predicate Invariant(s: JsString, q: Scan, at: nat, dot: nat) {
    match q
    case Start => |s| == 0
    case Local => 0 < |s| && AllAtoms(s, 0, |s|)
    case AtSign =>
      && 0 < at && |s| == at + 1 && s[at] == AT
      && AllAtoms(s, 0, at)
    case Host =>
      && 0 < at && at + 1 < |s| && s[at] == AT
      && AllAtoms(s, 0, at) && AllAtoms(s, at + 1, |s|)
      && NoDots(s, at + 2, |s|)
    case HostDot =>
      && 0 < at && at + 2 < |s| && s[at] == AT
      && AllAtoms(s, 0, at) && AllAtoms(s, at + 1, |s|)
      && NoDots(s, at + 2, |s| - 1) && s[|s| - 1] == DOT
    case Complete => SplitsAt(s, at, dot)
    case Reject => Spoiled(s)
  }

  lemma {:induction false} RunInvariant(s: JsString) returns (at: nat, dot: nat)
    ensures Invariant(s, Run(s), at, dot)
    decreases |s|
  {
    if |s| == 0 {
      return 0, 0;
    }
    var n := |s| - 1;
    var p := s[..n];
    var u := s[n];
    var at0, dot0 := RunInvariant(p);
    assert forall k | 0 <= k < n :: p[k] == s[k];
    at, dot := at0, dot0;
    var q := Run(p);
    match q
    case Start =>
      if !IsAtom(u) {
        assert Fatal(s, 0);
      }
    case Local =>
      if u == AT {
        at := n;
      } else if !IsAtom(u) {
        assert Fatal(s, n);
      }
    case AtSign =>
      if !IsAtom(u) {
        assert Fatal(s, n);
      }
    case Host =>
      if !IsAtom(u) {
        assert Fatal(s, n);
      }
    case HostDot =>
      if IsAtom(u) {
        dot := n - 1;
      } else {
        assert Fatal(s, n);
      }
    case Complete =>
      if !IsAtom(u) {
        assert Fatal(s, n);
      }
    case Reject =>
      var j :| 0 <= j < n && Fatal(p, j);
      assert Fatal(s, j);
  }

  lemma SpoiledRejects(s: JsString)
    requires Spoiled(s)
    ensures !Shaped(s)
  {
  }

  /** The automaton ends in `Complete` exactly on the strings of the pattern. */
  lemma RunDecides(s: JsString)
    ensures Run(s) == Complete <==> Matches(s)
  {
    var at, dot := RunInvariant(s);
    ShapedIffMatches(s);
    if Run(s) == Reject {
      SpoiledRejects(s);
    } else if Run(s) != Complete && Shaped(s) {
      var a: nat, d: nat :| SplitsAt(s, a, d);
      if Run(s) != Local {
        SoleAt(s, a, d, at);
      }
    }
  }

  // ---------------------------------------------------------------------
  // The validator

  /** Lower-casing a code unit keeps '@', '.' and the `[^\s@]` class where
      they are, so every transition is unchanged. */
  lemma StepIgnoresCase(q: Scan, u: CodeUnit)
    ensures Step(q, ToLower(u)) == Step(q, u)
  {
    ToLowerKeepsSpaces(u);
  }

  /** Lower-casing the input does not change the automaton's run. */
  lemma {:induction false} RunIgnoresCase(s: JsString)
    ensures Run(LowerCase(s)) == Run(s)
    decreases |s|
  {
    if |s| > 0 {
      var n := |s| - 1;
      var low := LowerCase(s);
      RunIgnoresCase(s[..n]);
      assert low[..n] == LowerCase(s[..n]);
      assert Run(low) == Step(Run(low[..n]), ToLower(s[n]));
      StepIgnoresCase(Run(s[..n]), s[n]);
    }
  }

  /** `validateEmail`: the pattern matched against the lower-cased input.
      Lower-casing does not change the verdict, so this is exactly the
      pattern on the input as typed. */
  function ValidateEmail(email: JsString): (ok: bool)
    ensures ok <==> Matches(email)
  {
    RunIgnoresCase(email);
    RunDecides(email);
    Run(LowerCase(email)) == Complete
  }

  /** A code unit that occurs nowhere in `t` has multiplicity zero. */
  lemma AbsentHasNoCount(t: JsString, x: CodeUnit)
    requires forall k | 0 <= k < |t| :: t[k] != x
    ensures multiset(t)[x] == 0
  {
  }

  lemma SplitHasOneAt(s: JsString, at: nat, dot: nat)
    requires SplitsAt(s, at, dot)
    ensures multiset(s)[AT] == 1
  {
    var before, after := s[..at], s[at + 1..];
    assert s == before + [AT] + after;
    assert forall k | 0 <= k < |before| :: before[k] == s[k];
    assert forall k | 0 <= k < |after| :: after[k] == s[at + 1 + k];
    AbsentHasNoCount(before, AT);
    AbsentHasNoCount(after, AT);
  }

  /** An accepted address has exactly one '@', no `\s` character at all, and
      a dot after the '@' with text on both sides of it. */
  lemma AcceptedAddress(s: JsString)
    requires ValidateEmail(s)
    ensures multiset(s)[AT] == 1
    ensures forall k | 0 <= k < |s| :: !IsRegExpSpace(s[k])
    ensures exists at, dot | 0 < at && at + 1 < dot < |s| - 1 :: s[at] == AT && s[dot] == DOT
  {
    ShapedIffMatches(s);
    var at: nat, dot: nat :| SplitsAt(s, at, dot);
    SplitHasOneAt(s, at, dot);
  }
}
