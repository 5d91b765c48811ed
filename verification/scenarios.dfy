/**
 Concrete inputs run through the model: the validators on typical and edge
 inputs, and the four submission scenarios the form is expected to show.
 Each example names its input as a parameter equal to the encoded text.
 */
module Scenarios {
  import opened Chars
  import EmailPattern
  import PasswordPattern
  import opened Login

  // ---------------------------------------------------------------------
  // Email

  /** A split point is all the validator needs to accept. */
  lemma AcceptedBySplit(s: JsString, at: nat, dot: nat)
    requires EmailPattern.SplitsAt(s, at, dot)
    ensures EmailPattern.ValidateEmail(s)
  {
    EmailPattern.ShapedIffMatches(s);
  }

  /** A unit that rules a match out is all the validator needs to reject. */
  lemma RejectedByFatal(s: JsString, j: nat)
    requires j < |s| && EmailPattern.Fatal(s, j)
    ensures !EmailPattern.ValidateEmail(s)
  {
    EmailPattern.SpoiledRejects(s);
    EmailPattern.ShapedIffMatches(s);
  }

  /** Fewer than five units cannot hold two runs, an '@', a dot and a third
      run. */
  lemma TooShortForEmail(s: JsString)
    requires |s| < 5
    ensures !EmailPattern.ValidateEmail(s)
  {
    EmailPattern.ShapedIffMatches(s);
  }

  lemma PlainAddress(s: JsString)
    requires s == Units("a@b.com")
    ensures EmailPattern.ValidateEmail(s)
  {
    PlainAddressSplits(s);
    AcceptedBySplit(s, 1, 3);
  }

  lemma PlainAddressSplits(s: JsString)
    requires s == Units("a@b.com")
    ensures EmailPattern.SplitsAt(s, 1, 3)
  {
    assert s == [0x61, 0x40, 0x62, 0x2E, 0x63, 0x6F, 0x6D];
  }

  /** Upper case is accepted: the test runs on the lower-cased text. */
  lemma UpperCaseAddress(s: JsString)
    requires s == Units("A@B.COM")
    ensures EmailPattern.ValidateEmail(s)
  {
    UpperCaseAddressSplits(s);
    AcceptedBySplit(s, 1, 3);
  }

  lemma UpperCaseAddressSplits(s: JsString)
    requires s == Units("A@B.COM")
    ensures EmailPattern.SplitsAt(s, 1, 3)
  {
    assert s == [0x41, 0x40, 0x42, 0x2E, 0x43, 0x4F, 0x4D];
  }

  /** Of two adjacent dots the first can serve as the escaped one. */
  lemma DoubleDotAddress(s: JsString)
    requires s == Units("a@b..c")
    ensures EmailPattern.ValidateEmail(s)
  {
    DoubleDotAddressSplits(s);
    AcceptedBySplit(s, 1, 3);
  }

  lemma DoubleDotAddressSplits(s: JsString)
    requires s == Units("a@b..c")
    ensures EmailPattern.SplitsAt(s, 1, 3)
  {
    assert s == [0x61, 0x40, 0x62, 0x2E, 0x2E, 0x63];
  }

  lemma NoDotAddress(s: JsString)
    requires s == Units("a@b")
    ensures !EmailPattern.ValidateEmail(s)
  {
    TooShortForEmail(s);
  }

  lemma EmptyAddress(s: JsString)
    requires s == Units("")
    ensures !EmailPattern.ValidateEmail(s)
  {
    TooShortForEmail(s);
  }

  /** A dot straight after the '@' cannot be the escaped one, since the
      domain before it would be empty. */
  lemma DotAfterAtAddress(s: JsString)
    requires s == Units("a@.com")
    ensures !EmailPattern.ValidateEmail(s)
  {
    assert s == [0x61, 0x40, 0x2E, 0x63, 0x6F, 0x6D];
    EmailPattern.ShapedIffMatches(s);
  }

  lemma SpaceInAddress(s: JsString)
    requires s == Units("a b@c.de")
    ensures !EmailPattern.ValidateEmail(s)
  {
    assert s[1] == 0x20;
    RejectedByFatal(s, 1);
  }

  lemma TwoAtsAddress(s: JsString)
    requires s == Units("a@b@c.de")
    ensures !EmailPattern.ValidateEmail(s)
  {
    assert s[1] == 0x40 && s[3] == 0x40;
    assert EmailPattern.Fatal(s, 3);
    RejectedByFatal(s, 3);
  }

  // ---------------------------------------------------------------------
  // Password

  lemma GoodPassword(s: JsString)
    requires s == Units("Passw0rd")
    ensures PasswordPattern.ValidatePassword(s)
  {
    assert s == [0x50, 0x61, 0x73, 0x73, 0x77, 0x30, 0x72, 0x64];
    assert PasswordPattern.InClass(PasswordPattern.Upper, s[0]);
    assert PasswordPattern.InClass(PasswordPattern.Lower, s[1]);
    assert PasswordPattern.InClass(PasswordPattern.Digit, s[5]);
  }

  /** Seven units are one too few. */
  lemma ShortPassword(s: JsString)
    requires s == Units("short1A")
    ensures !PasswordPattern.ValidatePassword(s)
  {
  }

  lemma NoUpperPassword(s: JsString)
    requires s == Units("password1")
    ensures !PasswordPattern.ValidatePassword(s)
  {
    assert s == [0x70, 0x61, 0x73, 0x73, 0x77, 0x6F, 0x72, 0x64, 0x31];
    assert !PasswordPattern.Contains(s, PasswordPattern.Upper);
  }

  /** `.` does not match a line feed, so a trailing newline fails `$`. */
  lemma NewlinePassword(s: JsString)
    requires s == Encode("Passw0rd\n")
    ensures !PasswordPattern.ValidatePassword(s)
  {
    assert s[8] == 0x0A;
  }

  /** `.{8,}` counts UTF-16 code units: three letters and three emoji are six
      characters but nine code units, and the password is accepted. */
  lemma AstralCharactersCountTwice(s: JsString)
    requires s == Encode("Aa1\U{1F600}\U{1F600}\U{1F600}")
    ensures |"Aa1\U{1F600}\U{1F600}\U{1F600}"| == 6
    ensures |s| == 9
    ensures PasswordPattern.ValidatePassword(s)
  {
    assert PasswordPattern.Strong(s) by {
      AstralEncoding(s);
      assert PasswordPattern.InClass(PasswordPattern.Upper, s[0]);
      assert PasswordPattern.InClass(PasswordPattern.Lower, s[1]);
      assert PasswordPattern.InClass(PasswordPattern.Digit, s[2]);
    }
  }

  /** Each emoji becomes the surrogate pair D83D DE00. */
  lemma AstralEncoding(s: JsString)
    requires s == Encode("Aa1\U{1F600}\U{1F600}\U{1F600}")
    ensures s == [0x41, 0x61, 0x31, 0xD83D, 0xDE00, 0xD83D, 0xDE00, 0xD83D, 0xDE00]
  {
    var face: JsString := [0xD83D, 0xDE00];
    assert Encode("\U{1F600}") == face;
    assert "Aa1\U{1F600}\U{1F600}\U{1F600}" == "Aa1" + ("\U{1F600}" + ("\U{1F600}" + "\U{1F600}"));
    EncodeAppend("Aa1", "\U{1F600}" + ("\U{1F600}" + "\U{1F600}"));
    EncodeAppend("\U{1F600}", "\U{1F600}" + "\U{1F600}");
    EncodeAppend("\U{1F600}", "\U{1F600}");
  }

  // ---------------------------------------------------------------------
  // Submitting

  /** "a@b" with "x": the email message, and no request. */
  lemma ScenarioBadEmail(f: Form, o: Outcome)
    requires f == Initial.(email := Units("a@b"), password := Units("x"))
    ensures Submit(f, o).final.error == InvalidEmailMessage
    ensures !Submit(f, o).Invoked()
  {
    NoDotAddress(f.email);
  }

  /** A good email with "short1A": the password message, and no request. */
  lemma ScenarioShortPassword(f: Form, o: Outcome)
    requires f == Initial.(email := Units("a@b.com"), password := Units("short1A"))
    ensures Submit(f, o).final.error == InvalidPasswordMessage
    ensures !Submit(f, o).Invoked()
  {
    PlainAddress(f.email);
    ShortPassword(f.password);
  }

  /** A good email with "Passw0rd": loading while the request is pending,
      then the success view with loading off. */
  lemma ScenarioSignIn(f: Form)
    requires f == Initial.(email := Units("a@b.com"), password := Units("Passw0rd"))
    ensures var r := Submit(f, Resolved);
      && r.Invoked() && r.pending.value.loading
      && r.final.success && !r.final.loading && r.final.error == ""
      && Render(r.final) == SuccessView
  {
    PlainAddress(f.email);
    GoodPassword(f.password);
  }

  /** Both fields empty: the email is checked first. */
  lemma ScenarioEmptyForm(o: Outcome)
    ensures Submit(Initial, o).final.error == InvalidEmailMessage
  {
    TooShortForEmail(Initial.email);
  }
}
