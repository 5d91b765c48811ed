/**
 Properties of the login form that relate several calls: the order of the
 checks, what the rendered view shows before and after a submission, where
 focus goes, and what holds of every state the form can reach.
 */
module FormProperties {
  import opened Chars
  import EmailPattern
  import PasswordPattern
  import opened Login

  /** A bad email decides the submission on its own: the password and the
      request's outcome play no part. */
  lemma EmailDecidesFirst(f: Form, password: JsString, o1: Outcome, o2: Outcome)
    requires !EmailPattern.Matches(f.email)
    ensures Submit(f.(password := password), o1).final == Submit(f, o2).final.(password := password)
    ensures !Submit(f.(password := password), o1).Invoked()
  {
  }

  /** When the handler returns before the request, the outcome is irrelevant. */
  lemma OutcomeOnlyAfterRequest(f: Form, o1: Outcome, o2: Outcome)
    requires !Submit(f, o1).Invoked()
    ensures Submit(f, o1) == Submit(f, o2)
    ensures Submit(f, o1).final.error != ""
  {
  }

  /** Exactly one of the four endings happens, and each leaves its own mark. */
  lemma SubmitEndings(f: Form, o: Outcome)
    requires !f.success
    ensures var r := Submit(f, o);
      && (r.final.error == InvalidEmailMessage <==> !EmailPattern.Matches(f.email))
      && (r.final.error == InvalidPasswordMessage <==>
            EmailPattern.Matches(f.email) && !PasswordPattern.Strong(f.password))
      && (r.final.error == NetworkErrorMessage <==> r.Invoked() && o == Rejected)
      && (r.final.success <==> r.Invoked() && o == Resolved)
  {
  }

  /** A valid pair of inputs shows a disabled "Signing in..." button and no
      alert while the request is pending; a resolved request swaps in the
      success view, a rejected one shows the network alert with the button
      enabled again. */
  lemma SubmissionViews(f: Form, o: Outcome)
    requires !f.success
    requires EmailPattern.Matches(f.email) && PasswordPattern.Strong(f.password)
    ensures var r := Submit(f, o);
      && r.Invoked()
      && Render(r.pending.value) == FormView(None, f.email, f.password, "Signing in...", true)
      && (o == Resolved ==> Render(r.final) == SuccessView)
      && (o == Rejected ==>
            Render(r.final) == FormView(Some(NetworkErrorMessage), f.email, f.password, "Sign In", false))
  {
  }

  /** A failed check shows its message in the alert and leaves the button as
      it was. */
  lemma RejectedInputView(f: Form, o: Outcome)
    requires !f.success
    requires !Submit(f, o).Invoked()
    ensures var v := Render(Submit(f, o).final);
      && v.FormView?
      && v.alert == Some(Submit(f, o).final.error)
      && (v.alert == Some(InvalidEmailMessage) || v.alert == Some(InvalidPasswordMessage))
      && v.disabled == f.loading
  {
  }

  /** Focus only ever moves to an alert that is on screen, and only after the
      final commit of a submission: the pending commit carries no error. */
  lemma FocusTargetsShownAlert(f: Form, o: Outcome)
    requires AtRest(f) && !f.success
    ensures var r := Submit(f, o);
      && (r.Invoked() ==> !MovesFocus(f, r.pending.value))
      && (MovesFocus(if r.Invoked() then r.pending.value else f, r.final) ==>
            Render(r.final) == FormView(Some(r.final.error), f.email, f.password, "Sign In", false))
  {
  }

  /** Submitting the same rejected input twice leaves the error slot as it
      was, so the second attempt does not move focus again. */
  lemma RepeatedErrorKeepsFocus(f: Form, o: Outcome)
    requires !Submit(f, o).Invoked()
    requires f.error == Submit(f, o).final.error
    ensures !MovesFocus(f, Submit(f, o).final)
    ensures Submit(f, o).final == f
  {
  }

  /** Handling one event keeps the form consistent. */
  lemma HandleKeepsConsistent(f: Form, e: Event)
    requires Consistent(f)
    ensures Consistent(Handle(f, e))
  {
  }

  /** Every state reached from a consistent form is consistent. */
  lemma {:induction false} ReplayKeepsConsistent(f: Form, events: seq<Event>)
    requires Consistent(f)
    ensures Consistent(Replay(f, events))
    decreases |events|
  {
    if |events| > 0 {
      HandleKeepsConsistent(f, events[0]);
      ReplayKeepsConsistent(Handle(f, events[0]), events[1..]);
    }
  }

  /** From the initial state, whatever the user does and however requests
      settle: the error slot holds at most one known message, a pending
      request shows no error and no success view, and a non-empty error never
      sits next to the success view. */
  lemma Reachable(events: seq<Event>)
    ensures var f := Replay(Initial, events);
      && KnownError(f.error)
      && (f.loading ==> f.error == "" && !f.success)
      && (f.error != "" ==> !f.success)
  {
    ReplayKeepsConsistent(Initial, events);
  }

  /** A press on the enabled button followed by the request settling is one
      full run of the submit handler. */
  lemma PressThenSettle(f: Form, o: Outcome)
    requires !f.success && !f.loading
    ensures Replay(f, [Press, Settled(o)]) == Submit(f, o).final
  {
    var es := [Press, Settled(o)];
    var g := Handle(f, Press);
    assert g == Submit(f, o).FirstCommit();
    assert es[1..] == [Settled(o)];
    assert Replay(f, es) == Replay(g, [Settled(o)]);
    assert [Settled(o)][1..] == [];
    assert Replay(g, [Settled(o)]) == Handle(g, Settled(o));
  }

  /** The inputs stay enabled while the request is pending, and settling does
      not write them: text typed in the meantime survives the outcome. */
  lemma TypingWhilePending(f: Form, o: Outcome, t: JsString)
    requires !f.success && !f.loading && Submit(f, o).Invoked()
    ensures Replay(f, [Press, TypeEmail(t), Settled(o)]) == Submit(f, o).final.(email := t)
  {
    var es := [Press, TypeEmail(t), Settled(o)];
    var pending := Handle(f, Press);
    assert pending == Submit(f, o).pending.value;
    var typed := Handle(pending, TypeEmail(t));
    assert es[1..] == [TypeEmail(t), Settled(o)];
    assert [TypeEmail(t), Settled(o)][1..] == [Settled(o)];
    assert [Settled(o)][1..] == [];
    assert Replay(f, es) == Replay(pending, [TypeEmail(t), Settled(o)]);
    assert Replay(pending, [TypeEmail(t), Settled(o)]) == Replay(typed, [Settled(o)]);
    assert Replay(typed, [Settled(o)]) == Handle(typed, Settled(o));
  }

  /** The success view is final: no later event changes anything. */
  lemma {:induction false} SuccessIsFinal(f: Form, events: seq<Event>)
    requires f.success
    ensures Replay(f, events) == f
    decreases |events|
  {
    if |events| > 0 {
      SuccessIsFinal(Handle(f, events[0]), events[1..]);
    }
  }
}
