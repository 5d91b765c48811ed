/**
 The login form's state, its submit handler as a pure transition, and the
 choice of what is rendered.

 The simulated network request (a one-second timer that resolves, with a
 rejecting variant kept in a comment) is replaced by its `Outcome`, a
 parameter of the transition, so both the success and the failure branch can
 be reasoned about.
 */
module Login {
  import opened Chars
  import EmailPattern
  import PasswordPattern

  datatype Option<T> = None | Some(value: T)

  const InvalidEmailMessage: string := "Invalid email address"
  const InvalidPasswordMessage: string :=
    "Password must be at least 8 characters long and contain number, both uppercase and lowercase letters"
  const NetworkErrorMessage: string := "Network error"

  /** The component's state: the two inputs and the three status slots. */
  datatype Form = Form(
    email: JsString,
    password: JsString,
    loading: bool,
    error: string,
    success: bool)

  /** All five slots start out empty or false. */
  const Initial: Form := Form([], [], false, "", false)

  /** How the awaited request settles. */
  datatype Outcome = Resolved | Rejected

  /** One run of the submit handler: the state committed while the request is
      in flight (None when the handler returns before starting it), and the
      state once the handler has returned. */
  datatype Submission = Submission(pending: Option<Form>, final: Form) {
    predicate Invoked() {
      pending.Some?
    }

    /** The first state the handler commits: the pending one, or the final
        one when it returns early. */
    function FirstCommit(): Form {
      if pending.Some? then pending.value else final
    }
  }

  /** Where the handler stands when it reaches its `await`, or returns before
      it. */
  datatype Start = Stopped(form: Form) | Awaiting(form: Form)

  /** The handler up to its `await`: the error is cleared, the email is
      checked before the password and the first failure ends the handler with
      its message; only when both pass is `loading` set. */
  function Begin(f: Form): (r: Start)
    ensures r.form.email == f.email && r.form.password == f.password && r.form.success == f.success
    ensures r.Awaiting? <==> EmailPattern.Matches(f.email) && PasswordPattern.Strong(f.password)
    ensures r.Awaiting? ==> r.form == f.(error := "", loading := true)
    ensures r.Stopped? ==> r.form.loading == f.loading && r.form.error != ""
    // the first failing check names itself: the email before the password
    ensures r.Stopped? ==>
      r.form == f.(error := if EmailPattern.Matches(f.email) then InvalidPasswordMessage else InvalidEmailMessage)
  {
    var cleared := f.(error := "");
    if !EmailPattern.ValidateEmail(f.email) then
      Stopped(cleared.(error := InvalidEmailMessage))
    else if !PasswordPattern.ValidatePassword(f.password) then
      Stopped(cleared.(error := InvalidPasswordMessage))
    else
      Awaiting(cleared.(loading := true))
  }

  /** The handler after its `await`: success or the network message, and
      `loading` cleared on both ways out. Nothing else is written, so text
      typed while the request was pending is kept. */
  function Settle(f: Form, outcome: Outcome): (g: Form)
    ensures !g.loading
    ensures g.email == f.email && g.password == f.password
    ensures outcome == Resolved ==> g.success && g.error == f.error
    ensures outcome == Rejected ==> g.error == NetworkErrorMessage && g.success == f.success
  {
    match outcome
    case Resolved => f.(success := true, loading := false)
    case Rejected => f.(error := NetworkErrorMessage, loading := false)
  }

  /** The error slot holds nothing or one of the three messages. */
  predicate KnownError(e: string) {
    e == "" || e == InvalidEmailMessage || e == InvalidPasswordMessage || e == NetworkErrorMessage
  }

  /** The submit handler run to its end: `Begin`, and when it reaches the
      `await`, `Settle` with the request's outcome. */
  function Submit(f: Form, outcome: Outcome): (r: Submission)
    // the inputs are never written
    ensures r.final.email == f.email && r.final.password == f.password
    ensures r.pending.Some? ==> r.pending.value.email == f.email && r.pending.value.password == f.password
    // a bad email ends the handler with its message and nothing else changed
    ensures !EmailPattern.Matches(f.email) ==>
      !r.Invoked() && r.final == f.(error := InvalidEmailMessage)
    // a good email and a bad password end it with the password message
    ensures EmailPattern.Matches(f.email) && !PasswordPattern.Strong(f.password) ==>
      !r.Invoked() && r.final == f.(error := InvalidPasswordMessage)
    // the request is made exactly when both inputs pass
    ensures r.Invoked() <==> EmailPattern.Matches(f.email) && PasswordPattern.Strong(f.password)
    // while it is pending the form shows no error and is loading
    ensures r.Invoked() ==>
      r.pending.value == f.(error := "", loading := true)
    // however it settles, loading is off afterwards
    ensures r.Invoked() ==> !r.final.loading
    ensures r.Invoked() && outcome == Resolved ==>
      r.final.success && r.final.error == "" && r.final == f.(error := "", loading := false, success := true)
    ensures r.Invoked() && outcome == Rejected ==>
      r.final == f.(error := NetworkErrorMessage, loading := false)
    // the error slot never holds more than one message
    ensures KnownError(r.final.error)
  {
    match Begin(f)
    case Stopped(g) => Submission(None, g)
    case Awaiting(g) => Submission(Some(g), Settle(g, outcome))
  }

  // ---------------------------------------------------------------------
  // Rendering

  /** What the component shows. */
  datatype View =
    | SuccessView
    | FormView(alert: Option<string>, email: JsString, password: JsString, caption: string, disabled: bool)

  /** The rendered tree, reduced to the choices it makes: the success view
      replaces the form; the alert region exists only for a non-empty error;
      the button is disabled and relabelled while loading. */
  function Render(f: Form): (v: View)
    ensures v.SuccessView? <==> f.success
    ensures v.FormView? ==> (v.alert.Some? <==> f.error != "")
    ensures v.FormView? && v.alert.Some? ==> v.alert.value == f.error
    ensures v.FormView? ==> v.email == f.email && v.password == f.password
    ensures v.FormView? ==> (v.disabled <==> f.loading)
    ensures v.FormView? ==> (v.caption == "Signing in..." <==> f.loading)
    ensures v.FormView? ==> (v.caption == "Sign In" <==> !f.loading)
  {
    if f.success then SuccessView
    else
      FormView(
        if f.error != "" then Some(f.error) else None,
        f.email,
        f.password,
        if f.loading then "Signing in..." else "Sign In",
        f.loading)
  }

  /** The effect keyed on `error` runs after a commit that changed `error`, and
      moves focus to the alert when the new error is non-empty. */
  predicate MovesFocus(before: Form, after: Form) {
    after.error != before.error && after.error != ""
  }

  // ---------------------------------------------------------------------
  // The form over time

  /** What can happen while the form is shown: the user types or presses the
      button, or the pending request settles. */
  datatype Event =
    | TypeEmail(text: JsString)
    | TypePassword(text: JsString)
    | Press
    | Settled(outcome: Outcome)

  /** The state once an event has been handled. The success view has no
      inputs and no button, a disabled button submits nothing, and only a
      pending request can settle. The inputs stay enabled while the request
      is pending. */
  function Handle(f: Form, e: Event): (g: Form)
    ensures f.success ==> g == f
    ensures e.TypeEmail? && !f.success ==> g == f.(email := e.text)
    ensures e.TypePassword? && !f.success ==> g == f.(password := e.text)
    // an enabled press commits what the handler commits before its await
    ensures e.Press? && !f.success && !f.loading ==>
      forall o: Outcome :: g == Submit(f, o).FirstCommit()
    ensures e.Press? && f.loading ==> g == f
    ensures e.Settled? && !f.loading ==> g == f
    // settling ends the request: loading off, then success or the network error
    ensures e.Settled? && f.loading && !f.success ==>
      && !g.loading
      && (g.success <==> e.outcome == Resolved)
      && (e.outcome == Resolved ==> g.error == f.error)
      && (e.outcome == Rejected ==> g.error == NetworkErrorMessage)
    ensures e.Press? || e.Settled? ==> g.email == f.email && g.password == f.password
  {
    if f.success then f
    else
      match e
      case TypeEmail(t) => f.(email := t)
      case TypePassword(t) => f.(password := t)
      case Press => if f.loading then f else Begin(f).form
      case Settled(o) => if f.loading then Settle(f, o) else f
  }

  function Replay(f: Form, events: seq<Event>): Form
    decreases |events|
  {
    if |events| == 0 then f else Replay(Handle(f, events[0]), events[1..])
  }

  /** What holds of every state the form can be in: the error slot holds a
      known message or nothing, a pending request shows no error, and the
      success view never comes with an error or a pending request. */
  predicate Consistent(f: Form) {
    && KnownError(f.error)
    && (f.loading ==> f.error == "" && !f.success)
    && (f.success ==> f.error == "" && !f.loading)
  }

  /** Between submissions: consistent, and no request pending. */
  predicate AtRest(f: Form) {
    Consistent(f) && !f.loading
  }
}
