# Login form: validators and submit handler

This project models the logic of a single client-side login screen, `src/app/page.js`. That logic consists of:

- two regular-expression validators, one for the email address and one for the password;
- the asynchronous submit handler, which clears the error, checks the email, then the password, then sets `loading`, awaits a simulated request and records success or a network error;
- the choices the rendered tree makes: the success view or the form, the alert region, and the button's caption and disabled flag.

Modules:

- `Chars` (`chars.dfy`): JavaScript strings as sequences of UTF-16 code units. It defines the ECMAScript classes `\s` (WhiteSpace plus LineTerminator, ECMA-262 sections 12.2 and 12.3), `.`, `[a-z]`, `[A-Z]` and `\d`, and ASCII lower-casing. `Encode` turns Dafny text into UTF-16, and `Units` does the same for text inside the Basic Multilingual Plane; the examples use both.
- `EmailPattern` (`email.dfy`): `Matches` is the language of `^[^\s@]+@[^\s@]+\.[^\s@]+$` under ECMAScript semantics: the input is the concatenation of its five pieces, for some choice of where they meet. `ValidateEmail` lower-cases the input and runs a seven-state automaton in one pass with no backtracking. It is proved to accept exactly `Matches`. The automaton shows what the backtracking over the `\.` comes down to: some dot after the '@' must have domain text both before and after it.
- `PasswordPattern` (`password.dfy`): `Matches` is the language of `^(?=.*[a-z])(?=.*[A-Z])(?=.*\d).{8,}$`, lookaheads included. `Strong` is the plain rule: at least 8 code units, a lower-case letter, an upper-case letter, a digit, and no line terminator. `ValidatePassword` is a length test plus one scan, proved equal to both.
- `Login` (`login.dfy`): the state record `Form` and the handler in its two halves: `Begin` runs up to the `await`, and `Settle` runs after it. The simulated request becomes an `Outcome` (`Resolved` or `Rejected`). `Submit` runs both halves. Its `Submission` records the state committed while the request is pending (`None` when the handler returns before making it) and the final state. The module also holds `Render`, the focus effect `MovesFocus`, and the events `Handle`/`Replay`. Pressing the button commits the pending state, and the request settling is an event of its own, so typing while the request is pending is part of the model.
- `FormProperties` (`form_properties.dfy`): properties that relate several calls. These cover the order of the checks, the views around a submission, focus, the invariant of every reachable state, and that success is final.
- `Scenarios` (`scenarios.dfy`): concrete inputs for both validators and the four submission scenarios the form is expected to produce.

The validators are pure functions, so calling one twice on the same input gives the same answer by construction.

Two consequences of the patterns as written are easy to miss. The last piece of the email pattern, `[^\s@]+`, excludes '@' as well as whitespace. The password pattern refuses any line terminator anywhere in the input, because `.` does not match one and `.{8,}$` must cover the whole input.

## Model

| member | source | states |
|---|---|---|
| EmailPattern.ValidateEmail | src/app/page.js:18-21 | accepts exactly the strings of the regex `^[^\s@]+@[^\s@]+\.[^\s@]+$`, that is, a concatenation of a non-empty run, '@', a non-empty run, '.', a non-empty run, each run free of `\s` and '@'. Lower-casing first changes nothing |
| EmailPattern.RunDecides | src/app/page.js:19 | the one-pass automaton ends in its accepting state exactly on the strings the backtracking regex matches |
| EmailPattern.RunInvariant | src/app/page.js:19 | after any input, the automaton's state describes that input exactly: where the '@' is, whether a usable dot has been read, or a unit that rules a match out |
| EmailPattern.ShapedIffMatches | src/app/page.js:19 | the five-piece concatenation form and the index form are equivalent. The index form has an '@' at index `at > 0`, a dot at `dot` with `at + 1 < dot < len - 1`, and every other unit outside `\s` and '@' |
| EmailPattern.SpoiledRejects | src/app/page.js:19 | any of these rules a match out: a `\s` unit anywhere, an '@' first, or a second '@' |
| EmailPattern.SoleAt | src/app/page.js:19 | a matching string has exactly one '@', the one the split uses |
| EmailPattern.AcceptedAddress | src/app/page.js:19-20 | an accepted address contains exactly one '@' and no `\s` character, and has a dot after the '@' with text on both sides |
| EmailPattern.RunIgnoresCase | src/app/page.js:20 | lower-casing the input does not change the automaton's run, so the verdict is case-insensitive |
| Chars.ToLowerKeepsSpaces | src/app/page.js:20 | lower-casing a code unit never moves it into or out of `\s` |
| PasswordPattern.ValidatePassword | src/app/page.js:23-26 | accepts exactly the language of `^(?=.*[a-z])(?=.*[A-Z])(?=.*\d).{8,}$`. Equivalently: at least 8 code units, one of a-z, one of A-Z, one of 0-9, no line terminator |
| PasswordPattern.MatchesIffStrong | src/app/page.js:24 | once `.{8,}$` has matched the whole input, each lookahead `(?=.*C)` holds exactly when class C occurs somewhere in the input |
| PasswordPattern.Scan | src/app/page.js:24 | the single scan fails at the first line terminator, and otherwise succeeds exactly when each of the three classes was seen before or occurs in the rest of the input |
| Login.Submit | src/app/page.js:28-55 | The email and password fields are never written. An email outside the pattern gives "Invalid email address", no request, and nothing else changed. A matching email with a password outside the rule gives the password message and no request. The request is made exactly when both pass. While it is pending, the state has no error and `loading` set. Afterwards `loading` is off, and the state has `success` on Resolved or "Network error" on Rejected. The error slot holds one known message or nothing |
| Login.Begin | src/app/page.js:28-42 | the handler up to its `await`. The request is reached exactly when the email matches the pattern and the password meets the rule, and then the state has no error and `loading` set. Otherwise it stops early with nothing else changed: an email outside the pattern sets "Invalid email address", and a matching email with a password outside the rule sets the password message. The inputs and `success` are never written |
| Login.Settle | src/app/page.js:44-54 | after the `await`, `loading` is off whichever way the request settles. Resolved sets `success` and leaves the error alone. Rejected sets "Network error". The inputs are not written |
| Login.Render | src/app/page.js:70-109 | the success view is shown exactly when `success` holds. Otherwise the alert is present exactly for a non-empty error and shows it, the inputs show the state's text, and the button is disabled and captioned "Signing in..." exactly while loading, "Sign In" otherwise |
| Login.Handle | src/app/page.js:28-109 | typing replaces only its own field, also while a request is pending. Once the success view has replaced the form, no event changes anything. A press on the enabled button commits what the handler commits before its `await` or its early return, for either outcome. A press on the disabled button does nothing. Settling a pending request turns `loading` off and records success exactly on Resolved, or "Network error" on Rejected. With no request pending, settling does nothing. Neither a press nor settling writes the inputs |
| FormProperties.EmailDecidesFirst | src/app/page.js:30-35 | with an email outside the pattern, the password and the request's outcome make no difference to the result, and no request is made |
| FormProperties.OutcomeOnlyAfterRequest | src/app/page.js:30-40 | when the handler returns before the request, the outcome is irrelevant and an error is always shown |
| FormProperties.SubmitEndings | src/app/page.js:30-54 | starting from the form view, each ending has its own sign. The email message appears exactly for a bad email, the password message exactly for a good email with a bad password, the network message exactly for a rejected request, and success exactly for a resolved one |
| FormProperties.SubmissionViews | src/app/page.js:42-54 | with valid inputs, the pending view is a disabled "Signing in..." button with no alert. A resolved request shows the success view. A rejected one shows the "Network error" alert, with the "Sign In" button enabled again |
| FormProperties.RejectedInputView | src/app/page.js:32-40 | a failed check shows its own message in the alert and leaves the button as it was |
| FormProperties.FocusTargetsShownAlert | src/app/page.js:57-61 | the pending commit never moves focus. When the final commit moves focus, the alert it targets is rendered, so the focus call always has an element |
| FormProperties.RepeatedErrorKeepsFocus | src/app/page.js:57-61 | resubmitting input that fails the same way leaves the state unchanged, so focus does not move again |
| FormProperties.HandleKeepsConsistent | src/app/page.js:28-55 | one event keeps the form consistent: a known error or none, no error and no success while a request is pending, and neither an error nor a pending request next to success |
| FormProperties.ReplayKeepsConsistent | src/app/page.js:28-55 | every sequence of events keeps the form consistent |
| FormProperties.Reachable | src/app/page.js:6-55 | from the initial state (empty inputs, no error, not loading, no success), in every state that any events reach, the pending states included, the error slot holds at most one known message. While `loading` is set there is no error and no success. A non-empty error never appears together with success |
| FormProperties.PressThenSettle | src/app/page.js:28-55 | on the form view with no request pending, a press followed by the request settling ends exactly where one full run of the submit handler ends |
| FormProperties.TypingWhilePending | src/app/page.js:42-54 | the email input stays enabled while the request is pending (its change handler is page.js line 90), and settling does not write it. Text typed in the meantime survives: the result is the handler's final state with the new text |
| FormProperties.SuccessIsFinal | src/app/page.js:70-75 | once the success view is shown, no later event changes the state |
| Scenarios.PlainAddress | src/app/page.js:19 | "a@b.com" is accepted |
| Scenarios.UpperCaseAddress | src/app/page.js:20 | "A@B.COM" is accepted |
| Scenarios.DoubleDotAddress | src/app/page.js:19 | "a@b..c" is accepted. Either dot can serve as the escaped one; the proof uses the first |
| Scenarios.NoDotAddress | src/app/page.js:19 | "a@b" is rejected |
| Scenarios.EmptyAddress | src/app/page.js:19 | "" is rejected |
| Scenarios.DotAfterAtAddress | src/app/page.js:19 | "a@.com" is rejected |
| Scenarios.SpaceInAddress | src/app/page.js:19 | "a b@c.de" is rejected |
| Scenarios.TwoAtsAddress | src/app/page.js:19 | "a@b@c.de" is rejected |
| Scenarios.GoodPassword | src/app/page.js:24 | "Passw0rd" is accepted |
| Scenarios.ShortPassword | src/app/page.js:24 | "short1A" (7 units) is rejected |
| Scenarios.NoUpperPassword | src/app/page.js:24 | "password1" is rejected |
| Scenarios.NewlinePassword | src/app/page.js:24 | "Passw0rd" followed by a line feed is rejected |
| Scenarios.AstralCharactersCountTwice | src/app/page.js:24 | length is counted in UTF-16 code units. "Aa1" followed by three emoji is six characters but nine units, and it is accepted |
| Scenarios.ScenarioBadEmail | src/app/page.js:30-35 | "a@b" with "x" gives "Invalid email address" and no request |
| Scenarios.ScenarioShortPassword | src/app/page.js:37-40 | "a@b.com" with "short1A" gives the password message and no request |
| Scenarios.ScenarioSignIn | src/app/page.js:42-54 | "a@b.com" with "Passw0rd" on a resolved request is loading while pending, then ends with success, `loading` off, no error, and the success view |
| Scenarios.ScenarioEmptyForm | src/app/page.js:30-35 | two empty fields give "Invalid email address": the email is checked first |

## Left out

- React itself is not modelled: hooks, JSX, the DOM, the CSS module and the two images. Only the boolean choices of the rendered tree are kept. Static text such as the heading, the field labels and "Login successful!" is not modelled.
- `e.preventDefault()` and the browser's own `type="email"` and `required` constraint checks are left out. They belong to the browser, not to this code.
- The one-second `setTimeout` and the promise plumbing are left out. The request is reduced to its `Outcome`. The rejecting variant, which the code keeps in a comment, is the `Rejected` outcome.
- React's batching is assumed: the state updates made before the `await` commit together as the pending state, and those made after it commit together as the final state. The request settling is the `Settled` event. Its one-second delay is not modelled, only the order of events.
- The focus effect is modelled as a condition on two consecutive committed states. The DOM `focus()` call is not modelled.
- Chars.LowerCase: maps only A-Z. Other case mappings of `toLowerCase`, including ones that change the length, are not modelled. They never create or remove `\s`, '@' or '.', which is all the email pattern reads.
- Chars.IsSpaceSeparator: lists the Zs characters of current Unicode versions. A JavaScript engine built on an older Unicode version may differ (U+180E was Zs before Unicode 6.3).
- Login.Handle: guards against a press while loading, as the disabled button does. The handler itself has no such guard, and two overlapping runs of it are not modelled.
