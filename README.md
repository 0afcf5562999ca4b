# Tramite Marketing site script — verified model

This project models the behaviour of `main.js`, the one script of the Tramite
Marketing website. It covers:

- the contact ("quote") form's validation rules;
- the per-field page state that `validateField` writes;
- the `validateForm` loop and the live revalidation on `input` and `blur`;
- the submit handler and the submit button it drives through a request and two
  4000 ms revert timers;
- the mobile-menu toggle;
- the show-once cookie banner.

Modules:

- `Options` (options.dfy): an optional value.
- `Text` (text.dfy): JavaScript white space (the WhiteSpace and LineTerminator code
  points of ECMA-262, shared by `trim` and the regex class `\s`). Also `trim`, specified
  by `IsTrimOf` and proved to be the unique string meeting it; `length` in UTF-16 code
  units; first/last occurrence search.
- `Rules` (rules.dfy): the two regular expressions as predicates over strings, the
  message table, and the rule evaluation `Check`, with one lemma per rule. The email
  pattern is specified as "some split local@domain.tld" (`EmailPattern`). The
  executable decision `IsEmail` is proved equivalent to it.
- `Submission` (submission.dfy): the submit button as a state machine over explicit
  events: a valid submit, a response (ok or not), and a timer firing. Its invariant is
  proved for every run, and so is the fact that the button always settles back to its
  page-load presentation. The module also holds the handler as written and a trace
  that shows it misbehaving (see Findings).
- `QuoteForm` (quote_form.dfy): fields as records; `Validated`, `ValidateAll`,
  `FormValid`, the focus query, the `input`/`blur` guards and `ResetAll`. The class
  `Form` holds the fields and the button state. Its methods are `validateField`,
  `validateForm`, the two listeners and the three steps of the submit handler, each
  proved against those functions and keeping the `Submission` invariant.
- `Menu` (menu.dfy) and `CookieConsent` (cookie_consent.dfy): classes whose methods
  are `toggleMenu` and its two guards, and `checkCookieConsent`/`showBanner`, the
  fallback timer and `setCookieConsent`.

What the code does, and how the model treats it:

- Lengths are JavaScript `length`, that is, UTF-16 code units, not characters.
- After a successful send the form is `reset()`. Values go back to their default values,
  which need not be empty. Error texts and `aria-invalid` are left as they were.
- Focus after a blocked submit goes to the first input or text area inside a group
  marked `error`. A select never receives it. A stale mark on an unnamed control can
  take it (`FocusGoesToFirstInvalid` states when it lands on the first invalid field).
- The submit handler saves the label the button shows at submit time as the one to put
  back. When revert timers overlap, this can leave the error label on the button for
  good. `Submission.NextAsWritten` is the handler as written. `QuoteForm.Form` uses the
  corrected handler `Submission.Next` instead (see Findings and Left out).

## Model

| member | source | states |
|---|---|---|
| `Text.IsWhitespace` | main.js:121-143 | the code points `trim` strips and `\s` matches (ECMA-262 WhiteSpace and LineTerminator); each is a single UTF-16 code unit and none is an ASCII letter or digit |
| `Text.SkipLeading` | main.js:143 | the index returned skips only white space and stops at the first character that is not white space |
| `Text.SkipTrailing` | main.js:143 | the end index returned drops only trailing white space and stops after the last character that is not white space |
| `Text.Trim` | main.js:143 | `trim()` returns a slice of the input obtained by cutting only white space from both ends, leaving none at either end |
| `Text.TrimsToUnique` | main.js:143 | any two cuts that both meet the trim description give the same string |
| `Text.TrimIsTheTrim` | main.js:143 | a string meets the trim description of `s` if and only if it equals `trim(s)` |
| `Text.TrimBlank` | main.js:143 | `trim(s)` is empty iff every character of `s` is white space; otherwise it starts and ends on a character that is not white space |
| `Text.TrimKeepsTrimmed` | main.js:143 | a string without white space at either end is unchanged by `trim` |
| `Text.TrimIdempotent` | main.js:143 | trimming twice is trimming once |
| `Text.Utf16Length` | main.js:156-174 | `length` is between the number of characters and twice that, and equals it exactly when no character lies above U+FFFF |
| `Text.Utf16LengthConcat` | main.js:156-174 | `length` of a concatenation is the sum of the lengths |
| `Text.Utf16LengthChar` | main.js:156-174 | a character is one code unit, or two above U+FFFF; with `Utf16LengthConcat` this fixes `length` on every string |
| `Text.IndexFrom` | main.js:120 | returns the first position holding the character, or reports that none does |
| `Text.IndexBefore` | main.js:120 | returns the last position holding the character, or reports that none does |
| `Rules.IsEmail` | main.js:120 | the executable email test; every string it accepts has a split local@domain.tld that the pattern admits |
| `Rules.IsPhone` | main.js:121 | the phone pattern: 7 to 20 characters from digits, white space, '+', '(', ')', '-'; an accepted string's `length` equals its character count, so it is 7 to 20 code units |
| `Rules.IsEmailDecidesPattern` | main.js:120 | the executable email test accepts exactly the strings that split as local@domain.tld with the pattern's character classes and a top-level part of at least two letters |
| `Rules.RequiredMessage` | main.js:124-153 | the required message is never empty; every name other than name, email and message (phone included) gets 'Campo obbligatorio' |
| `Rules.Decide` | main.js:148-182 | on a trimmed value: invalid exactly when the message is non-empty; an empty value is valid exactly when the field is not required |
| `Rules.Check` | main.js:142-182 | `validateField`'s decision: invalid exactly when the message is non-empty; an all-white-space value is valid exactly when the field is not required |
| `Rules.BlankValueRule` | main.js:148-155 | a blank required field fails with its required message; a blank optional field passes with an empty message, whatever its name |
| `Rules.NameRule` | main.js:157-162 | a filled-in name passes iff its trimmed length is at least 2, otherwise the min-length message |
| `Rules.MessageRule` | main.js:169-174 | a filled-in message passes iff its trimmed length is at least 20, otherwise the min-length message |
| `Rules.EmailRule` | main.js:163-168 | a filled-in email passes iff the trimmed value matches the email pattern, otherwise 'Inserisci un'email valida' |
| `Rules.PhoneRule` | main.js:175-180 | a filled-in phone passes iff it has 7 to 20 characters, all digits, white space, '+', '(', ')' or '-', otherwise the invalid-number message |
| `Rules.OtherNameRule` | main.js:156-181 | for any other name, validity is presence alone (or the field is optional) |
| `Rules.CheckSeesTrimmedValue` | main.js:143-155 | leading and trailing white space never change the verdict |
| `Rules.ShortNameExample` | main.js:157-162 | the name 'Al' passes |
| `Rules.ExampleAddressSplit` | main.js:120 | 'al@example.com' splits as the pattern requires |
| `Rules.ExampleAddressTrim` | main.js:143 | trimming ' al@example.com ' gives 'al@example.com' |
| `Rules.GoodEmailExample` | main.js:163-168 | ' al@example.com ' passes as a required email |
| `Rules.BadEmailExample` | main.js:163-168 | 'bad-email' fails with 'Inserisci un'email valida' |
| `Rules.BlankPhoneExample` | main.js:148-155 | a blank optional phone passes; a blank required phone gets 'Campo obbligatorio' |
| `Submission.Step` | main.js:239-284 | one event and the button it leaves: a submit shows the loading label on a disabled button with class `loading` and keeps the label it is given as the one to restore; a successful response shows '✓ Richiesta inviata!' with class `success` (still disabled), a failed one '✗ Errore - Riprova' with class `error` on an enabled button, and either ends the request and schedules one revert carrying the kept label after the earlier ones; a timer fires the oldest revert, putting its label back and clearing `success` and re-enabling the button after a success, or clearing `error` after a failure |
| `Submission.NextAsWritten` | main.js:239 | the handler as written: a submit keeps the label the button shows at that moment |
| `Submission.Next` | main.js:239-284 | the corrected handler: a submit keeps the page-load label, and if only that label was awaited and scheduled before, only that label is afterwards |
| `Submission.Run` | main.js:228-285 | a run of the corrected handler: at most one revert is scheduled per event, and only the page-load label is ever scheduled for restore |
| `Submission.RunAsWritten` | main.js:228-285 | a run of the handler as written: at most one revert is scheduled per event |
| `Submission.IdleInv` | main.js:228-285 | the button at page load satisfies the submit machine's invariant |
| `Submission.NextKeepsInv` | main.js:228-285 | every deliverable event (submit, response, timer) keeps the invariant: loading iff a request is awaited, disabled iff a request is awaited or a success revert is pending, success/error classes only while their revert is pending, only the original label is ever put back |
| `Submission.RunKeepsInv` | main.js:228-285 | every run of events keeps the invariant |
| `Submission.QuiescentIsIdle` | main.js:265-284 | with no request awaited and no revert pending, the button shows the original label, enabled, with no state class |
| `Submission.OneRequestAtATime` | main.js:241-243 | while a request is awaited the button is disabled, so no second request starts |
| `Submission.RunSettlesToIdle` | main.js:265-284 | after any run from page load, once nothing is awaited or pending the button is back to its page-load presentation |
| `Submission.DrainSettles` | main.js:265-284 | with no request awaited, letting every pending revert fire returns the button to its page-load presentation |
| `Submission.SuccessThenRevert` | main.js:252-269 | a successful send shows '✓ Richiesta inviata!' on a disabled button; its timer restores the original label and re-enables it |
| `Submission.FailureThenRevert` | main.js:274-284 | a failed send shows '✗ Errore - Riprova' and re-enables the button at once; its timer restores the original label |
| `Submission.QuickResubmitKeepsErrorLabel` | main.js:239-283 | as written: failure, resubmit within 4000 ms, success, both timers fire: the idle button ends up showing '✗ Errore - Riprova' |
| `QuoteForm.Validated` | main.js:184-189 | the page writes of `validateField`: the group is marked `error` exactly when the verdict is invalid, never both `error` and `success`, and the control's name, kind, `required`, value and default are untouched |
| `QuoteForm.ValidateAll` | main.js:194-205 | `validateForm`'s effect: every named control becomes exactly its `validateField` page state (both marks, error text, `aria-invalid`), unnamed controls are untouched, no value changes |
| `QuoteForm.ResetAll` | main.js:257-261 | `form.reset()` plus clearing the group classes: every value is its default, no group is marked, error texts and `aria-invalid` stay; afterwards the `input` guard fires exactly on controls whose default is not blank |
| `QuoteForm.ValidatedShowsVerdict` | main.js:184-191 | after `validateField`: group `error` iff invalid, `success` iff valid and non-blank, never both, error text empty iff valid, `aria-invalid` is the negated verdict, nothing else changed |
| `QuoteForm.ValidatedIdempotent` | main.js:142-191 | validating an unchanged value twice leaves the same page state |
| `QuoteForm.FormValidIffNoErrorMarked` | main.js:194-205 | after `validateForm`, the form is valid iff no named control's group is marked `error` |
| `QuoteForm.ValidateAllIdempotent` | main.js:194-205 | running `validateForm` twice on unchanged values gives the same page state |
| `QuoteForm.FirstErrorFrom` | main.js:232 | returns the first input or text area in a group marked `error`, or reports that there is none |
| `QuoteForm.FocusGoesToFirstInvalid` | main.js:231-235 | when no unnamed control carries a stale mark, focus goes to the first named input or text area that fails, and there is none exactly when all of them pass |
| `QuoteForm.InputLeavesNoStaleError` | main.js:213-218 | after the `input` guard, an `error` mark is shown only for a value that fails |
| `QuoteForm.BlurShowsRequiredVerdict` | main.js:220-224 | leaving a required control always revalidates it, and its group then shows the verdict |
| `QuoteForm.Form.constructor` | main.js:209-210 | the form starts with its fields and an idle button showing its page-load label |
| `QuoteForm.Form.ValidateField` | main.js:142-192 | returns the verdict on the control's value and updates only that control's page state |
| `QuoteForm.Form.ValidateForm` | main.js:194-205 | returns true iff every named control passes, having updated every named control and no other |
| `QuoteForm.Form.Edit` | main.js:212-225 | the user changes one control's value, which the listeners then read; nothing else on the page and no button state changes |
| `QuoteForm.Form.OnInput` | main.js:213-218 | revalidates an input or text area iff its group shows an error or its value is not blank |
| `QuoteForm.Form.OnBlur` | main.js:220-224 | revalidates an input or text area iff it is required or its value is not blank |
| `QuoteForm.Form.Submit` | main.js:228-243 | validates every named control; if any fails, the button is untouched and focus moves to the first error target; otherwise the request starts with a loading label on a disabled button |
| `QuoteForm.Form.Respond` | main.js:252-284 | success: success label, form reset, every group mark cleared, revert scheduled; failure: error label, button re-enabled at once, values kept, revert scheduled |
| `QuoteForm.Form.FireTimer` | main.js:265-283 | the oldest revert puts back the original label and clears its class; a success revert also re-enables the button |
| `Menu.MobileMenu.constructor` | main.js:11-13 | the page loads with the menu closed and its attributes in agreement |
| `Menu.MobileMenu.Toggle` | main.js:15-23 | flips the three `active` classes; `aria-expanded` becomes the new state, `aria-hidden` its negation, the label and body overflow follow it |
| `Menu.MobileMenu.ToggleTwice` | main.js:15-23 | toggling twice from a consistent state restores every class, attribute and style |
| `Menu.MobileMenu.OnLinkClick` | main.js:29-35 | a link click closes an open menu and leaves a closed one untouched |
| `Menu.MobileMenu.OnKeydown` | main.js:38-43 | Escape closes an open menu and focuses the button; anything else changes nothing |
| `CookieConsent.Banner.constructor` | main.js:302-328 | the scroll listener and fallback timer are armed iff no consent is stored |
| `CookieConsent.Banner.Show` | main.js:307-313 | the latch lets the banner be made visible once; later calls change nothing |
| `CookieConsent.Banner.OnScroll` | main.js:315 | the first scroll shows the banner and detaches the listener; later scrolls change nothing |
| `CookieConsent.Banner.OnFallbackTimer` | main.js:317-321 | after 3000 ms the banner has been shown exactly once, by this timer unless a scroll did it first |
| `CookieConsent.Banner.SetConsent` | main.js:294-300 | stores the choice and hides the banner; the latch and the count of showings are unchanged |

## Findings

| source | as written | input that shows it | evidently intended | confidence | as-written member | corrected member |
|---|---|---|---|---|---|---|
| main.js:239 | each submit captures the button's current `innerHTML` as the label to restore. After a failure the button is re-enabled at once (main.js:278) while it still shows the error label | submit, request fails, submit again within 4000 ms, request succeeds, both timers fire: the idle, enabled button shows '✗ Errore - Riprova' for good | every revert puts back the label the button had at page load | high (not executed) | `Submission.QuickResubmitKeepsErrorLabel` | `Submission.RunSettlesToIdle` |

`Submission.NextAsWritten` is the handler as written. `Submission.Next` uses the label
the button had at page load, and `QuoteForm.Form` follows `Next`: its
`originalHtml` is captured once, by the constructor.

## Left out

- Scroll progress bar, the `smoothScrollTo`/`easeInOutQuad` polyfill, smooth-scroll
  anchor offsets, the IntersectionObserver fade-in, the navbar `scrolled` class and the
  footer year. They are floating-point layout arithmetic, browser observers or clock reads.
- The `fetch` call, its `FormData` body and headers. The exchange is reduced to an ok /
  not-ok outcome (`Respond(ok)`), with a network error counted as not ok.
- `scrollIntoView` of the button after success: it only moves the viewport.
- Real time and the event loop. Each timer expiry is an explicit event. Timers with the
  same 4000 ms delay fire in the order they were scheduled, which is what `pending`
  keeps.
- DOM lookup. Each control is a record in document order that carries its own
  `.form-group` state and its error span (or none). Several controls sharing one group
  are not modelled. Neither is a control outside any `.form-group`: for it `closest`
  returns null, so `validateField` (main.js:184) and the `input` listener (main.js:215)
  throw; the model gives every control a group.
- The stored `cookieConsent` JSON and its ISO timestamp. They are reduced to the
  boolean choice (`Option<bool>`).
- `QuoteForm.Form.Submit`: requires an enabled button. The browser delivers no click
  and no implicit submission to a form whose only submit button is disabled.
- `QuoteForm.Form.Respond`: requires a request in flight, and `FireTimer` a scheduled
  revert. Nothing else can deliver these events.
- `Menu.MobileMenu.ToggleTwice`: restores the attributes only from a consistent state.
  `toggleMenu` writes each attribute from the button's class, so an inconsistent page
  is not restored.
- `QuoteForm.Form.Submit`: saves the page-load label (`originalHtml`) as the one to
  restore, which is the corrected handler `Submission.Next`. The code saves the label
  shown at submit time. That capture is modelled by `Submission.NextAsWritten` and
  `Submission.RunAsWritten`, and its consequence is stated by
  `Submission.QuickResubmitKeepsErrorLabel`. The two differ only when a submit follows a
  failure whose revert has not fired yet.
- `Menu.MobileMenu.constructor`: the closed menu with agreeing attributes (`aria-expanded`
  false, label 'Apri menu', overlay `aria-hidden`, no overflow style) is assumed about
  the page's markup. The script only looks the elements up (main.js:11-13) and never
  writes this initial state.
- Lone surrogates: a Dafny `string` holds Unicode scalar values, so it cannot hold a lone
  surrogate code unit, and a JavaScript string can. `Text.Utf16Length` counts only
  well-formed strings.
- `aria-expanded`, `aria-hidden` and `aria-invalid` are set by the source as the strings
  "true"/"false". They are modelled as booleans.
