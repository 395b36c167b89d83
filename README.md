# Site interactions of `script.js`, modelled in Dafny

`script.js` wires a marketing page's behaviour to browser events. This project models the decision logic inside that wiring, with the DOM abstracted to plain records and event callbacks turned into method calls:

- **Form validation** (`FormValidator` and the `VALIDATORS` table). Each control is checked against a fixed sequence of rules, and the first rule that fails decides the message. The rules are: required-and-blank, required checkbox unchecked, the name pattern, the email pattern, the phone pattern, and the minimum message length. The control's `is-invalid` mark and its parent's `.invalid-feedback` element are then updated. Submitting validates every control. If any control fails, exactly one error notification appears. If all pass, the submit button is disabled and exactly one redirect to `thank_you.html` is scheduled.
- **`BurgerMenu`**. This is a two-state menu whose `isOpen` flag stays in step with the panel's `show` class, the toggler's `aria-expanded` and the body's `u-no-scroll` lock. Opening caps the panel's height. The menu closes on four triggers: Escape, a navigation-link click, a click outside the header, and a resize to 768 px or wider. Each trigger acts only while the menu is open.
- **Navigation helpers**:
  - The scroll-spy picks the links whose href is `#id` or `/#id`.
  - Smooth scrolling extracts the target id from an in-page href and scrolls to that element, offset by the header height (80 px without a header).
  - `initApp` marks the current page's links, reading `/` and `/index.html` as the same page.
- **One-shot guards**. The page-level `initialized` flag makes `initApp` run once. Each counter's `data-counted` attribute makes its count animation start at most once.

The modules follow the components of the source:

- `JsStrings`: the `\s`/`trim()` whitespace set, trimming, UTF-16 length.
- `Validators`: the rule table.
- `FieldRules`: the per-field verdict.
- `Form`: the `FormValidator` class.
- `Menu`: `BurgerMenu`.
- `Navigation`: scroll-spy, smooth scroll and current-page matching, with a `NavLinks` class for the links.
- `CountUp`: the counter guard.
- `App`: the `initApp` guard.

The pure rules are functions. Everything the source updates in place is a class whose fields hold that state (a `seq` of controls or links, a `map` of feedback elements, flags and attribute values):

- the form's controls, feedback elements, button, notifications and scheduled redirects;
- the menu's flag and DOM state;
- the link list;
- the counter;
- the page flag.

Each class is changed only by its methods. Where the source loops over a list (validating every control, highlighting or marking links, a batch of observer entries), the method loops too, and its loop invariants tie it to a specification function.

Strings are Dafny `string`s of Unicode scalar values. JavaScript counts UTF-16 code units, and the model accounts for that where it matters:

- The message-length rule uses `Utf16Length`, where a character outside the Basic Multilingual Plane counts twice.
- The name and phone classes contain only Basic Multilingual Plane characters. So whenever their class test passes, the code-unit count equals the character count (`NameLengthIsCodeUnits`, `PhoneLengthIsCodeUnits`). A character outside that plane fails the class test either way.
- The email pattern only needs each run to be non-empty, so reading it over scalar values accepts the same strings.

Where a plain-language summary of these rules would differ from the code, the model follows the code:

- The name class admits any `\s` whitespace, not just spaces. It also admits the whole range U+00C0–U+00FF, which includes × and ÷.
- The phone class admits any whitespace.
- The email rule needs a `.` that is neither the first nor the last character after the `@`, not merely a `.` somewhere in the domain.
- The message-length rule is skipped for blank values.
- Within one observer batch, the scroll-spy highlights the links of the last intersecting section, not the section nearest the top.

## Model

| member | source | states |
|---|---|---|
| JsStrings.Trim | script.js:276 | `trim()` returns the slice of the value between its leading and trailing `\s` whitespace; that slice has no whitespace at either end; it is empty exactly when the value is all whitespace |
| JsStrings.Utf16Length | script.js:308 | the JavaScript length of a string lies between its character count and twice that, and equals the character count when every character is in the Basic Multilingual Plane |
| Validators.IsValidEmail | script.js:12 | the email rule stated directly: no whitespace, exactly one `@` with a non-empty part before it, and after it a `.` that is neither the first nor the last character |
| Validators.EmailRuleIsPattern | script.js:12 | the direct statement of the email rule accepts a string exactly when the pattern `^[^\s@]+@[^\s@]+\.[^\s@]+$` matches it. The direct statement is: no whitespace, exactly one `@` with a non-empty part before it, and after it a `.` that is neither the first nor the last character |
| Validators.IsValidName | script.js:8 | the name pattern `^[a-zA-ZÀ-ÿ\s'-]{2,50}$` on the untrimmed value: 2 to 50 characters, each an ASCII letter, a character from U+00C0 to U+00FF, whitespace, an apostrophe or a hyphen |
| Validators.NameLengthIsCodeUnits | script.js:8 | reading the bound `{2,50}` over UTF-16 code units, as JavaScript does, accepts exactly the names that reading it over characters accepts |
| Validators.IsValidPhone | script.js:16 | the phone pattern `^[\d\s+\-()]{10,20}$` on the untrimmed value: 10 to 20 characters, each an ASCII digit, whitespace, `+`, `-`, `(` or `)` |
| Validators.PhoneLengthIsCodeUnits | script.js:16 | reading the bound `{10,20}` over UTF-16 code units, as JavaScript does, accepts exactly the phone numbers that reading it over characters accepts |
| Validators.BlankIsNotEmail | script.js:12 | an empty or all-whitespace value never passes the email rule |
| FieldRules.FirstFailingRule | script.js:273-315 | the decision of `validateField`: the checks of the source in its order (required and blank, required checkbox unchecked, name, email, non-blank phone, non-blank message too short), giving the first that fails or none |
| FieldRules.FirstFailingRuleIsFirstRejection | script.js:273-315 | `validateField` passes a field exactly when no rule rejects it; otherwise it reports a rule that rejects it, and every rule earlier in the fixed order accepts the field |
| FieldRules.VerdictIgnoresMark | script.js:273-276 | the verdict does not depend on whether the field is already marked `is-invalid` |
| FieldRules.RequiredBlankFailsFirst | script.js:276-279 | a required field with a blank value fails with the required message, whatever its type or id |
| FieldRules.BlankOptionalEmailRejected | script.js:293-298 | a blank `email` field that is not required is still rejected by the email rule |
| FieldRules.EmptyOptionalNameRejected | script.js:286-291 | an empty `firstName` field that is not required is rejected by the name rule |
| FieldRules.BlankPhoneAndMessageSkipped | script.js:300-312 | a blank `tel` field or `message` field that is not required passes |
| FieldRules.MessageLengthRule | script.js:307-312 | a non-blank `message` field fails exactly when its trimmed length in UTF-16 code units is below 10 |
| Form.FeedbackAfter | script.js:317-337 | validating one field creates a feedback element only under a failing field's parent and only if it has none; other parents' elements are untouched; the parent's element is shown exactly when the field fails, and then carries the failing rule's message |
| Form.FeedbackAfterAllKeys | script.js:317-337 | validating a form creates a feedback element only under the parent of a failing field, at most one per parent, and never removes one |
| Form.LastFieldDecidesFeedback | script.js:339-350 | after `validateForm`, a parent's feedback element reflects the last field under that parent. It is shown with that field's first failing message if the field fails, and hidden if the field passes |
| Form.FormValidator.constructor | script.js:253-258 | the validator starts from the form's controls, feedback elements and submit button, and remembers the button's original text (empty without a button) |
| Form.FormValidator.ClearError | script.js:331-337 | `clearError` drops the field's `is-invalid` mark and hides its parent's feedback element if one exists; nothing else changes |
| Form.FormValidator.ShowError | script.js:317-329 | `showError` marks the field and shows the message in its parent's feedback element. It creates that element only if the parent has none |
| Form.FormValidator.ValidateField | script.js:273-315 | returns true exactly when the field's first failing rule is none. Afterwards the field is marked invalid exactly when it returned false, and its parent's feedback shows that rule's message or is hidden. Other fields are untouched |
| Form.FormValidator.ValidateForm | script.js:339-350 | every field is validated, with no short-circuit: each field's mark equals its own verdict, and the result is the conjunction of all verdicts. The feedback elements are those left by validating the fields in document order |
| Form.FormValidator.DisableSubmit | script.js:374-379 | a present submit button becomes disabled and shows the sending spinner; a missing one stays missing |
| Form.FormValidator.EnableSubmit | script.js:381-386 | a present submit button becomes enabled and shows its original text again (no code path of the page calls `enableSubmit`) |
| Form.FormValidator.Submit | script.js:352-372 | `handleSubmit` has two outcomes. If any field fails, it adds exactly one error notification and leaves the button and the redirects alone. If all fields pass, it disables the button, schedules exactly one redirect to `thank_you.html` after 1000 ms, and adds no notification |
| Form.FormValidator.OnBlur | script.js:264 | blur validates the field |
| Form.FormValidator.OnInput | script.js:265-269 | on input (typing or ticking a checkbox), the control's new value and checked state are re-validated only if it is currently marked invalid; otherwise only the value and checked state change |
| Form.TickConsent | script.js:265-269 | ticking a required consent box (with a non-blank value, as the browser gives it) that is marked invalid removes the mark and hides its feedback element |
| Menu.OpenHeight | script.js:106-110 | the opened panel's height is the smaller of its content height and the window height minus the header height minus 20 |
| Menu.OpenAfterClick | script.js:68-87 | after a click the menu can be open only if the click landed inside the header (when there is one) and not on a navigation link |
| Menu.BurgerMenu.constructor | script.js:55-65 | the menu starts closed, with its listeners attached exactly when both the toggler and the panel exist, and with the invariant that an open menu is in sync |
| Menu.WriteMaxHeight | script.js:110 | writing `${px}px` to the panel's max-height takes effect exactly when the length is not negative; a negative one is dropped and the old value stays |
| Menu.BurgerMenu.Open | script.js:100-111 | `open` sets the flag and brings the class, `aria-expanded` and the scroll lock in line with it. It writes the capped height, which the browser drops when negative (a window shorter than the header plus 20); without a header it throws before writing the height |
| Menu.BurgerMenu.Close | script.js:113-119 | `close` clears the flag and brings the class, `aria-expanded` and the scroll lock in line with it; the height becomes 0 |
| Menu.BurgerMenu.Toggle | script.js:96-98 | `toggle` flips `isOpen` and keeps the four in agreement; the height becomes 0 when it closes, and the capped height (unless dropped as negative, or there is no header) when it opens |
| Menu.BurgerMenu.Click | script.js:68-87 | a click runs the toggler or navigation-link listener, then the document's outside-header listener. Whenever one of them runs `open` or `close`, the menu ends in sync; its height is the capped height (unless dropped as negative, or there is no header) if the menu was closed and ends open, 0 if it ends closed after `close` ran, and unchanged otherwise. A click on a closed menu that is not on the toggler, or on an open menu that stays open, changes nothing |
| Menu.BurgerMenu.KeyDown | script.js:79-81 | Escape closes an open menu, leaving it in sync with height 0; any other key, or Escape on a closed menu, changes nothing; an open menu stays in sync |
| Menu.BurgerMenu.Resize | script.js:89-93 | a settled resize to a width of 768 or more closes an open menu, leaving it in sync with height 0; otherwise nothing changes; an open menu stays in sync |
| Menu.TogglerInsideHeaderFlips | script.js:68-71 | a click on a toggler inside the header flips the menu |
| Menu.TogglerOutsideHeaderNeverOpens | script.js:83-87 | with a toggler outside the header, the document listener closes at once what the toggler opened |
| Menu.OpenThenResize | script.js:89-93 | after opening, a resize leaves the menu open exactly when the width is below 768 |
| Navigation.TargetId | script.js:234 | for an in-page href, removing one leading `#` or `/#` gives the id that the href is `#` or `/#` followed by; any other href is unchanged |
| Navigation.ClosestInPageAnchor | script.js:228-229 | `closest` finds the first element on the target's ancestor path whose href starts with `#` or `/#`, and finds none exactly when no such element exists |
| Navigation.SmoothScrollClick | script.js:227-248 | a scroll is requested exactly when the closest in-page anchor is not `#` or `#!` and its non-empty target id names an element; it scrolls to that element's top plus the page offset minus the header offset |
| Navigation.SpyMatches | script.js:170-171 | the scroll-spy test: the link's href is `#id` or `/#id`; a link without an href never matches |
| Navigation.SpyMatchesIsTargetId | script.js:170-171 | a link matches section `id` for the scroll-spy exactly when its href is in-page and its smooth-scroll target id is `id` |
| Navigation.ClickOnSpiedLinkScrollsToSection | script.js:232-246 | clicking a link the scroll-spy highlights for a non-empty section id scrolls to that section, offset by the header height or 80, unless the href is exactly `#!` |
| Navigation.HeaderOffset | script.js:240 | the smooth-scroll offset is the header's height, or 80 without a header |
| Navigation.IsCurrentPageLink | script.js:541-543 | the `initApp` test: the href equals the path, or one is `/` and the other `/index.html` |
| Navigation.CurrentPageIsSamePage | script.js:541-543 | a link is the current page's exactly when its href and the path name the same page, with `/index.html` read as `/` |
| Navigation.LastIntersecting | script.js:163-176 | the section that decides an observer batch is the last intersecting entry; there is none exactly when no entry intersects |
| Navigation.NavLinks.constructor | script.js:158 | the link list is the page's `.nav-link` elements |
| Navigation.NavLinks.Highlight | script.js:166-175 | afterwards, exactly the links whose href is `#id` or `/#id` are `active` with `aria-current="page"`, and no other link is |
| Navigation.NavLinks.OnSectionEntries | script.js:162-177 | after a batch, the links are highlighted for the last intersecting section; they are unchanged when none intersects |
| Navigation.NavLinks.MarkCurrentPage | script.js:537-547 | the `.navbar-nav` links for the current page gain `active` and `aria-current="page"`; no other link changes and no mark is removed |
| CountUp.Counter.constructor | script.js:186-199 | each counter starts observed, with no animation started |
| CountUp.Counter.OnEntries | script.js:189-197 | a batch starts the animation exactly when some entry intersects while `data-counted` is unset. Then the attribute is set and observation stops. Over the counter's life at most one animation starts |
| CountUp.RevealTwice | script.js:191-195 | revealing a counter twice animates it once |
| App.Page.constructor | script.js:4 | the page starts uninitialized |
| App.Page.InitApp | script.js:522-548 | the first call sets `initialized`, starts the components once and marks the current page's links; any later call changes nothing |
| App.InitTwice | script.js:523-524 | running the bootstrap twice starts the components once |

## Left out

- The browser plumbing is left out: DOM querying, `addEventListener`, `IntersectionObserver` thresholds and root margins, and `document.readyState`. Events are method calls, and the controls, feedback elements and links are given to the classes as records.
- `debounce` and `throttle` (script.js:25-46) are left out because they depend on the timer queue, and `throttle` is never used. The resize close is modelled as one settled event.
- `setTimeout` delays are recorded, not run. The redirect is a `Redirect` entry with its 1000 ms delay, and the notification's 5-second removal is not modelled.
- The `animateCount` arithmetic (script.js:203-218) is left out because it works in floating point and its `parseInt` may give NaN. Only the one-shot `data-counted` guard is kept.
- The reveal animation (script.js:138-154), the ripple and hover effects (script.js:404-477) and `LazyLoadOptimizer` (script.js:479-501) are left out: they only set styles and attributes and hold no decisions.
- `PrivacyModal` (script.js:503-520) is left out because its listener never changes anything.
- `sanitizeInput` and the form-data loop (script.js:48-52, 362-367) are left out: they depend on the browser's HTML serialiser, and their result is discarded.
- The notification markup is reduced to its message and type, and the spinner markup to a `Sending` label. The German message strings are kept verbatim as opaque constants.
- Geometry is modelled with integers: `getBoundingClientRect().top` and `pageYOffset` are floating-point in the browser.
- `preventDefault` is not modelled as a separate effect. The form's submit handler always prevents the native submission. The smooth-scroll handler prevents navigation exactly when it returns `ScrollTo`.
- `close` writes `max-height: 0` without a unit. It is modelled as `Px(0)`, which is the same length.
- Listener exceptions are modelled only where they change the outcome. `open` without a header stops before setting the height. The outside-click listener without a header does nothing.
- A form's list of controls is fixed when the validator is built. If controls are added later, `validateForm` would query them afresh, and that re-query is not modelled.
- `handleSubmit` itself does not check whether the button is already disabled. The model lets `Submit` run again after success, as the handler would if a submit event reached it.
