# BookAPro page controller, modelled in Dafny

This project models the interactive core of the BookAPro landing page script
(`script.js`):

- **SectionScroller** — forced, paginated scrolling between full-viewport
  sections. It keeps a current section index and a scrolling lock. Wheel,
  swipe and key input move the index by one, or to the first or last
  section, clamped to the valid range. Input is dropped while the lock is
  held. A passive scroll listener re-derives the index from the section
  under the viewport's centre, and the navigation link of the current
  section is the one marked "active".
- **SmoothNavigation** — a click on an in-page link `#id` finds the section
  with that id and hands its index to the scroller.
- **MobileMenu** — the trigger and panel "active" classes, toggled together
  and cleared together.
- **ContactForm** — the ordered validation rules on each trimmed field value
  (required, email shape, minimum message length), the form-wide conjunction
  that still validates every field, the error state that input clears, and
  the submit button's "Sending..." phase.

Modules: `Wrappers` (Option), `Navigation` (pure definitions for the
scroller and the links), `Scroller` (the `SectionScroller` and
`SmoothNavigation` classes), `Menu` (`MobileMenu`), `Validation` (pure
whitespace, trim, email and field rules) and `Contact` (the `FormField` and
`ContactForm` classes).

Timers and browser effects are explicit:

- The 800 ms settle timer is a counter of scheduled timers, `pendingUnlocks`.
  Each real move schedules one, and the `Unlock()` event is one of them firing.
  The object invariant keeps `isScrolling ==> pendingUnlocks > 0`. A timer
  scheduled by an earlier move can release the lock while a later move's
  animation is still running. The model shows this because link clicks are
  not gated by the lock.
- `window.scrollTo` is recorded in `scrollRequests`, the list of requested tops.
- The 1500 ms submit completion is `SubmitComplete()`. The label each
  scheduled completion captured waits in `pendingRestores`. The completions
  fire in the order they were scheduled, because their delays are equal.
- The probe point (`pageYOffset + innerHeight / 2`), wheel `deltaY`, touch
  positions and `Date.now()` values are integer parameters of the handlers.

A link click is not gated by the lock: `handleNavClick` calls
`scrollToSection` without checking `isScrolling` (script.js:213-227), so
`HandleNavClick` moves the index even while the lock is held.

## Model

| member | source | states |
|---|---|---|
| `Navigation.Clamp` | script.js:103 | the target is always in [0, N-1]; an in-range index is kept, a negative one becomes 0, one past the end becomes N-1 |
| `Navigation.WheelStep` | script.js:39 | the wheel moves exactly one section: +1 if and only if deltaY > 0, -1 otherwise, including deltaY = 0 |
| `Navigation.SwipeStep` | script.js:61-69 | a gesture counts exactly when it moved more than 50 and took less than 500; it moves +1 when the finger went up and -1 when it went down |
| `Navigation.KeyTarget` | script.js:79-98 | exactly ArrowDown, PageDown, ArrowUp, PageUp, Home and End give a target: current+1, current+1, current-1, current-1, 0 and N-1; from an in-range index the target is at most one outside [0, N-1] |
| `Navigation.KeyLanding` | script.js:79-98 | ArrowDown/PageDown land on min(current+1, N-1), ArrowUp/PageUp on max(current-1, 0), Home on 0, End on N-1; exactly these keys produce a target |
| `Navigation.BoundsAreFixedPoints` | script.js:103 | "next" at the last section and "previous" at the first clamp back to where they started |
| `Navigation.FirstContaining` | script.js:133-143 | the result is the first section whose [top, top+height) contains p; there is no result exactly when no section contains p |
| `Navigation.ActiveFlags` | script.js:150-155 | there is one active flag per nav link |
| `Navigation.ActiveIffLinked` | script.js:151-154 | a link is active if and only if its href is "#" followed by the section id |
| `Navigation.ActiveCount` | script.js:150-155 | the number of active links equals the number of links whose href points at the section |
| `Navigation.OccurrencesOfDistinct` | script.js:150-155 | in a list of distinct hrefs, an href occurs once if it is present and never otherwise |
| `Navigation.ExactlyOneActive` | script.js:146-156 | with distinct hrefs, exactly one link is active if one points at the current section, and none otherwise |
| `Navigation.TargetId` | script.js:216 | substring(1): the href is its first character followed by the result; the empty href gives the empty id |
| `Navigation.IndexOfId` | script.js:217-222 | the result is the first section with that id; there is no result exactly when no section has it |
| `Navigation.NavTarget` | script.js:216-225 | a click scrolls to the first section whose id is the href minus its first character; nothing happens for an empty id or when no section has that id |
| `Navigation.NavClickRoundTrip` | script.js:146-156 | when section ids are distinct and non-empty, clicking the link "#" + id of section i targets section i, and the active flags for section i mark exactly the links whose href is "#" + id |
| `Scroller.SectionScroller.constructor` | script.js:3-10 | starts unlocked at index 0, then applies the positional update at the initial probe point (init, line 31) |
| `Scroller.SectionScroller.ScrollToSection` | script.js:101-126 | no change when the clamped target is the current index; otherwise the lock is set, a settle timer is scheduled, the index becomes the target, its top is requested and its link becomes the only active one |
| `Scroller.SectionScroller.Unlock` | script.js:123-125 | a scheduled settle timer fires: the lock is cleared and nothing else changes |
| `Scroller.SectionScroller.HandleWheel` | script.js:34-41 | while locked nothing changes; otherwise it scrolls to current+1 for deltaY > 0 and to current-1 for any other deltaY, including 0 |
| `Scroller.SectionScroller.TouchStart` | script.js:47-54 | records the start position and time of the touch, also while locked, and changes nothing else |
| `Scroller.SectionScroller.TouchEnd` | script.js:56-73 | while locked nothing changes; otherwise a qualifying swipe scrolls one section in its direction and any other gesture changes nothing |
| `Scroller.SectionScroller.HandleKeydown` | script.js:76-99 | while locked nothing changes; otherwise a navigation key scrolls to its target and any other key changes nothing |
| `Scroller.SectionScroller.UpdateCurrentSection` | script.js:128-144 | while locked nothing changes; otherwise the first section containing p becomes current with its link active, the lock is not set, and with no such section nothing changes |
| `Scroller.SectionScroller.UpdateActiveNavLink` | script.js:146-156 | afterwards exactly the links whose href is "#" + current id are active |
| `Scroller.SmoothNavigation.constructor` | script.js:200-205 | keeps the scroller it delegates to |
| `Scroller.SmoothNavigation.HandleNavClick` | script.js:213-227 | scrolls the scroller to the section the href names, without checking the lock; an unknown or empty id changes nothing |
| `Menu.MobileMenu.constructor` | script.js:160-167 | starts from the trigger and panel classes the page has |
| `Menu.MobileMenu.ToggleMenu` | script.js:187-190 | flips both flags; if they agreed before, they still agree and the menu's open state is inverted |
| `Menu.MobileMenu.CloseMenu` | script.js:192-195 | clears both flags; closing a closed menu changes nothing |
| `Menu.MobileMenu.HandleDocumentClick` | script.js:180-184 | a click outside both trigger and panel closes the menu; a click inside either changes nothing |
| `Validation.IsWhitespace` | script.js:287 | the characters trim() removes and \s matches include space, tab, newline and carriage return, and exclude "@", "." and ASCII letters and digits |
| `Validation.TrimStart` | script.js:287 | gives a suffix of the input; the dropped prefix is all whitespace and the result does not start with whitespace |
| `Validation.TrimEnd` | script.js:287 | gives a prefix of the input; the dropped suffix is all whitespace and the result does not end with whitespace |
| `Validation.Trim` | script.js:287 | the trimmed value is empty exactly when the input is all whitespace, and a non-empty result neither starts nor ends with whitespace |
| `Validation.TrimStartPadding` | script.js:287 | leading whitespace in front of a non-whitespace start is exactly what TrimStart removes |
| `Validation.TrimEndPadding` | script.js:287 | trailing whitespace after a non-whitespace end is exactly what TrimEnd removes |
| `Validation.TrimPadding` | script.js:287 | trimming whitespace padding around a core that neither starts nor ends with whitespace gives the core back |
| `Validation.TrimIdempotent` | script.js:287 | trimming a trimmed value changes nothing |
| `Validation.IsValidEmail` | script.js:324-327 | an accepted address has no whitespace, exactly one "@", does not start with "@" and has at least five characters |
| `Validation.SingleAt` | script.js:325 | an "@" with none before it and none after it is the only "@" of the string |
| `Validation.EmailSound` | script.js:324-327 | every address the predicate accepts is in the language of /^[^\s@]+@[^\s@]+\.[^\s@]+$/ |
| `Validation.EmailComplete` | script.js:324-327 | every string in the language of /^[^\s@]+@[^\s@]+\.[^\s@]+$/ is accepted |
| `Validation.EmailPatternEquivalence` | script.js:324-327 | accepts if and only if the regular expression matches: no whitespace, exactly one "@", a non-empty local part, and a domain with a dot that is neither its first nor its last character |
| `Validation.AcceptsShortAddress` | script.js:325 | the pattern accepts "a@b.co" |
| `Validation.RejectsMissingDot` | script.js:325 | the pattern rejects "a@b", whose domain has no dot |
| `Validation.RejectsSpace` | script.js:325 | the pattern rejects "a b@c.com", which contains a space |
| `Validation.EmailExamples` | script.js:325 | the pattern accepts "a@b.co" and rejects "a@b" and "a b@c.com" |
| `Validation.Capitalize` | script.js:296-298 | the first character is upper-cased when it is a lower-case ASCII letter and kept otherwise; the rest of the field name is unchanged |
| `Validation.RequiredError` | script.js:296-298 | the required message is never empty: the capitalised field name followed by " is required" |
| `Validation.CheckField` | script.js:286-305 | the error message is empty exactly when the field is valid |
| `Validation.CheckFieldRules` | script.js:294-305 | valid exactly when the trimmed value is non-empty, an email field's value is an email, and a message field's value has at least 10 characters; an all-whitespace value gives "<Name> is required", then a bad email gives the email error, then a short message gives the length error |
| `Validation.FailingFormExample` | script.js:294-305 | "" in name, "bad" in email and "short" in message give "Name is required", the email error and the length error |
| `Validation.PassingFormExample` | script.js:294-305 | "Ann", "a@b.co" and "Hello there, friend" are all valid with empty messages |
| `Contact.FormField.constructor` | script.js:243-247 | a field with its name, its value and whether its error slot exists, and no error shown |
| `Contact.FormField.ValidateField` | script.js:286-314 | returns the rule chain's verdict; the "error" class is set exactly when invalid; an existing error slot shows the rule's message; the value is unchanged |
| `Contact.FormField.Input` | script.js:246 | the user's edit replaces the value and clears the error state, so the next blur validates the new text |
| `Contact.FormField.ClearError` | script.js:316-322 | removes the "error" class and empties an existing error slot |
| `Contact.ContactForm.constructor` | script.js:231-235 | three distinct fields and an enabled submit button with its label |
| `Contact.ContactForm.ValidateForm` | script.js:272-284 | all three fields are validated even after one fails, and the result is their conjunction |
| `Contact.ContactForm.HandleSubmit` | script.js:250-262 | validates the form; when it is valid, the button reads "Sending...", is disabled and its old label is kept for the completion; when it is invalid, the button is untouched |
| `Contact.ContactForm.SubmitComplete` | script.js:263-268 | the oldest completion restores the captured label and re-enables the button |

## Left out

- DOM querying, `classList` beyond boolean flags, `preventDefault`, and
  listener registration are browser plumbing. Sections and links are fixed
  sequences given at construction.
- `window.scrollTo`'s smooth animation is not modelled. Only the requested
  top is recorded.
- Section offsets are fixed. The browser recomputes `offsetTop` and
  `offsetHeight` on every layout; the model does not.
- Real timers and `Date.now()` are not modelled. Their effects are the
  explicit `Unlock` and `SubmitComplete` events, and times are parameters.
- Floating point is not modelled. The probe point, `deltaY` and touch
  positions are integers.
  - Probe point: section offsets are integers in the browser too, so the
    floor of a fractional probe point gives the same containment answer.
  - `deltaY`: the caller must pass a value with its sign kept. Flooring
    would turn a wheel delta in (0, 1) into 0, which scrolls up instead of
    down.
  - Touch positions: integer `clientY` values only approximate the source,
    because a fractional distance can decide the `> 50` test at
    script.js:67.
- `LoadingScreen` (script.js:331-364) is left out. It is a purely
  time-driven fade and node removal.
- The startup sequence (script.js:367-386) is left out, including image
  lazy-load classes.
- `alert` and `form.reset()` in the submit completion are left out. They are
  side effects on the host page; the model restores only the button.
- `MobileMenu.init`'s early return when the trigger or panel is missing is
  left out: without those hooks no handler runs.
- An empty section list is excluded by `requires |sections| >= 1`. This is
  a modelling choice. With no sections the source does nothing on every
  event: the clamp at script.js:103 gives 0, which equals the initial index,
  so script.js:105 returns early, and the loop at script.js:133 runs zero
  times.
- `HandleNavClick`: `getElementById` returns the first element in the whole
  document with that id. The model looks only among the sections, so it
  assumes no earlier non-section element carries a section's id. An
  `e.target` that is a child of the link, with no href, is not modelled.
- `Capitalize`: `toUpperCase` is modelled for ASCII letters only, the
  characters field names use here.
- `CheckField`: `value.length` counts UTF-16 code units, but the model
  counts Unicode scalar values. The two differ only for characters outside
  the Basic Multilingual Plane.
- `IsWhitespace` is the ECMAScript whitespace and line-terminator set as
  fixed code points. Changes to the Unicode space-separator category across
  versions are not followed.
- `HandleSubmit`: a browser does not submit through a disabled button, so a
  second submission during "Sending..." is not expected. The model still
  allows it, as the code does, and queues a second completion.
