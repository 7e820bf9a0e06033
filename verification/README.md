# Agricultura de Gravatá site script — a Dafny model

The site's `main.js` is one self-invoking script. At page load it wires a
few independent handlers to DOM events. This project models the parts of it
that make decisions or update state. The DOM is reduced to plain records:
class flags, attribute values, bounding boxes and meta tags. The modelled parts are:

- **Mobile menu** (`MobileMenu`, `menu.dfy`). Three class flags are kept:
  `menu-open` on the body, and `active` on the navigation panel and on the
  overlay. The panel and the overlay may be absent. The four handlers are
  modelled: toggle click, overlay click, Escape key and navigation-link click.
- **Header scroll throttle** (`HeaderScroll`, `header.dfy`). The `scroll`
  listener's closure state is `lastScrollTime` and `ticking`. The pending
  animation-frame callback and the `now` it captured are modelled too, and so
  is the header's `scrolled` class.
- **Scroll animations** (`ScrollAnimations`, `animations.dfy`). Two paths mark
  elements `animated`. The IntersectionObserver path marks an element and
  unobserves it. The fallback path is a throttled viewport check.
- **Contact-form validation feedback** (`ContactForm`, `contact_form.dfy`).
  This covers the submit handler, `showValidationErrors`, the `input`
  listeners it attaches, and the success and failure outcomes of a send.
- **Security hardening** (`Security`, `security.dfy`). It adds the CSP and
  referrer meta tags, rewrites `javascript:` and `data:` hrefs, and adds
  `rel` to `target="_blank"` links.
- **Development-host detection** (`Environment`, `environment.dfy`), with
  the string tests it uses (`Common`, `common.dfy`).

Each stateful part has a value-level specification. This is a state datatype
with pure step functions, plus lemmas about them. Each also has a class whose
fields are the DOM state the handlers change in place. Each class method
states its whole new state in terms of the old one, in most cases as
`State() == StepFunction(old(State()))`. The exception is
`ShowValidationErrorsInPlace`, a step within the submit listener, which
states the new controls, the focus and the unchanged flags one by one.

Times are integer milliseconds (`Date.now()`). Bounding boxes are integers.
The scroll offset `window.scrollY` is a `real`, so fractional offsets are
compared with 50 exactly.
The test `top <= 0.9 * height` is stated as `10 * top <= 9 * height`.

## Model

| member | source | states |
|---|---|---|
| `MobileMenu.ToggleFlipsEveryFlag` | main.js:69-73 | toggling flips `menu-open` and the `active` flag of each element that exists; it never adds or removes an element |
| `MobileMenu.ToggleKeepsConsistency` | main.js:69-73 | after a toggle the flags agree exactly when they agreed before |
| `MobileMenu.ToggleTwiceRestores` | main.js:69-73 | two toggles restore the original state |
| `MobileMenu.CloseClearsAll` | main.js:76-80 | closing leaves every present flag false, keeps element presence, and is idempotent |
| `MobileMenu.EscapeClosesOnlyWhenOpen` | main.js:83-87 | a key press changes the state only if it is Escape while `menu-open` is set, and then it closes the menu |
| `MobileMenu.LinkClickClosesOnlyWhenNarrow` | main.js:60-66 | a nav-link click closes the menu when `innerWidth < 992` and changes nothing otherwise |
| `MobileMenu.StepKeepsConsistency` | main.js:46-87 | no single event breaks agreement between the three flags |
| `MobileMenu.RunKeepsConsistency` | main.js:40-88 | starting from agreeing flags, no sequence of events ever leaves them disagreeing |
| `MobileMenu.NarrowToggleThenLinkCloses` | main.js:46-66 | on a narrow viewport, toggle then link click opens the menu and then returns it to the loaded state |
| `MobileMenu.MenuController.constructor` | main.js:40-44 | the controller starts with no flag set and records which elements exist |
| `MobileMenu.MenuController.ToggleMenu` | main.js:69-73 | the class lists change in place as `Toggled` says |
| `MobileMenu.MenuController.CloseMenu` | main.js:76-80 | the class lists change in place as `Closed` says |
| `MobileMenu.MenuController.OnToggleClick` | main.js:46-51 | the toggle's click listener toggles the menu |
| `MobileMenu.MenuController.OnOverlayClick` | main.js:53-57 | the overlay's click listener closes the menu; it exists only when the overlay does |
| `MobileMenu.MenuController.OnKeyDown` | main.js:83-87 | the keydown listener closes the menu only on Escape while it is open |
| `MobileMenu.MenuController.OnLinkClick` | main.js:60-66 | the link click listener closes the menu only below 992 px |
| `HeaderScroll.ScrollSchedulesAtMostOnce` | main.js:101-117 | a scroll event schedules a frame iff `!ticking && now - lastScrollTime > 100`; scheduling raises `ticking` and records `now`; later events schedule nothing and change nothing until the frame runs |
| `HeaderScroll.FrameUpdatesHeader` | main.js:105-114 | the frame callback sets `scrolled` iff `scrollY > 50`, clears `ticking`, and sets `lastScrollTime` to the scheduling event's `now` |
| `HeaderScroll.IdleFrameChangesNothing` | main.js:104-105 | when no callback was requested, an animation frame leaves the header state alone |
| `HeaderScroll.ScheduledTimesAreSpaced` | main.js:97-118 | along any event sequence `ticking` tracks the pending callback, and each scheduling event is more than 100 ms after the previous one |
| `HeaderScroll.ThrottleFromLoad` | main.js:97-118 | from page load, the first scheduling event has `now > 100` and consecutive ones are more than 100 ms apart |
| `HeaderScroll.IdleFramesChangeNothing` | main.js:101-118 | with no callback waiting, any number of animation frames leave the header and the closure unchanged |
| `HeaderScroll.DroppedScrollLeavesHeaderStale` | main.js:101-118 | after a frame at offset 100 sets `scrolled`, a scroll 50 ms later is dropped and requests no frame; any later frames, even at offset 0, leave the header `scrolled` until the next scroll event |
| `HeaderScroll.HeaderController.constructor` | main.js:97-99 | the closure starts with `lastScrollTime = 0` and `ticking = false`, and no frame is pending |
| `HeaderScroll.HeaderController.OnScrollEvent` | main.js:101-117 | the scroll listener updates the closure as `OnScroll` says and reports whether it asked for a frame |
| `HeaderScroll.HeaderController.OnAnimationFrame` | main.js:105-114 | the frame callback updates the header and the closure as `OnFrame` says |
| `ScrollAnimations.MarkVisible` | main.js:313-333 | after a fallback check an element is animated iff it already was, or its box has `10*top <= 9*height` and `bottom >= 0` |
| `ScrollAnimations.SetIntersected` | main.js:342-347 | an observer batch sets the flag of exactly the targets of intersecting entries and leaves the rest |
| `ScrollAnimations.MarkVisibleOnlyAdds` | main.js:329-333 | the fallback check never removes `animated`, and repeating it on the same geometry changes nothing |
| `ScrollAnimations.ObserverMarksThenUnobserves` | main.js:341-348 | the observer path never removes `animated`; an element it stops observing is one it has marked |
| `ScrollAnimations.ScrollCheckIsThrottled` | main.js:325-337 | the fallback check runs, and moves `lastAnimationTime` to `now`, only when `now - lastAnimationTime > 100`; when it runs, every element in the viewport ends up animated |
| `ScrollAnimations.AnimatedNeverCleared` | main.js:308-358 | across any mix of fallback checks and observer batches, a marked element stays marked |
| `ScrollAnimations.DroppedScrollLeavesElementUnmarked` | main.js:325-356 | in the fallback, the load check at 1000 ms finds the element below the fold; the scroll at 1050 ms that brings it into the viewport is dropped, and the element stays unmarked (the general rule, that a check within 100 ms changes nothing, is `ScrollCheckIsThrottled`) |
| `ScrollAnimations.Animator.constructor` | main.js:310-358 | all elements start unmarked; the observer observes every element, and the fallback observes none |
| `ScrollAnimations.Animator.HandleScrollAnimation` | main.js:325-337 | the in-place `forEach` over the elements computes `HandleScroll`, and the result reports whether the check ran |
| `ScrollAnimations.Animator.OnIntersection` | main.js:341-348 | the in-place walk over a batch's entries computes `HandleEntries` and keeps "unobserved implies animated" |
| `ContactForm.ShowValidationErrors` | main.js:259-284 | every invalid control is flagged: `error` is added, the old message is replaced, and a listener is added; valid controls are left alone |
| `ContactForm.FirstInvalid` | main.js:286-289 | the result is absent iff the form is valid; otherwise it is the least index of an invalid control |
| `ContactForm.ResetKeepsFeedback` | main.js:180-190 | after a successful send each control takes its reset validity and keeps its `error` class, message and listeners, so a control that carried `error` and becomes valid breaks "no `error` on a valid control" |
| `ContactForm.ResetAfterResubmitLeavesError` | main.js:154-190 | starting from a fresh form, the sequence valid submit, edit to invalid, submit again, first send succeeds ends with a valid control carrying `error` and one message |
| `ContactForm.FailedValidationFeedback` | main.js:157-166 | after an invalid submit: the banner is removed; nothing is sent; each invalid control has `error` and exactly one message; valid controls are untouched; focus is on the first invalid control; and when no valid control had `error` before, exactly the invalid ones have it after |
| `ContactForm.ValidSubmissionOutcome` | main.js:180-199 | a valid submit sends once; its outcome is either the form hidden with the thank-you shown and no banner, or the banner with the form and its data kept |
| `ContactForm.InputClearsFeedback` | main.js:275-283 | editing a control into validity removes its `error` class and its message |
| `ContactForm.ErrorsStayOnInvalid` | main.js:154-283 | submits, edits and failed sends never leave `error` on a valid control |
| `ContactForm.AtMostOneMessageEver` | main.js:262-272 | across any sequence of events, every control's parent holds at most one `.error-message` |
| `ContactForm.ContactFormController.constructor` | main.js:148-151 | the form starts shown, with no banner, no focus and nothing pending |
| `ContactForm.ContactFormController.OnSubmit` | main.js:154-180 | the submit listener computes `Submit` in place and reports whether the data was sent |
| `ContactForm.ContactFormController.ShowValidationErrorsInPlace` | main.js:256-290 | the in-place `forEach` computes `ShowValidationErrors` and focuses `FirstInvalid` |
| `ContactForm.ContactFormController.OnFieldInput` | main.js:275-283 | the attached input listeners update the control as `Input` says, and the whole form state changes as the input step says |
| `ContactForm.ContactFormController.OnSendSettled` | main.js:180-199 | a settled send updates the page as `Settle` says |
| `Security.HardenedLink` | main.js:405-418 | a `javascript:`/`data:` href becomes `#` and its click is cancelled, and other hrefs are kept; a `_blank` link with a missing or empty `rel` gets `noopener noreferrer`, and any other `rel` is kept |
| `Security.NoUnsafeLinksAfter` | main.js:404-418 | after a run, no link has an unsafe href and every `_blank` link has a non-empty `rel` |
| `Security.AddMetasSettles` | main.js:397-426 | after a run the head has a CSP tag and a referrer tag, so a second run adds none |
| `Security.AddMetasCounts` | main.js:397-426 | a run adds exactly one tag of a kind when none matched, and none otherwise |
| `Security.ApplyIdempotent` | main.js:395-427 | running the hardening twice is the same as running it once |
| `Security.RepeatedRunsAddAtMostOne` | main.js:395-427 | any number of runs (at least one) equals one run, and leaves one tag of each kind when there was none before |
| `Security.CountCsp` | main.js:397 | the count of matching CSP tags is zero iff the selector finds none |
| `Security.Document.ApplySecurityMeasures` | main.js:395-427 | the in-place run, with its two loops over the links, computes `Secured` |
| `Common.ContainsIffOccurs` | main.js:435-439 | `includes` is true iff the marker occurs at some position |
| `Environment.DevEnvironmentCharacterised` | main.js:430-441 | a host is a dev host iff it is `localhost` or `127.0.0.1`, starts with `192.168.`, has `.local`, `.test`, `-dev.`, `.dev.` or `-staging.` at some position, or ends with `.ngrok.io` |
| `Environment.SubdomainOfDevHostIsDev` | main.js:435-440 | a host recognised by a marker or by the ngrok suffix stays recognised with any prefix |
| `Environment.PublicHostIsNotDev` | main.js:430-441 | the site's public host `agricultura.gravata.pe.gov.br` is not a dev host |
| `Environment.LocalHostsAreDev` | main.js:432-440 | `localhost`, `192.168.0.12`, `gravata.local` and `abc123.ngrok.io` are dev hosts |

## Left out

- DOM lookups and listener registration (`querySelector`, `addEventListener`) are not modelled. A missing element is a flag or a constructor argument, except for the five form inputs below. An event on an element that does not exist cannot occur.
- The form model assumes the page has the inputs `#name`, `#email`, `#phone`, `#subject` and `#message` (main.js:171-175). Without one of them, a valid submit throws a TypeError when it reads `.value`, before `emailFormData` is called: nothing is sent, and neither the thank-you message nor the banner appears. `Submit`, `ValidSubmissionOutcome` and `ContactFormController.OnSubmit` describe a page that has all five.
- When the page has no `header`, no scroll listener exists. `HeaderController` models a page that has one.
- Smooth anchor scrolling (main.js:122-144) is left out. It is float geometry plus `window.scrollTo` and `history.pushState`.
- The send simulation `emailFormData` (main.js:204-239) is left out. It uses a timer and `Math.random`, so its outcome is an input `success`. Console logging is not modelled either.
- `sanitizeInput` and DOMPurify (main.js:294-304) are left out. DOMPurify is a foreign library. The native fallback returns its input unchanged, and no field values are modelled.
- Field values are not modelled, only validity. The text of an error message (`validationMessage` or the fallback text) is not modelled either.
- Removing an input listener is not modelled, because the script never removes them.
- `form.reset()` does not fire `input` events, so it can leave `error` on a control that becomes valid (`ResetKeepsFeedback`, `ResetAfterResubmitLeavesError`). `ErrorsStayOnInvalid` excludes the reset. The reset's new validity is an input, because field values are not modelled.
- Each form control is taken to have a parent element of its own. `showValidationErrors` and the `input` listeners remove the first `.error-message` anywhere under the control's parent (`parentNode.querySelector`). When several controls share a parent, one control's pass can remove another control's message. `FailedValidationFeedback` ("exactly one message") and `AtMostOneMessageEver` then count per parent, not per control, and the model does not capture this.
- The form is taken to hold no `<fieldset>`. `querySelectorAll(':invalid')` (main.js:257) also matches a fieldset that contains an invalid control, and a fieldset comes before its descendants. With one, `invalidFields[0]` is the fieldset, and `focus()` (main.js:288) does nothing, since a fieldset cannot take focus. The fieldset also gets `error`, an `.error-message` in its parent and an `input` listener that runs on every input bubbling up from inside it. `FirstInvalid`, `FailedValidationFeedback` and `ErrorsStayOnInvalid` describe a form whose `:invalid` elements are exactly its invalid controls.
- Both scroll throttles drop scroll events, and nothing runs the check again later. The fallback animation check drops an event within 100 ms of the last check. The header drops an event within 100 ms of the scroll event that scheduled the last check, and every event while a check is pending (`ticking`). The header also gets no check at load. The header's `scrolled` class can therefore disagree with the current offset, and an element in the viewport can stay unmarked, until the next scroll event more than 100 ms later (`DroppedScrollLeavesHeaderStale`, `DroppedScrollLeavesElementUnmarked`). The model keeps the source's behaviour and does not promise "scrolled iff offset above 50" or "marked as soon as visible".
- The staggered transition delays (main.js:361-371) are left out. They are float-formatted strings.
- Service-worker registration (main.js:375-392) is I/O and is left out.
- IntersectionObserver decides which entries a batch holds (its 10% threshold). Each batch is therefore an input.
- `ScrollAnimations.InViewport` uses integer box coordinates and the exact ratio 9/10. The floating-point product `height * 0.9` is not modelled.
- `Security.IsUnsafeHref` is the literal, case-sensitive prefix test the script performs. How the browser parses a URL (scheme case-folding, stripped leading whitespace) is not modelled.
- `Security.IsCsp`, `Security.OpensNewContext`: attribute values are compared exactly. HTML matches `http-equiv` and `target` selector values ASCII case-insensitively, and that is not modelled.
- The meta-tag lookups search the whole document. The model keeps the document's meta tags as one list, and new tags are appended at its end.
- The verbatim CSP policy string is a constant. Nothing is proved about its contents.
