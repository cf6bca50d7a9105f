# Portfolio page behaviours, modelled in Dafny

A model of the decision logic in the client-side script of a static
portfolio site (`assets/js/main.js`). The script wires five behaviours to
the page when the document is ready — a mobile menu toggle, smooth in-page
scrolling, active-section highlighting, scroll-triggered reveal, a
dark/light mode toggle with a stored preference — and exposes a contact-form
validator. The DOM and browser services are replaced by plain inputs and
state:

- the page's forms are a map from form id to the values of the form's
  named controls; an `alert` is the message carried by a `Reject` outcome;
- sections are `(id, offsetTop, offsetHeight)` records read afresh on each
  scroll event (only their ids are fixed at load), navigation links are
  their `href` strings, and each link's `active` class is one cell of an
  array;
- each animated element's "shown" state (opacity 1, no shift) is one cell of
  an array; the bounding-box tops and the viewport height of a scroll event
  are inputs;
- `localStorage` is a map from key to value, `matchMedia('(prefers-color-scheme:
  dark)')` is a boolean input, the body's `light-mode` class and the button
  icons are fields;
- event listeners are methods the caller invokes; whether a listener was
  attached at all is a constant fixed by the setup.

Modules: `Text` (JavaScript's whitespace class, `trim`, `includes`),
`Email` (the address pattern), `FormValidation`, `SectionHighlight`,
`ScrollReveal`, `DarkMode`, `MobileMenu`, and `Wrappers` (`Option`).

The model keeps the code's edge cases as written. One may be unexpected:
when no section contains the probe point, the code tests
`href.includes(current)` with `current == ""`, which holds for every link,
so every link is marked rather than none
(`SectionHighlight.EmptyCurrentMarksEveryLink`). The validator's "no such
form means valid" behaviour is likewise kept.

## Model

| member | source | states |
|---|---|---|
| `Text.Trim` | assets/js/main.js:184-186 | a trimmed value is empty exactly when the original is all whitespace, and otherwise starts and ends with a non-whitespace character |
| `Text.TrimIsSlice` | assets/js/main.js:184-186 | trimming only removes whitespace, and only from the two ends: the result is a contiguous slice with whitespace on both sides of it |
| `Text.TrimIdempotent` | assets/js/main.js:184-186 | trimming an already trimmed value changes nothing |
| `Text.IncludesIffOccurs` | assets/js/main.js:92 | `includes` holds exactly when the substring occurs at some index (the empty string occurs everywhere) |
| `Email.EmailOkIsPattern` | assets/js/main.js:195 | the decision made from the first `@` (non-empty local part, no whitespace or second `@` anywhere, a dot strictly inside the domain) accepts exactly the strings `^[^\s@]+@[^\s@]+\.[^\s@]+$` matches |
| `Email.EmailOkMatches` | assets/js/main.js:195 | every accepted address splits into three non-empty `[^\s@]` runs around an `@` and a `.` |
| `Email.MatchIsEmailOk` | assets/js/main.js:195 | every split the pattern allows is found by the first-`@` decision |
| `Email.AcceptedEmailHasOneAt` | assets/js/main.js:195 | an address the pattern accepts contains exactly one `@` |
| `Email.EmailExamples` | assets/js/main.js:195 | `a@b.com` is accepted and `bob@nodot` is rejected |
| `FormValidation.ValidateForm` | assets/js/main.js:180-201 | a missing form is accepted with no check; otherwise the fill-all alert is returned exactly when one of name, email, message is missing or whitespace-only, the e-mail alert exactly when all are filled and the trimmed e-mail does not match the pattern, and submission exactly when neither |
| `FormValidation.ContactVerdict` | assets/js/main.js:184-200 | on a form holding the three controls, the verdict depends only on whether each value is whitespace-only and whether the trimmed e-mail matches |
| `FormValidation.ContactAccepted` | assets/js/main.js:180-200 | name "A", e-mail "a@b.com", message "hi" is submitted |
| `FormValidation.ContactNoDotRejected` | assets/js/main.js:194-198 | e-mail "bob@nodot" is refused with the e-mail alert |
| `FormValidation.ContactEmptyNameRejected` | assets/js/main.js:189-192 | an empty name is refused with the fill-all alert |
| `SectionHighlight.CurrentIsLastMatch` | assets/js/main.js:77-87 | the current section is the id of the last section in document order whose band `[top, top+height)` contains the probe, and `""` when none does |
| `SectionHighlight.LastMatchExists` | assets/js/main.js:80-87 | when some section contains the probe, a last such section exists |
| `SectionHighlight.ScanSections` | assets/js/main.js:77-87 | the loop over the sections, probing at `pageYOffset + 200`, ends with the current section of the specification |
| `SectionHighlight.MarkedIffOccurs` | assets/js/main.js:92-94 | a link is marked exactly when the current id occurs in its href; the `'#' + current` comparison adds nothing |
| `SectionHighlight.EmptyCurrentMarksEveryLink` | assets/js/main.js:77-94 | when no section is current, every link is marked |
| `SectionHighlight.Highlighter.constructor` | assets/js/main.js:71-72 | the highlighter holds the section ids and link hrefs found at load and the links' existing marks |
| `SectionHighlight.Highlighter.HighlightNavItem` | assets/js/main.js:76-96 | given the sections' offsets read on this event, afterwards each link's mark is exactly whether it is marked for the current section; the earlier marks have no influence |
| `SectionHighlight.Highlighter.Scroll` | assets/js/main.js:74-99 | with no sections or no links nothing is listening and the marks are unchanged; otherwise the marks are recomputed from this event's layout |
| `ScrollReveal.Reveal.constructor` | assets/js/main.js:110-115 | every animated element starts hidden |
| `ScrollReveal.Reveal.AnimateElements` | assets/js/main.js:117-128 | an element is shown afterwards exactly when it was shown before or its top is above `innerHeight / 1.2`; no element is hidden |
| `ScrollReveal.RevealIsMonotone` | assets/js/main.js:120-127 | over any series of scroll events a shown element stays shown |
| `ScrollReveal.ShownIffEverInView` | assets/js/main.js:117-131 | after a series of runs an element is shown exactly when it was shown at the start or was above the threshold in one of the runs |
| `DarkMode.InitialDark` | assets/js/main.js:161-168 | a stored "off" gives light mode; no stored value or an empty one follows the operating system; any other stored value gives dark mode |
| `DarkMode.StoredPreferenceWins` | assets/js/main.js:152-164 | the value `setDarkMode` stores brings back the same mode on the next load whatever the system prefers |
| `DarkMode.Toggle.Setup` | assets/js/main.js:135-168 | without a header nothing changes; with one the startup mode is applied: body class, icon and stored value all set from it and in agreement |
| `DarkMode.Toggle.SetDarkMode` | assets/js/main.js:148-153 | the body has `light-mode` exactly when not dark, the icon is the moon exactly when dark, the `darkMode` key holds "on"/"off" and no other key changes |
| `DarkMode.Toggle.Click` | assets/js/main.js:155-158 | a click, whatever the storage or icon held, switches to the opposite of the body-class mode, sets the matching icon and stores the new mode |
| `DarkMode.TwoClicksRestore` | assets/js/main.js:148-158 | with the icon matching the body class, two clicks restore the class and icon whatever the storage held; the store then holds the second click's mode |
| `MobileMenu.Menu.Setup` | assets/js/main.js:4-19 | without header content nothing is created; otherwise a bars toggle is created unless one exists; handlers listen only when the navigation list also exists |
| `MobileMenu.Menu.ToggleClick` | assets/js/main.js:21-26 | a toggle click flips the open state and sets the icon and `aria-expanded` to the new state |
| `MobileMenu.Menu.NavLinkClick` | assets/js/main.js:29-37 | a link click closes the menu, shows bars and sets `aria-expanded` to "false" when the viewport is at most 768 pixels wide, and changes nothing otherwise |
| `MobileMenu.TwoTogglesRestore` | assets/js/main.js:21-26 | two toggle clicks restore the open state, with the button matching it |

## Left out

- Smooth scrolling (assets/js/main.js:41-67): `scrollTo`, `history.pushState` and `location.hash` are browser side effects; its only decision, skipping the hrefs `#` and `#!`, is not modelled.
- DOM querying, element creation, `appendChild` and the `innerHTML` icon markup: icons are enumerations and elements are records or array cells.
- Event-listener registration: the handlers are methods called directly; the run that each setup makes once at load is the same call as a scroll event.
- CSS transition and transform strings: the reveal state is one flag per element.
- Layout numbers are exact: `offsetTop` and `offsetHeight` are integers, the scroll offset, element tops and viewport height are exact reals, so `innerHeight / 1.2` has no IEEE rounding.
- A navigation link without an `href` attribute: the script would throw on `href.includes`; the model gives every link an href.
- Repeated dark-mode setup creating a second button: each `DarkMode.Toggle` models one setup run.
- Changes to the body class made by anything other than the toggle are not modelled; changes to the shared storage by other tabs are allowed between calls, since no handler assumes anything about the stored value.
