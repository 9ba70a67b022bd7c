# Portfolio site interaction logic, modelled in Dafny

This project models the stateful parts of a React portfolio site: six
components whose logic is small, sequential and explicit once timers and the
DOM are treated as discrete events and inputs.

- **Chrono Trigger easter egg** (`EasterEgg`, `easter_egg.dfy`).
  - Each key press is lower-cased and filtered to x, a, b, y.
  - Accepted keys slide through a four-key window.
  - The window is compared with the code x, a, b, y, and a match unlocks for good.
  - On unlock, a looping audio track is created once and played.
  - A toggle pauses and resumes the track; unmounting stops it, rewinds it and drops it.
- **Loading screen** (`Loading`, `loading_screen.dfy`).
  - A 20 ms interval adds 2 to the progress until the value is already at least 100.
  - It then clears itself and schedules the completion callback after 500 ms.
- **Hero typing effect** (`Typewriter`, `typewriter.dfy`).
  - A 100 ms interval with a mutable index shows growing prefixes of "Hi! I'm Eddy".
  - It stops its own timer once the whole greeting is shown.
- **Navigation bar** (`Navigation`, `navigation.dfy`).
  - `isScrolled` is set beyond 50 px.
  - A scroll handler makes active the first section whose box contains `scrollY + 100`.
  - A nav item is highlighted when its `href` without `#` is the active section.
  - Scrolling to a section closes the mobile menu; the menu button toggles it; the overlay closes it.
- **Skill bars** (`Skills`, `skills.dfy`).
  - Once a bar is in view, a 16 ms interval adds `level / 125` to an accumulator.
  - Each tick shows the accumulator's floor; when it reaches `level`, the bar shows exactly `level` and stops.
  - The accumulator is kept exactly, as the integer `acc = 125 * start`.
- **Contact form** (`Contact`, `contact.dfy`).
  - Four controlled fields and focus tracking.
  - The submit handler's transitions for the three outcomes of the request: ok, not ok, thrown.

`wrappers.dfy` holds the shared `Option` type.

Each component is a class whose methods change the component's state as the source does. The four components driven by a stream of events have a second half as well: the easter egg (key presses), the loading screen, the typing effect and the skill bars (timer firings).

- **A pure description of its step.** This is the state updater or interval callback as a function, with the state after `n` events defined by recursion. The lemmas about it are closed forms, bounds, monotonicity and if-and-only-if characterisations.
- **The link from the class to the step.** Each method's `ensures` ties the new state to the pure step. Each method also keeps a `Valid()` invariant that links the fields to the history of events.

The navigation bar and the contact form have no such step. The navigation bar's scan handler is proved equal to a first-match function that is characterised on its own; its other methods state their new state outright. The contact form's methods state each transition directly, together with a field-update function and its algebra. Its `Valid()` only bounds the number of requests in flight.

Timers work as follows:

- An interval firing is a `Tick` method that requires the interval to still be registered.
- A scheduled timeout is a pending counter, fired by its own method.
- Cleanup clears the registration flag, so no tick can follow it.

## Model

| member | source | states |
|---|---|---|
| `EasterEgg.ToLower` | src/components/ChronoTriggerEasterEgg.jsx:20 | lower-casing keeps the length, turns each ASCII capital into its lower-case letter (code point + 32), keeps every other character, and leaves no capital |
| `EasterEgg.Accept` | src/components/ChronoTriggerEasterEgg.jsx:20-22 | a raw key passes the listener's filter exactly when its lower-cased form is one of x, a, b, y, and it then counts as that letter |
| `EasterEgg.Parse` | src/components/ChronoTriggerEasterEgg.jsx:22 | the alphabet filter accepts a lower-cased key exactly when it is one of "x", "a", "b", "y", and then names that letter |
| `EasterEgg.LowerCaseAccepts` | src/components/ChronoTriggerEasterEgg.jsx:20-22 | exactly the eight keys x, X, a, A, b, B, y, Y survive lower-casing and the filter |
| `EasterEgg.LastFour` | src/components/ChronoTriggerEasterEgg.jsx:24 | `slice(-4)` yields the last min(n, 4) elements, in order |
| `EasterEgg.LastFourSlides` | src/components/ChronoTriggerEasterEgg.jsx:24 | sliding one key into the previous window gives the window of the whole history plus that key |
| `EasterEgg.Letters` | src/components/ChronoTriggerEasterEgg.jsx:24 | the window as the array the component stores: one string per key, in order, each that key's one-letter string |
| `EasterEgg.JoinOfSingletons` | src/components/ChronoTriggerEasterEgg.jsx:26 | `join('')` of one-character strings has one character per part, in order, each that part's character |
| `EasterEgg.JoinComparesWindows` | src/components/ChronoTriggerEasterEgg.jsx:26 | comparing the joined strings of the window and of the code holds exactly when the window equals the code |
| `EasterEgg.CodeEntered` | src/components/ChronoTriggerEasterEgg.jsx:26 | the handler's joined-string match test returns true exactly when the window is x, a, b, y |
| `EasterEgg.StepInvariants` | src/components/ChronoTriggerEasterEgg.jsx:22-41 | one key press (the filter with the `!unlocked` guard and the `setSequence` updater) leaves an unlocked detector and a filtered-out key alone, never grows the buffer beyond four keys, and leaves the code in the buffer when it unlocks |
| `EasterEgg.RunWindow` | src/components/ChronoTriggerEasterEgg.jsx:22-24 | after any key presses the buffer holds at most four keys; while locked it is the last min(n, 4) accepted keys in order; once unlocked it is the code |
| `EasterEgg.RunUnlocked` | src/components/ChronoTriggerEasterEgg.jsx:22-27 | the detector is unlocked exactly when some prefix of the key presses ends, among its accepted keys, with the code |
| `EasterEgg.UnlockIsPermanent` | src/components/ChronoTriggerEasterEgg.jsx:22 | once unlocked, any further key presses leave both the buffer and the flag unchanged |
| `EasterEgg.OtherKeysIgnored` | src/components/ChronoTriggerEasterEgg.jsx:20-22 | a key other than the eight accepted ones leaves the buffer and the flag as they were |
| `EasterEgg.UnlocksExactlyOnMatch` | src/components/ChronoTriggerEasterEgg.jsx:24-27 | from a locked state, the next key unlocks if and only if the window after it is the code |
| `EasterEgg.SixthKeyUnlocks` | src/components/ChronoTriggerEasterEgg.jsx:24-27 | after a, b, x, a the key b slides the window to b, x, a, b without unlocking, and y then unlocks |
| `EasterEgg.FirstFourKeysFromMount` | src/components/ChronoTriggerEasterEgg.jsx:22-24 | from mount, the presses a, b, x, a are buffered in order and do not unlock |
| `EasterEgg.SixthKeyUnlocksFromMount` | src/components/ChronoTriggerEasterEgg.jsx:22-27 | from mount, the presses a, b, x, a, b leave the egg locked with b, x, a, b buffered (the oldest key slid out), and a sixth press y unlocks it with the code in the buffer |
| `EasterEgg.UpperCaseUnlocks` | src/components/ChronoTriggerEasterEgg.jsx:20-27 | X, A, B, Y are accepted as x, a, b, y, and Y after x, a, b unlocks |
| `EasterEgg.EasterEgg.constructor` | src/components/ChronoTriggerEasterEgg.jsx:10-14 | on mount the buffer is empty, the egg is locked, no achievement, not playing, no audio, and the key listener is attached |
| `EasterEgg.EasterEgg.HandleKeyPress` | src/components/ChronoTriggerEasterEgg.jsx:19-43 | a key press moves the detector by one step; a frozen buffer once unlocked; the unlocking press creates a fresh track and starts playing it from position 0; every other press leaves the audio and `isPlaying` alone; the invariant ties the state to all keys so far, keeps `showAchievement` equal to `unlocked`, and allows at most one track ever |
| `EasterEgg.EasterEgg.StartMusic` | src/components/ChronoTriggerEasterEgg.jsx:31-37 | with no track yet, a new track for the Corridors of Time file is created, looping, at volume 0.3, playing from position 0, and `isPlaying` becomes true |
| `EasterEgg.EasterEgg.ToggleMusic` | src/components/ChronoTriggerEasterEgg.jsx:60-69 | with no track nothing changes; otherwise the track is paused if playing and played if paused, keeping its position, and `isPlaying` flips |
| `EasterEgg.EasterEgg.Unmount` | src/components/ChronoTriggerEasterEgg.jsx:46-56 | the listener is detached; an existing track is paused and rewound to 0, and the reference is cleared; `isPlaying` and the detector are kept |
| `Loading.AdvanceKeepsRange` | src/components/LoadingScreen.jsx:9-16 | from any progress up to 100, the updater never goes backwards and adds at most 2; it leaves exactly 100 when it stops the interval, and it keeps an even progress within [0, 100] |
| `Loading.ProgressClosedForm` | src/components/LoadingScreen.jsx:5-17 | after n ticks progress is 2n up to tick 50 and 100 from then on |
| `Loading.ProgressBounded` | src/components/LoadingScreen.jsx:10-15 | progress is always even and within [0, 100] |
| `Loading.ProgressMonotone` | src/components/LoadingScreen.jsx:9-16 | progress never decreases from one tick to a later one |
| `Loading.ReachesFullOnTickFifty` | src/components/LoadingScreen.jsx:10-15 | progress is 100 exactly from tick 50 on |
| `Loading.FinishesOnTickFiftyOne` | src/components/LoadingScreen.jsx:10-13 | the tick that clears the interval and schedules completion is the 51st; every earlier tick keeps the interval running |
| `Loading.LoadingScreen.constructor` | src/components/LoadingScreen.jsx:5-8 | on mount progress is 0, the interval is registered and nothing is scheduled |
| `Loading.LoadingScreen.Tick` | src/components/LoadingScreen.jsx:8-17 | a tick applies the updater: below 100 it adds 2; at 100 or more it yields 100, clears the interval and schedules one completion; scheduled plus delivered completions never exceed one |
| `Loading.LoadingScreen.FireCompletion` | src/components/LoadingScreen.jsx:12 | the 500 ms timeout calls the completion callback, at most once over the screen's life |
| `Loading.LoadingScreen.Unmount` | src/components/LoadingScreen.jsx:19 | cleanup clears the interval, so no tick can follow; a completion already scheduled is kept |
| `Typewriter.TypeStep` | src/components/Hero.jsx:40-47 | a firing keeps the text a prefix of the greeting; while the timer runs, the text is the first index − 1 characters; the stopping firing keeps text and index |
| `Typewriter.TypingClosedForm` | src/components/Hero.jsx:38-47 | after n ≤ 13 firings the index is n and the text is the first n − 1 characters (empty at first); from firing 14 on, the timer is stopped with the whole greeting shown |
| `Typewriter.TextIsPrefix` | src/components/Hero.jsx:42 | the shown text is always a prefix of the greeting |
| `Typewriter.TextLengthMonotone` | src/components/Hero.jsx:41-43 | the shown text never gets shorter |
| `Typewriter.FullAfterLengthPlusOne` | src/components/Hero.jsx:41-43 | after length + 1 firings the whole greeting is shown and the timer is still registered |
| `Typewriter.StopsOnNextFiring` | src/components/Hero.jsx:44-46 | the next firing clears the timer and leaves the text as it was |
| `Typewriter.ShowsFullExactly` | src/components/Hero.jsx:41-46 | the text is the whole greeting exactly from firing length + 1 on |
| `Typewriter.TypingEffect.constructor` | src/components/Hero.jsx:5 | on mount the text is empty, the index 0 and the interval registered |
| `Typewriter.TypingEffect.Tick` | src/components/Hero.jsx:40-47 | a firing advances the effect by one step: while the index is at most the length, it shows that prefix and increments the index, otherwise it clears the timer; the text stays a prefix and never shrinks |
| `Typewriter.TypingEffect.Unmount` | src/components/Hero.jsx:49 | cleanup clears the interval and keeps the text |
| `Navigation.ContainsHalfOpen` | src/components/Navigation.jsx:25 | the position test is half-open: a box with height contains its top edge, no box contains its bottom edge, and of two stacked boxes at most one contains a position |
| `Navigation.FirstMatch` | src/components/Navigation.jsx:18-30 | a section the scan returns is one of the scanned sections, is on the page, and its box contains the position |
| `Navigation.FirstMatchIsEarliest` | src/components/Navigation.jsx:21-28 | the scan returns s exactly when s is a hit at some index and no earlier section is present with a box containing the position; later hits never override it |
| `Navigation.FirstMatchNone` | src/components/Navigation.jsx:21-30 | the scan finds nothing exactly when no section is present with a box containing the position; absent sections are skipped |
| `Navigation.HashLinkActive` | src/components/Navigation.jsx:85 | `href.slice(1)` removes the `#` of `#id`, so an item linking to `#id` is highlighted exactly when `id` is the active section |
| `Navigation.NavItemsLinkSections` | src/components/Navigation.jsx:37-44 | the six nav items follow the scanned section order, and each `href` without its first character is the section at that index |
| `Navigation.SectionsDistinct` | src/components/Navigation.jsx:18 | the six section ids are pairwise different |
| `Navigation.ExactlyOneActive` | src/components/Navigation.jsx:85 | for any section the tracker can hold, exactly one nav item is highlighted |
| `Navigation.NavigationBar.constructor` | src/components/Navigation.jsx:6-8 | on mount the bar is not scrolled, `home` is active and the menu is closed |
| `Navigation.NavigationBar.OnScrollChange` | src/components/Navigation.jsx:11-13 | `isScrolled` is true exactly when the scroll offset is strictly above 50 |
| `Navigation.NavigationBar.HandleScroll` | src/components/Navigation.jsx:17-31 | the loop with early exit makes the first hit among home, about, skills, timeline, projects, contact active at `scrollY + 100`, and keeps the previous section when there is none |
| `Navigation.NavigationBar.ScrollToSection` | src/components/Navigation.jsx:46-52 | when the `#id` selector finds an element, it is scrolled to and the menu closes; otherwise nothing changes |
| `Navigation.NavigationBar.ToggleMobileMenu` | src/components/Navigation.jsx:127 | the menu button negates `isMobileMenuOpen` |
| `Navigation.NavigationBar.CloseMobileMenu` | src/components/Navigation.jsx:229 | an overlay click closes the menu |
| `Skills.StepsFitDuration` | src/components/Skills.jsx:14-15 | `duration / 16` is exactly 125 firings, which span exactly 2000 ms |
| `Skills.CountTick` | src/components/Skills.jsx:17-24 | a firing adds `level` to the scaled accumulator, never shows more than `level`, shows exactly `level` when it stops, otherwise shows the accumulator's floor below `level`, and never lowers a count that was at most that floor |
| `Skills.CounterClosedForm` | src/components/Skills.jsx:12-25 | before the finishing tick the accumulator is n·level/125 and the count its floor; from then on the count is exactly `level` and the timer stopped |
| `Skills.CountBounded` | src/components/Skills.jsx:19-23 | the count never exceeds `level` |
| `Skills.CountIsFloorWhileRunning` | src/components/Skills.jsx:18-23 | while the timer runs, the count is the floor of the accumulator, which after the first tick is below `level` |
| `Skills.CountMonotone` | src/components/Skills.jsx:17-25 | the count never decreases over ticks |
| `Skills.FinishesOnTick` | src/components/Skills.jsx:15-21 | the timer stops exactly from tick 125 on (tick 1 when `level` is 0), and the count is then exactly `level` |
| `Skills.SkillBar.constructor` | src/components/Skills.jsx:7-8 | on mount the count is 0, the bar is not in view and no timer runs |
| `Skills.SkillBar.EnterView` | src/components/Skills.jsx:10-17 | the first time the bar comes into view, the effect starts the timer from a zero accumulator; later calls change nothing |
| `Skills.SkillBar.Tick` | src/components/Skills.jsx:17-25 | a firing applies one count-up step; the count stays at most `level` and never decreases |
| `Skills.SkillBar.Unmount` | src/components/Skills.jsx:27 | cleanup clears the interval and keeps the count |
| `Contact.WithField` | src/components/Contact.jsx:16-21 | the spread update gives the named field the new value and keeps the other three |
| `Contact.WithFieldUnchanged` | src/components/Contact.jsx:17-20 | writing a field its current value leaves the form unchanged |
| `Contact.WithFieldOverrides` | src/components/Contact.jsx:17-20 | a second write to the same field overrides the first |
| `Contact.WithFieldCommutes` | src/components/Contact.jsx:17-20 | writes to different fields commute |
| `Contact.EmptyFormNotFilled` | src/components/Contact.jsx:221 | the form as reset after a successful send does not pass the `required` checks on the inputs (the same attribute sits on each of the four inputs, at lines 221, 248, 275 and 301) |
| `Contact.WithFieldFilled` | src/components/Contact.jsx:221 | after an edit, the form passes the `required` checks exactly when the new value and the other three fields are non-empty |
| `Contact.ContactForm.constructor` | src/components/Contact.jsx:5-14 | on mount all four fields are empty, nothing is focused, nothing is submitting and there is no status |
| `Contact.ContactForm.HandleChange` | src/components/Contact.jsx:16-21 | only the edited field changes, to the typed value |
| `Contact.ContactForm.Focus` | src/components/Contact.jsx:219 | focusing a field sets `focusedField` to its name; each input's `onFocus` passes its own name (lines 219, 246, 273 and 299) |
| `Contact.ContactForm.Blur` | src/components/Contact.jsx:220 | blurring a field sets `focusedField` to null |
| `Contact.ContactForm.Submit` | src/components/Contact.jsx:23-34 | the handler runs exactly when the button is enabled (not submitting) and the required fields pass validation; it then sets `isSubmitting` before any outcome is known and sends the current form; a stuck form (`isSubmitting` set, nothing in flight) stays stuck and is never sent again; `Focus` and `Blur` keep it stuck too |
| `Contact.ContactForm.Settle` | src/components/Contact.jsx:36-47 | ok: not submitting, status success, all four fields emptied, one reset scheduled; thrown: not submitting, status error, form kept, one reset scheduled; not ok: nothing else changes and the form is left stuck with `isSubmitting` true, which happens exactly for that outcome |
| `Contact.ContactForm.FireStatusReset` | src/components/Contact.jsx:41-46 | the 5000 ms timeout returns the status to null and changes nothing else |

## Left out

- Rendering, class names, animations, springs and the mouse-follow glow are not modelled. Neither are the other components (About, Timeline, Footer, Projects, GlowCard, MagneticButton, BackToTop) or App.jsx. Where these hold state, it is presentation flags set by hover enter/leave (Projects' `isHovering`, GlowCard's `isHovered`), a click (Projects' `showPreview`, Projects.jsx:122) or a scroll threshold (BackToTop's `isVisible`, offset above 500, BackToTop.jsx:9). They are left out as presentation.
- Real time is not modelled. Intervals and timeouts are discrete events. Their periods and delays (`TickPeriod`, `CompletionDelay`, `StatusResetDelay`) appear only as named constants that no proof uses; the exception is the skill bar's duration, which `Skills.StepsFitDuration` ties to its 125 firings.
- React render scheduling is not modelled. This covers batched state updates, StrictMode double-invoked updaters, and effects re-registered when `unlocked` changes. The stale-closure reads that follow from these are left out too: for example, `handleChange` spreads the form captured at render time.
- `EasterEgg.ToLower`: models lower-casing of ASCII A–Z only. The non-ASCII part of the Unicode default case mapping that `toLowerCase` applies is left out: 'É' becomes 'é' in the browser but is kept here, and 'İ' becomes "i̇", which also changes the length. Every character other than A–Z is kept unchanged.
- `EasterEgg.EasterEgg.HandleKeyPress`: `Audio.play()` is assumed to start playback. A rejected play promise (autoplay blocking) is left out, because it is browser behaviour the component does not handle.
- The audio element is an opaque resource with `loop`, `volume`, `paused` and `currentTime`; decoding and output are left out. The window holds the accepted keys as an enumeration of x, a, b, y. `Letters` gives the one-letter strings the component stores, and the joined-string comparison is proved equal to comparing the windows.
- The DOM is an input. `getElementById` is a map from section id to `offsetTop`/`offsetHeight`, with sizes as reals.
- `Navigation.NavigationBar.ScrollToSection`: `querySelector` is modelled for `#id` selectors only, which are the only ones the component passes. Smooth scrolling is a side effect that is not modelled beyond the returned flag.
- `Skills.SkillBar.Tick`: the accumulator is exact (scaled by 125) rather than IEEE floating point. Tick counts may differ from the browser's where float rounding changes when `start >= end` first holds. For `level` 90, which four of the listed skills use, 125 double-precision additions of 90/125 stay just below 90: the browser shows 89 on firing 125 and stops only on firing 126, where `Skills.FinishesOnTick` says 125. Levels 75, 80, 85 and 95 finish on firing 125 in both. `level` is a natural number; the site uses 75 to 95.
- `useInView`'s viewport geometry and margin are left out; coming into view is the `EnterView` event.
- The network request to the form backend is not modelled; its outcome (ok, not ok, thrown) is an input to `Settle`. The request body is recorded as the form's contents; the hidden fields are left out.
- `Contact.ContactForm.Submit`: the browser's e-mail format check is an input (`emailAccepted`); only the `required` non-empty check is modelled.
- The loading screen has no "already visited this session" skip and uses no session storage; it runs from 0 on every mount.
- Unmounting the loading screen clears only the interval. A completion timeout already scheduled still fires (`Loading.LoadingScreen.Unmount` keeps it pending).
- The contact form's non-ok outcome leaves `isSubmitting` true with no request in flight. The submit button then stays disabled. This is modelled as written (`Contact.ContactForm.Stuck`) rather than corrected, because the intended behaviour is not evident from the code.
- The achievement popup and music button render whenever `unlocked` holds. `showAchievement` is set alongside it and is never read; the invariant keeps the two equal.
