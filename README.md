# Portfolio page interactions, modelled in Dafny

This project models the behaviour of `script.js`, the interaction script of a
personal portfolio page. Under the DOM wiring are three small widgets. Each is
modelled as a class whose fields stand for the page state the script writes.
Pure functions and lemmas describe what that state means.

- **Theme switcher** (`theme.dfy`, module `ThemeToggle`). One operation writes
  three things together: the root element's `data-theme` attribute, the value
  stored under the key `theme`, and the toggle button's glyph. A click flips
  the theme. At page load the stored value is used, or "light" when it is
  absent or empty.
- **Typewriter** (`typing.dfy`, module `Typing`). The state is the word index,
  the character index and the deleting flag, over the word list "Matthias",
  "innovative", "curious", "driven". Each tick shows a prefix of the current
  word and takes one of four guarded transitions. It then picks the delay
  before the next tick: 120, 1500, 60 or 500 ms. `Step` and `FrameOf` give the
  transition and what a tick shows. `Run` and `After` follow a chain of ticks.
  `Typewriter.Tick` is the imperative tick, proved against them.
- **Project modal** (`modal.dfy`, module `ProjectModal`). A carousel of slides
  is built from a project card. It has a wrap-around slide index, an open
  flag, and the scroll offset captured on opening and restored on closing.
  The deferred steps are the 200 ms content swap, the 180 ms hiding and the
  10 ms fade-in cue. Each is a `Timer` value in the `pending` list, and the
  event loop fires it later through `FireSwap`, `FireClose` or `FireFadeIn`.
  That makes the state both before and after each delay visible. Timers are
  never cancelled. Any pending timer may fire next, so every firing order is
  covered.

`wrappers.dfy` holds the `Option` type. It stands for a `null` attribute, a
missing storage key or an element that is not found.

Some behaviours of the code a reader might not expect, all kept in the model:

- The theme is any string, not only "light" or "dark". A stored value such as
  "blue" is applied as it is and shows the moon glyph. The next click then
  switches to "dark".
- Closing does not clear the captured scroll offset. `lockedScrollY` keeps its
  value after the modal is hidden.
- A pending swap is not invalidated by a later close. If ArrowRight is
  followed at once by Escape, the hiding fires at 180 ms and the swap at
  200 ms. The hidden modal's body then holds the next slide again
  (`SwapAfterClose`).
- A swap shows the content chosen when it was scheduled, not the slide that is
  current when it fires.
- Opening a card with no slides is not a complete no-op. The slide list is
  overwritten with the empty list before the guard. If the modal was already
  open it stays open, and the arrows then do nothing.
- Opening a card while the page is still locked captures the wrong offset.
  The fixed body leaves the document nothing to scroll, so the captured offset
  is 0. That happens when a card behind an open modal is activated from the
  keyboard, since focus is not trapped, or when a card is opened during the
  180 ms close fade. The final close then scrolls to the top of the page, not
  back to where the visitor was (`ReopenWhileLocked`).

## Model

| member | source | states |
|---|---|---|
| ThemeToggle.GlyphFor | script.js:10 | the label is the sun exactly when the theme is "dark", and the moon otherwise |
| ThemeToggle.Flipped | script.js:14-15 | a click leads to "light" exactly when the current attribute is "dark"; an absent or any other value leads to "dark" |
| ThemeToggle.StartupMode | script.js:18 | the startup theme is the stored value when it is present and non-empty, and "light" when it is absent or empty |
| ThemeToggle.FlipTwiceRestores | script.js:13-16 | from "light" or "dark", one click changes the theme and two clicks restore it |
| ThemeToggle.GlyphAnnouncesNextTheme | script.js:10-15 | the glyph is the sun exactly when the next click switches to "light", so the label names the theme a click leads to |
| ThemeToggle.ThemeSwitcher.constructor | script.js:18-19 | after page load the attribute holds the startup theme, and the stored value and the glyph agree with it |
| ThemeToggle.ThemeSwitcher.SetTheme | script.js:7-11 | attribute and stored value both become the mode and the glyph becomes that mode's glyph, all three together |
| ThemeToggle.ThemeSwitcher.Toggle | script.js:13-16 | the new theme is the flip of the old attribute, and the three writes stay consistent |
| Typing.Substring | script.js:34 | the shown text is a prefix of the word whose length is the character index clamped to the word length, as `substring(0, i)` does |
| Typing.MoveOf | script.js:39-52 | no guard applies exactly when typing past the end of the word, so no state within bounds falls through |
| Typing.Step | script.js:39-52 | one tick keeps the word index valid and keeps the bounds invariant |
| Typing.FrameOf | script.js:33-51 | the shown text is a prefix of the current word, and the cursor blinks fast exactly on the two pause transitions |
| Typing.TransitionTable | script.js:36-51 | the four rows: type one char (120 ms), pause on the full word and start deleting (1500 ms, fast blink), delete one char (60 ms), pause on the empty prefix and go to the next word with wrap-around (500 ms, fast blink); the text is the prefix before the update |
| Typing.PauseIffCharIndexKept | script.js:39-51 | the cursor blinks fast exactly on ticks that leave the character index unchanged; every other tick moves it by one |
| Typing.Run | script.js:54 | a chain of k ticks yields k frames, and the first one is the frame of the starting state |
| Typing.After | script.js:54 | a chain of ticks keeps the word index valid |
| Typing.AfterInBounds | script.js:28-30 | the bounds invariant holds after any number of ticks |
| Typing.RunSplit | script.js:54 | a chain of a + b ticks is a chain of a ticks followed by a chain of b ticks |
| Typing.TypingPhase | script.js:39-44 | typing from character i shows the prefixes of lengths i to len, one per tick, with the long pause last, and then starts deleting from the full word |
| Typing.DeletingPhase | script.js:45-51 | deleting from character i shows the prefixes of lengths i to 0, with the short pause last, and then moves to the start of the next word with wrap-around |
| Typing.WordCycle | script.js:32-55 | from a word's empty prefix, 2·len + 2 ticks show the prefixes growing to the whole word and shrinking back to "", with the delays of each step, and end at the start of the next word |
| Typing.FirstWordOfPage | script.js:24-30 | on the page's list the first 18 ticks spell out "Matthias" and take it back, and the animation then starts on "innovative" |
| Typing.CycleAfter | script.js:32-55 | a word cycle that starts after a ticks ends after a + 2·len + 2 ticks, at the start of the next word |
| Typing.PageLoop | script.js:24-55 | on the page's list the four words start after 0, 18, 40 and 56 ticks, and after 70 ticks the animation is back in its starting state, so it repeats forever |
| Typing.Typewriter.constructor | script.js:28-30 | the animation starts on the first word with nothing shown, in typing mode |
| Typing.Typewriter.Tick | script.js:32-55 | a tick writes the prefix from before the update, sets the fast-blink flag and returns the delay as `FrameOf` gives them, and moves to `Step`'s state within bounds |
| ProjectModal.FallbackSlides | script.js:103-109 | the fallback is the paragraph's caption, if there is a paragraph, followed by the image's picture, if there is an image: at most two slides, possibly none |
| ProjectModal.BuildSlides | script.js:99-110 | a card with `.slide` elements yields exactly their markup, in order; any other card yields the fallback |
| ProjectModal.EmptyCardIff | script.js:99-110 | a card yields no slides exactly when it has no `.slide` element, no paragraph and no image |
| ProjectModal.JsRem | script.js:114 | JavaScript's `%`, which truncates: Dafny's remainder for a non-negative dividend; for a negative dividend 0 when n divides it and otherwise Dafny's remainder minus n, so it lies in (-n, 0] |
| ProjectModal.WrapIndex | script.js:113-115 | for every index of at least -n, `(index + n) % n` is a valid slide index and equals the index modulo n |
| ProjectModal.WrapIndexEnds | script.js:114 | an index in range is kept, -1 wraps to n - 1 and n wraps to 0 |
| ProjectModal.WrapNeedsLowerBound | script.js:114 | below -n the expression gives a negative index exactly when index + n is not a multiple of n, and it does so at -n - 1 for every n > 1, so the lower bound on the index is needed |
| ProjectModal.NextSlide | script.js:182-186 | the next button moves one slide forward and wraps from the last slide to the first |
| ProjectModal.PrevSlide | script.js:176-180 | the previous button moves one slide back and wraps from the first slide to the last |
| ProjectModal.PrevNextInverse | script.js:176-186 | previous undoes next, and next undoes previous |
| ProjectModal.NextPressesAdvance | script.js:182-186 | k presses of next land on slide (current + k) mod n |
| ProjectModal.PrevPressesRetreat | script.js:176-180 | k presses of previous land on slide (current - k) mod n |
| ProjectModal.FullTurn | script.js:176-186 | n presses of either button come back to the starting slide |
| ProjectModal.Modal.constructor | script.js:71-75 | the page starts with the modal closed and aria-hidden, no slides, slide 0, a captured offset of 0, nothing pending and the body unlocked |
| ProjectModal.Modal.LockBackgroundScroll | script.js:77-86 | the captured offset becomes the scroll offset read before locking; the body is locked and, being fixed, leaves the window's offset at 0 |
| ProjectModal.Modal.UnlockBackgroundScroll | script.js:88-97 | the body is unlocked and the scroll offset becomes the captured one |
| ProjectModal.Modal.RenderSlide | script.js:112-133 | with no slides nothing changes; otherwise the index is wrapped into range and the content is shown at once with the fade-in cue, or the body fades out and a swap to that content is scheduled |
| ProjectModal.Modal.OpenModalWithCard | script.js:135-147 | the slide list always becomes the card's slides; with none nothing else changes; otherwise slide 0 is shown, the modal is open and not aria-hidden, the pre-open offset is captured, the body is locked with the window's offset at 0 and the fade-in cue is scheduled |
| ProjectModal.Modal.CloseModal | script.js:149-163 | the body fades out and the hiding is scheduled; nothing else changes until it fires |
| ProjectModal.Modal.Prev | script.js:176-180 | renders the previous slide with animation, wrapping from the first to the last |
| ProjectModal.Modal.Next | script.js:182-186 | renders the next slide with animation, wrapping from the last to the first |
| ProjectModal.Modal.KeyDown | script.js:192-197 | a key press while the modal is closed, or any key other than Escape and the arrows, changes nothing; Escape starts closing; ArrowLeft and ArrowRight navigate with animation |
| ProjectModal.Modal.FireSwap | script.js:128-132 | when the swap fires, the body shows the content captured at scheduling and fades in, and nothing else changes |
| ProjectModal.Modal.FireFadeIn | script.js:145 | when the cue fires, the body gains the fade-in class, and nothing else changes |
| ProjectModal.Modal.FireClose | script.js:153-162 | when the hiding fires, the modal is closed and aria-hidden, the body is empty, the slides are cleared, the index is 0, the body is unlocked and the scroll offset is the one captured on opening |
| ProjectModal.OpenNextEscape | script.js:135-197 | opening at offset y, ArrowRight and then Escape show the second slide after the swap, and end with the modal hidden and empty and the page back at y |
| ProjectModal.ReopenWhileLocked | script.js:77-97 | opening a second card before the first close has taken effect, then closing, ends with the modal hidden and the page at offset 0, whatever offset the visitor started from |
| ProjectModal.OpenEmptyCard | script.js:135-137 | opening a card with nothing to show leaves a closed modal closed, the body unlocked and the page where it was |
| ProjectModal.SwapAfterClose | script.js:128-162 | ArrowRight followed at once by Escape lets the 180 ms hiding fire before the 200 ms swap, so the hidden modal's body holds the second slide |

## Left out

- Element lookups (`getElementById`, `querySelector`) and missing elements are not modelled. Every element the script uses is taken to be present, because the script itself has no guard for absent elements.
- Slide content is not HTML. `innerHTML` templating (the caption `div` and the `img` tag) is replaced by the `Content` datatype, which keeps where each slide came from.
- CSS classes and inline styles are reduced to booleans: the modal's `open`, the body's `fade-in` and `fade-out`, the cursor's `fast-blink`, and one `bodyLocked` flag for the `modal-open` class and the fixed-position styles.
- `focus()` on the close button is not modelled, because it changes no state the script reads.
- `localStorage` is one optional string field. Storage errors are not modelled, because the script does not catch them.
- `setTimeout` is not modelled as a real clock. Each callback is a pending `Timer` value that carries its delay. Which pending timer fires next is left to the caller, so all orders are covered, including ones a browser would not produce.
- The typewriter's chain of ticks never ends. It is modelled through finite prefixes of any length (`Run`, `After`), not as an infinite object.
- The scroll offset is an integer. The `window.scrollY || documentElement.scrollTop || 0` fallback chain and fractional offsets are not modelled. While the body is fixed the offset is 0; no other change the browser or the visitor makes to it is modelled.
- Event objects (`preventDefault`, `stopPropagation`) and listener registration are not modelled. Each handler is a method the caller invokes.
- ProjectModal.Modal.RenderSlide: requires the index to be at least minus the slide count when there are slides. Every caller meets this, because the current index is always a valid slide index. Below that bound the JavaScript expression can give a negative index (`WrapNeedsLowerBound`).
