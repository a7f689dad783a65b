# Slide navigation of the presentation viewer

This project models the slide-navigation state machine of the presentation page's script,
`initializeSlides` in `static/js/scripts.js`. The page lists its `.slide` elements. Each one
carries a `data-slide` ordinal and may carry the `active` class. The script keeps a
`currentSlide` number. `totalSlides` is fixed to the number of slides. A counter element shows
`currentSlide / totalSlides`.

- `showSlide(n)` removes `active` from every slide. If a slide with ordinal `n` exists, the first
  such slide becomes active, `currentSlide` becomes `n` and the counter is refreshed.
- The previous button and the ArrowLeft key call `showSlide(currentSlide - 1)`, but only when
  `currentSlide > 1`.
- The next button and the ArrowRight key call `showSlide(currentSlide + 1)`, but only when
  `currentSlide < totalSlides`.
- Every other key does nothing.

The model is functional. `Deck.Presentation` is an immutable record holding the slides
(`Deck.Slide(ordinal, active)`), `currentSlide` and the displayed counter pair. Each handler is a
pure transition function. `Navigation.Run` replays a finite sequence of events. It models the
browser delivering the events to the handlers one at a time, in order, each running to completion
before the next starts. That delivery is browser behaviour, not code in the script.
`Navigation.Repeat` only builds sequences of one repeated event for the lemmas. The lemmas in
`NavigationProperties` prove facts over every such sequence, mostly by induction. The keydown
handler is modelled as its own function (`Navigation.Key`), with the guards it repeats from the
buttons. `KeysMatchButtons` proves the two agree.

Two behaviours of the script are kept as they are:

- `showSlide` deactivates every slide even when no slide carries the requested ordinal. On a page
  whose numbering has a gap, that blanks the deck (`GapBlanksDeck`).
- Initialisation sets `currentSlide` to 1 and refreshes the counter, but it does not touch any
  `active` class. The page keeps the flags its HTML set until the first time a Previous, Next or
  arrow-key guard passes and `showSlide` runs. That first run clears them whether or not it finds
  its target (`GapBlanksDeck`).

Files:

- `deck.dfy`: module `Deck` (the slides, the lookup, `showSlide`, initialisation).
- `navigation.dfy`: module `Navigation` (the handlers, event dispatch, replay).
- `properties.dfy`: module `NavigationProperties` (the lemmas).

## Model

| member | source | states |
|---|---|---|
| `Deck.FindOrdinal` | static/js/scripts.js:34-35 | the lookup succeeds exactly when some slide carries ordinal `n`, and then it returns the first such slide in document order |
| `Deck.Deactivate` | static/js/scripts.js:30-32 | afterwards no slide is active, and every slide keeps its position and ordinal |
| `Deck.UpdateCounter` | static/js/scripts.js:24-26 | the counter then shows `(currentSlide, totalSlides)`; the slides and `currentSlide` are untouched |
| `Deck.ShowSlide` | static/js/scripts.js:29-40 | the result satisfies the reference relation `ShowsSlide`: only the first slide with ordinal `n` is active; if that slide exists, `currentSlide = n` and the counter shows `(n, total)`; otherwise both are unchanged |
| `Deck.Init` | static/js/scripts.js:15-16 | after initialisation (lines 15-16 and 70), `currentSlide = 1`, the counter agrees with it, and the slides and their `active` flags are exactly as the page had them |
| `Navigation.Previous` | static/js/scripts.js:43-47 | a no-op when `currentSlide <= 1`; otherwise the result shows slide `currentSlide - 1` in the sense of `ShowsSlide` |
| `Navigation.Next` | static/js/scripts.js:50-54 | a no-op when `currentSlide >= totalSlides`; otherwise the result shows slide `currentSlide + 1` in the sense of `ShowsSlide` |
| `Navigation.Key` | static/js/scripts.js:57-67 | ArrowLeft is a no-op when `currentSlide <= 1` and otherwise shows slide `currentSlide - 1` in the sense of `ShowsSlide`; ArrowRight is a no-op when `currentSlide >= totalSlides` and otherwise shows slide `currentSlide + 1`; any other key leaves the state unchanged |
| `Navigation.Step` | static/js/scripts.js:43-67 | every event keeps the slides and their ordinals, keeps `currentSlide` in range, keeps the counter in agreement, and moves `currentSlide` by at most one |
| `NavigationProperties.ShowsSlideDeterministic` | static/js/scripts.js:29-40 | at most one state satisfies `ShowsSlide(p, n, ·)`, so the relation fully determines the outcome of `showSlide` |
| `NavigationProperties.ShowSlideActivatesFirstMatch` | static/js/scripts.js:30-39 | after `showSlide(n)` the active slides are exactly the first slide with ordinal `n`; when none exists, no slide is active and `currentSlide` and the counter are unchanged |
| `NavigationProperties.CanonicalShow` | static/js/scripts.js:30-38 | on a deck numbered 1..N, any request for `n` in 1..N succeeds, leaves slide `n` as the only active one, and refreshes the counter |
| `NavigationProperties.KeysMatchButtons` | static/js/scripts.js:43-67 | the keydown handler and the button handlers, though written separately, agree: ArrowLeft gives the same transition as the previous button and ArrowRight the same as the next button, from every state; any other key is a no-op |
| `NavigationProperties.CanonicalStep` | static/js/scripts.js:43-54 | on a deck numbered 1..N, an event either changes nothing or leaves exactly one active slide, numbered `currentSlide`, with the counter refreshed; a state that already shows its current slide keeps showing it |
| `NavigationProperties.PreviousThenNext` | static/js/scripts.js:43-54 | on a deck numbered 1..N that shows its current slide, Previous and then Next return to exactly the original state (slides, flags, `currentSlide` and counter) |
| `NavigationProperties.NextThenPrevious` | static/js/scripts.js:43-54 | on a deck numbered 1..N that shows its current slide, Next and then Previous return to exactly the original state |
| `NavigationProperties.RunClampsToRange` | static/js/scripts.js:43-66 | from any state with `1 <= currentSlide <= totalSlides`, every finite sequence of events stays in that range: navigation clamps at both ends and never wraps |
| `NavigationProperties.InitRunInRange` | static/js/scripts.js:15-66 | on a deck with at least one slide, every event sequence run from initialisation keeps `1 <= currentSlide <= totalSlides` |
| `NavigationProperties.RunKeepsSlides` | static/js/scripts.js:29-40 | events change only `active` flags: the slides, their number and their ordinals are preserved |
| `NavigationProperties.RunCounterAgrees` | static/js/scripts.js:24-40 | if the counter shows `(currentSlide, totalSlides)` before a sequence of events, it still does afterwards |
| `NavigationProperties.InitRunCounterAgrees` | static/js/scripts.js:69-70 | from initialisation, the counter agrees with `currentSlide` after every event sequence |
| `NavigationProperties.CanonicalRun` | static/js/scripts.js:43-66 | on a deck numbered 1..N, any event sequence either leaves the state exactly as it was or ends with exactly one active slide, the one numbered `currentSlide` |
| `NavigationProperties.RunDisplays` | static/js/scripts.js:43-66 | on a deck numbered 1..N, once exactly the current slide is active, this stays true under every event sequence |
| `NavigationProperties.IgnoredKeysChangeNothing` | static/js/scripts.js:57-67 | any number of key presses other than ArrowLeft and ArrowRight leave the state unchanged |
| `NavigationProperties.NextRepeatedClamps` | static/js/scripts.js:50-54 | on a deck numbered 1..N, `k` presses of Next end on `min(currentSlide + k, N)` |
| `NavigationProperties.PreviousRepeatedClamps` | static/js/scripts.js:43-47 | on a deck numbered 1..N, `k` presses of Previous end on `max(currentSlide - k, 1)` |
| `NavigationProperties.FiveSlideWalk` | static/js/scripts.js:43-54 | with five slides numbered 1..5, four Next presses reach slide 5, a fifth stays on 5, and one Previous press then returns to 4 |
| `NavigationProperties.EmptyDeckStuckOutOfRange` | static/js/scripts.js:15-16 | with no slides, initialisation puts `currentSlide = 1` outside 1..0, the counter shows `(1, 0)`, and no event sequence changes the state |
| `NavigationProperties.GapBlanksDeck` | static/js/scripts.js:29-39 | with ordinals 1 and 3, Next from slide 1 requests slide 2, finds none, deactivates the active slide 1, and stays on slide 1 |

## Left out

- The four chart builders (`createCashGrowthChart`, `createRevenueGrowthChart`, `createCashFlowChart`,
  `createPerformanceSummaryChart`, lines 74-332) are left out. They only hand fixed floating-point
  datasets and style options to the external charting library and have no logic of their own.
- The `DOMContentLoaded` hook, `querySelectorAll`, `getElementById`, `classList` and
  `addEventListener` (lines 1-10 and the DOM calls inside `initializeSlides`) are left out. They
  appear only as the abstract slide sequence and the `Navigation.Event` inputs.
- The page is assumed to provide the previous button, the next button and the counter element.
  If one is missing, the script throws a TypeError part-way through initialisation or inside
  `showSlide`. That depends on the page's HTML, which is not part of this model.
- The counter's text is modelled as the pair it displays, not as the string that line 25 renders.
- `data-slide` is an attribute string, and the lookup on line 34 compares it with the decimal
  rendering of the requested number. The model gives each slide an integer ordinal. An attribute
  that is not the plain decimal form of a positive integer (`"01"`, `"intro"`) is modelled as an
  ordinal below 1, such as 0. From every state reachable from initialisation, `currentSlide` is
  at least 1 (`InitRunInRange`; with no slides it stays 1, `EmptyDeckStuckOutOfRange`). Previous
  asks for `currentSlide - 1` only when `currentSlide > 1`, and Next asks for
  `currentSlide + 1`. So every request made from such a state is at least 1, and no reachable
  request matches such a slide. From an arbitrary state with `currentSlide < 1` the model could
  match one; the page never reaches that state.
- `querySelector` on line 34 searches the live document, while `slides` is the snapshot taken on
  line 14. The model assumes both see the same `.slide` elements in the same order.
- Events are modelled only as clicks and `keydown` key values. Default-action handling,
  modifier keys and event timing play no part in the source's logic.

