# Gallery carousel controller, modelled in Dafny

This project models the carousel controller of the art-gallery portfolio
page (`js/script.js`). The script arranges the slides of a track side by
side. It then keeps one slide and one navigation dot marked
`current-slide`. Four events move that mark: a click on the previous arrow,
a click on the next arrow, a click on a dot, and an autoplay tick.

With the DOM stripped away, the controller is a small state machine. The
model is a value of type `Carousel.State`:

- the number of slides and the number of dots;
- the measured slide width and each slide's `left` offset;
- the set of slide positions and the set of dot positions carrying
  `current-slide` (sets, so that `classList.remove` followed by
  `classList.add` is modelled as written);
- the track's `translateX` in pixels;
- the visibility of the two arrows;
- the autoplay counter `autoIndex`, which is its own field.

Each handler is a pure function from one state to the next.

Files:

- `options.dfy` defines `Option`. It stands for `null` and `undefined`.
- `carousel.dfy` (module `Carousel`) holds the state, the page-load setup,
  the three helpers (`moveToSlide`, `updateDots`, `hideShowArrows`), the
  four handlers and the serialised event loop.
- `carousel_properties.dfy` (module `CarouselProperties`) holds the
  lemmas that relate several events: the abstract cursor machine, the
  round trips, autoplay periodicity and wrap-around, and the arrow
  policy against the clicks.
- `mod_arith.dfy` (module `ModArith`) holds the facts about `%` that the
  autoplay counter needs.

Two details follow the script closely, where a simpler reading of the
carousel would differ:

- Autoplay goes to `(autoIndex + 1) % N`, not to the successor of the
  current slide. Arrow and dot clicks never touch `autoIndex`.
  `CarouselProperties.FourSlideScenario` shows the difference: after a
  jump to dot 3, a tick goes to slide 1.
- A click inside the nav but outside every button does nothing. The
  script's `closest('button')` returns `null` and the handler returns.

Behaviour worth knowing, proved as it is written: with a single slide,
`hideShowArrows` takes its first branch. It hides the previous arrow and
shows the next arrow, although a click on that arrow does nothing
(`CarouselProperties.SingleSlideShowsDeadNextArrow`). With two or more
slides, after a transition has set the arrows, an arrow is shown exactly
when a click on it would move the carousel
(`CarouselProperties.ArrowsOfferAvailableMoves`). Before the first
transition the arrows are as the style sheet leaves them.

## Model

| member | source | states |
|---|---|---|
| Carousel.SlideOffsets | js/script.js:11-15 | there is one offset per slide, and slide `i` is placed at `width * i` pixels |
| Carousel.Load | js/script.js:2-15 | with no slides, no carousel comes up (`slides[0]` is undefined); otherwise the offsets are placed, the counts, width, marks and arrow visibility are the inputs unchanged, the track is untranslated, the autoplay counter is 0, and the state is valid exactly when the dot and slide counts agree and one position is marked in both |
| Carousel.FirstMarkedFrom | js/script.js:61-64 | the query returns the first marked position at or after the start, or nothing when no position in range is marked |
| Carousel.FirstMarked | js/script.js:91-92 | `querySelector('.current-slide')` finds the first marked element in document order, or nothing |
| Carousel.CurrentSlide | js/script.js:91 | in a valid state, the slide the query finds is the only marked slide, and the dot at the same position is the only marked dot |
| Carousel.CurrentDot | js/script.js:92 | in a valid state, the dot the query finds is the only marked dot, at the position of the only marked slide |
| Carousel.MoveToSlide | js/script.js:23-27 | the target becomes marked; no other slide gains the mark and the old current slide loses it; a single mark moves to the target; the translation is `-(width * target)` when the offsets are as placed; nothing else changes |
| Carousel.UpdateDots | js/script.js:34-37 | the target dot becomes marked; no other dot gains the mark and the old current dot loses it; a single mark moves to the target; nothing else changes |
| Carousel.HideShowArrows | js/script.js:46-57 | the previous arrow is shown if and only if the target is not 0; the next arrow is shown if and only if the target is 0 or is not the last slide |
| Carousel.Transition | js/script.js:96-98 | from a single consistent mark, the bundle of the three helpers leaves slide and dot `t` as the only current ones, the track at `-(width * t)` and the arrows as the policy gives for `t`; it never changes the counts, the offsets or the autoplay counter |
| Carousel.OnPrevClick | js/script.js:60-71 | on the first slide nothing changes at all; otherwise the carousel shows the previous slide; the state stays valid; only the marks, translation and arrows change, so counts, width, offsets and autoplay counter are untouched |
| Carousel.OnNextClick | js/script.js:74-85 | on the last slide nothing changes at all; otherwise the carousel shows the next slide; the state stays valid; only the marks, translation and arrows change, so counts, width, offsets and autoplay counter are untouched |
| Carousel.OnNavClick | js/script.js:88-99 | a click outside every button changes nothing; a click on dot `k` shows slide `k` from any state; the state stays valid; only the marks, translation and arrows change, so counts, width, offsets and autoplay counter are untouched |
| Carousel.OnTick | js/script.js:102-112 | the counter steps to its successor, wrapping from the last slide to 0 and staying below N; the carousel shows the slide it names; the state stays valid; only the marks, translation, arrows and counter change |
| Carousel.Ticks | js/script.js:102-112 | after `k` ticks the counter has advanced by `k` modulo N, and the state is still valid |
| Carousel.Step | js/script.js:60-112 | every event keeps the state valid and keeps the counts and width; only a tick can change the autoplay counter |
| Carousel.Run | js/script.js:60-112 | any sequence of events, handled one at a time, keeps the state valid; a sequence without ticks leaves the autoplay counter where it was |
| CarouselProperties.StepFollowsCursorMachine | js/script.js:60-112 | the current slide after an event is what the abstract cursor machine gives: previous stops at 0, next stops at N-1, a dot jumps, a tick goes to the counter's successor modulo N; the current dot always equals the current slide |
| CarouselProperties.PrevThenNextRestores | js/script.js:60-85 | from a settled state not on the first slide, previous then next restores the whole state exactly |
| CarouselProperties.NextThenPrevRestores | js/script.js:60-85 | from a settled state not on the last slide, next then previous restores the whole state exactly |
| CarouselProperties.CurrentDotClickKeepsState | js/script.js:88-99 | clicking the dot that is already current leaves a settled state unchanged, because the class is removed and then added back |
| CarouselProperties.NavClickIdempotent | js/script.js:88-99 | a second click on the same dot changes nothing |
| CarouselProperties.TickIgnoresCurrentSlide | js/script.js:103-112 | two states that differ only in marks, translation and arrows tick to the same state, so a tick does not depend on the current slide |
| CarouselProperties.TicksPeriod | js/script.js:102-104 | after N ticks the autoplay counter is back where it started |
| CarouselProperties.TickWrapsAtLast | js/script.js:74-112 | a tick with the counter on the last slide goes to slide 0, whereas the next arrow on the last slide does nothing |
| CarouselProperties.ArrowsOfferAvailableMoves | js/script.js:46-85 | with two or more slides, after a transition, each arrow is shown if and only if clicking it changes the state |
| CarouselProperties.SingleSlideShowsDeadNextArrow | js/script.js:46-57 | with one slide, the previous arrow is hidden and the next arrow is shown, and both clicks do nothing |
| CarouselProperties.RunSnoc | js/script.js:60-112 | handling a sequence of events and then one more is the same as handling the longer sequence |
| CarouselProperties.LoadConsistentMarkup | js/script.js:2-15 | markup that marks the same position among equally many slides and dots loads into a valid state with that slide current |
| CarouselProperties.FourSlideScenario | js/script.js:60-112 | with four 300 px slides starting on slide 0, the events next, next, previous and dot 3 visit slides 1, 2, 1 and 3; they leave the track at -900 px with the previous arrow shown and the next arrow hidden; a following tick goes to slide 1 at -300 px |

## Left out

- DOM querying and traversal (`querySelector`, `children`, the
  `previousElementSibling` and `nextElementSibling` siblings,
  `closest('button')`) are replaced by positions. A sibling of position
  `i` is position `i - 1` or `i + 1` when that exists.
- Event-listener registration and the 5000 ms `setInterval` period are not
  modelled. A tick is one more event, and the single-threaded event loop
  is the sequential `Run`.
- `getBoundingClientRect().width` is a floating-point number. It is
  abstracted as a natural number of pixels.
- CSS strings are not built. `'px'`, `translateX(...)` and `style.display`
  become integers and booleans.
- The arrows' visibility before the first transition comes from the style
  sheet. It is an input of `Load`.
- A nav click on a button that is not one of the dots is not modelled.
  There, `findIndex` returns -1 and `slides[-1]` is undefined, so the
  handlers require a clicked dot index below the dot count.
- Pages that break the controller's assumptions are excluded by `Valid`
  rather than modelled. The script does not treat them alike:
  - With no marked slide or dot, an arrow click throws before anything
    changes. A dot click or a tick throws part-way, after the track has
    been translated (and, for a tick, after the counter has advanced).
  - With several marks, the handlers run without error. They move the
    first mark in document order and leave the others in place.
  - With more dots than slides, the arrows and autoplay run without error.
    A click on an extra dot throws at the track translation, before
    anything changes.
  - With more slides than dots, or with the slide and dot marks at
    different positions, an arrow click can find no sibling dot. It then
    throws in `updateDots` after the slide has moved and the old dot has
    lost its mark.
