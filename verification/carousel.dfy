/**
 A model of the gallery carousel controller of js/script.js.

 The DOM is replaced by a value of type `State`: slides and dots are
 identified by their position in the track and in the nav, the
 `current-slide` class is a set of positions per collection, the track's
 `translateX` is an integer number of pixels, and the two arrows are
 booleans (shown / hidden). Every event handler is a pure function from
 one state to the next.
 */
module Carousel {
  import opened Options
  import ModArith

  /** Visibility of the previous and next arrows (`style.display`). */
  datatype Arrows = Arrows(prevShown: bool, nextShown: bool)

  datatype State = State(
    slideCount: nat,       // slides.length, the children of the track
    dotCount: nat,         // dots.length, the children of the nav
    width: nat,            // width of the first slide, measured once
    lefts: seq<int>,       // style.left of each slide, in pixels
    slideMarks: set<nat>,  // positions of the slides carrying current-slide
    dotMarks: set<nat>,    // positions of the dots carrying current-slide
    translation: int,      // translateX of the track, in pixels
    arrows: Arrows,
    autoIndex: nat         // the autoplay counter
  )

  /** The events the page reacts to. `NavClick(None)` is a click inside
      the nav that is not inside any button. */
  datatype Event = PrevClick | NextClick | NavClick(hit: Option<nat>) | Tick

  /** setSlidePosition applied to every slide: slide `i` is placed at
      `width * i` pixels, so the slides sit side by side. */
  function SlideOffsets(count: nat, width: nat): (lefts: seq<int>)
    ensures |lefts| == count
    ensures forall i :: 0 <= i < count ==> lefts[i] == width * i
  {
    if count == 0 then [] else SlideOffsets(count - 1, width) + [width * (count - 1)]
  }

  /** The page-load handler. Reading `slides[0]` of an empty track throws,
      so no carousel exists then. The track carries no transform yet, the
      current marks and arrow visibility are whatever the markup and the
      style sheet say, and the autoplay counter starts at 0. */
  function Load(slideCount: nat, dotCount: nat, width: nat,
                slideMarks: set<nat>, dotMarks: set<nat>, arrows: Arrows): (r: Option<State>)
    ensures r.None? <==> slideCount == 0
    ensures r.Some? ==> r.value.autoIndex == 0 && r.value.translation == 0
    ensures r.Some? ==> |r.value.lefts| == slideCount
    ensures r.Some? ==> forall i :: 0 <= i < slideCount ==> r.value.lefts[i] == width * i
    ensures r.Some? ==> r.value.slideMarks == slideMarks && r.value.dotMarks == dotMarks
    ensures r.Some? ==> (Valid(r.value) <==> dotCount == slideCount && OneCurrent(r.value))
    ensures r.Some? ==> r.value == State(slideCount, dotCount, width, r.value.lefts,
                                         slideMarks, dotMarks, 0, arrows, 0)
  {
    if slideCount == 0 then None
    else Some(State(slideCount, dotCount, width, SlideOffsets(slideCount, width),
                    slideMarks, dotMarks, 0, arrows, 0))
  }

  /** Exactly one slide and one dot carry current-slide, and at the same position. */
  ghost predicate OneCurrent(s: State) {
    exists c :: c < s.slideCount && s.slideMarks == {c} && s.dotMarks == {c}
  }

  /** The states the handlers are defined on: as many dots as slides, at
      least one slide, offsets as placed at load, a single consistent
      current mark and the autoplay counter inside the track. */
  ghost predicate Valid(s: State) {
    && s.slideCount >= 1
    && s.dotCount == s.slideCount
    && s.lefts == SlideOffsets(s.slideCount, s.width)
    && OneCurrent(s)
    && s.autoIndex < s.slideCount
  }

  /** First position, from `from` on, of an element carrying the class:
      what `querySelector('.current-slide')` finds, in document order. */
  function FirstMarkedFrom(marks: set<nat>, from: nat, count: nat): (r: Option<nat>)
    ensures r.Some? ==> from <= r.value < count && r.value in marks
    ensures r.Some? ==> forall j :: from <= j < r.value ==> j !in marks
    ensures r.None? ==> forall j :: from <= j < count ==> j !in marks
    decreases count - from
  {
    if from >= count then None
    else if from in marks then Some(from)
    else FirstMarkedFrom(marks, from + 1, count)
  }

  function FirstMarked(marks: set<nat>, count: nat): (r: Option<nat>)
    ensures r.Some? ==> r.value < count && r.value in marks
    ensures r.Some? ==> forall j :: j < r.value ==> j !in marks
    ensures r.None? ==> forall j :: j < count ==> j !in marks
  {
    FirstMarkedFrom(marks, 0, count)
  }

  /** The slide the query finds in a valid state is the unique marked one. */
  function CurrentSlide(s: State): (c: nat)
    requires Valid(s)
    ensures c < s.slideCount && s.slideMarks == {c} && s.dotMarks == {c}
  {
    var q := FirstMarked(s.slideMarks, s.slideCount);
    assert q.Some? by {
      var c :| c < s.slideCount && s.slideMarks == {c} && s.dotMarks == {c};
      assert c in s.slideMarks;
    }
    q.value
  }

  /** The dot the query finds in a valid state is the unique marked one. */
  function CurrentDot(s: State): (c: nat)
    requires Valid(s)
    ensures c < s.dotCount && s.slideMarks == {c} && s.dotMarks == {c}
  {
    var q := FirstMarked(s.dotMarks, s.dotCount);
    assert q.Some? by {
      var c :| c < s.slideCount && s.slideMarks == {c} && s.dotMarks == {c};
      assert c in s.dotMarks;
    }
    q.value
  }

  /** moveToSlide: the track is translated by minus the target's left
      offset, the class is removed from the current slide and then added
      to the target. */
  function MoveToSlide(s: State, current: nat, target: nat): (r: State)
    requires target < |s.lefts|
    ensures target in r.slideMarks
    ensures forall j :: j in r.slideMarks && j != target ==> j in s.slideMarks && j != current
    ensures s.slideMarks == {current} ==> r.slideMarks == {target}
    ensures s.lefts == SlideOffsets(s.slideCount, s.width) ==> r.translation == -(s.width * target)
    ensures r.(slideMarks := s.slideMarks, translation := s.translation) == s
  {
    s.(translation := -s.lefts[target],
       slideMarks := (s.slideMarks - {current}) + {target})
  }

  /** updateDots: the class is removed from the current dot and then added
      to the target dot. */
  function UpdateDots(s: State, current: nat, target: nat): (r: State)
    ensures target in r.dotMarks
    ensures forall j :: j in r.dotMarks && j != target ==> j in s.dotMarks && j != current
    ensures s.dotMarks == {current} ==> r.dotMarks == {target}
    ensures r.(dotMarks := s.dotMarks) == s
  {
    s.(dotMarks := (s.dotMarks - {current}) + {target})
  }

  /** hideShowArrows: the previous arrow is hidden exactly at the first
      slide; the next arrow is hidden exactly at the last slide, unless
      that slide is also the first, where the first branch wins. */
  function HideShowArrows(count: nat, target: nat): (a: Arrows)
    ensures a.prevShown <==> target != 0
    ensures a.nextShown <==> target == 0 || target + 1 != count
  {
    if target == 0 then Arrows(false, true)
    else if target == count - 1 then Arrows(true, false)
    else Arrows(true, true)
  }

  /** What a finished transition to `t` leaves behind: slide and dot `t`
      are the only current ones, the track shows slide `t` and the arrows
      follow the policy for `t`. */
  ghost predicate ShowsSlide(s: State, t: nat) {
    && s.slideMarks == {t}
    && s.dotMarks == {t}
    && s.translation == -(s.width * t)
    && s.arrows == HideShowArrows(s.slideCount, t)
  }

  /** The bundle every successful handler applies: moveToSlide, then
      updateDots, then hideShowArrows. */
  function Transition(s: State, currentSlide: nat, targetSlide: nat,
                      currentDot: nat, targetDot: nat, targetIndex: nat): (r: State)
    requires targetSlide < |s.lefts|
    ensures s.slideMarks == {currentSlide} && s.dotMarks == {currentDot}
            && s.lefts == SlideOffsets(s.slideCount, s.width)
            && targetSlide == targetDot == targetIndex
            ==> ShowsSlide(r, targetIndex)
    ensures r.autoIndex == s.autoIndex && r.lefts == s.lefts && r.width == s.width
    ensures r.slideCount == s.slideCount && r.dotCount == s.dotCount
  {
    var moved := MoveToSlide(s, currentSlide, targetSlide);
    var dotted := UpdateDots(moved, currentDot, targetDot);
    dotted.(arrows := HideShowArrows(s.slideCount, targetIndex))
  }

  /** Click on the previous arrow: nothing happens on the first slide,
      which has no previous sibling; otherwise go to the previous slide. */
  function OnPrevClick(s: State): (r: State)
    requires Valid(s)
    ensures Valid(r)
    ensures CurrentSlide(s) == 0 ==> r == s
    ensures CurrentSlide(s) > 0 ==> ShowsSlide(r, CurrentSlide(s) - 1)
    ensures r.autoIndex == s.autoIndex
    ensures r.(slideMarks := s.slideMarks, dotMarks := s.dotMarks,
               translation := s.translation, arrows := s.arrows) == s
  {
    var currentSlide := CurrentSlide(s);
    if currentSlide == 0 then s
    else
      var currentDot := CurrentDot(s);
      var prevIndex := currentSlide - 1;
      Transition(s, currentSlide, currentSlide - 1, currentDot, currentDot - 1, prevIndex)
  }

  /** Click on the next arrow: nothing happens on the last slide, which
      has no next sibling; otherwise go to the next slide. */
  function OnNextClick(s: State): (r: State)
    requires Valid(s)
    ensures Valid(r)
    ensures CurrentSlide(s) == s.slideCount - 1 ==> r == s
    ensures CurrentSlide(s) < s.slideCount - 1 ==> ShowsSlide(r, CurrentSlide(s) + 1)
    ensures r.autoIndex == s.autoIndex
    ensures r.(slideMarks := s.slideMarks, dotMarks := s.dotMarks,
               translation := s.translation, arrows := s.arrows) == s
  {
    var currentSlide := CurrentSlide(s);
    if currentSlide + 1 == s.slideCount then s
    else
      var currentDot := CurrentDot(s);
      var nextIndex := currentSlide + 1;
      Transition(s, currentSlide, currentSlide + 1, currentDot, currentDot + 1, nextIndex)
  }

  /** Click inside the nav: a click outside every button does nothing;
      a click on dot `k` goes to slide `k` from wherever the carousel is. */
  function OnNavClick(s: State, hit: Option<nat>): (r: State)
    requires Valid(s)
    requires hit.Some? ==> hit.value < s.dotCount
    ensures Valid(r)
    ensures hit.None? ==> r == s
    ensures hit.Some? ==> ShowsSlide(r, hit.value)
    ensures r.autoIndex == s.autoIndex
    ensures r.(slideMarks := s.slideMarks, dotMarks := s.dotMarks,
               translation := s.translation, arrows := s.arrows) == s
  {
    match hit
    case None => s
    case Some(targetIndex) =>
      var currentSlide := CurrentSlide(s);
      var currentDot := CurrentDot(s);
      Transition(s, currentSlide, targetIndex, currentDot, targetIndex, targetIndex)
  }

  /** The autoplay callback: advance the autoplay counter modulo the
      number of slides and go to the slide it names, whatever slide is
      current. */
  function OnTick(s: State): (r: State)
    requires Valid(s)
    ensures Valid(r)
    ensures r.autoIndex < s.slideCount
    ensures r.autoIndex == if s.autoIndex + 1 == s.slideCount then 0 else s.autoIndex + 1
    ensures ShowsSlide(r, r.autoIndex)
    ensures r.(slideMarks := s.slideMarks, dotMarks := s.dotMarks, translation := s.translation,
               arrows := s.arrows, autoIndex := s.autoIndex) == s
  {
    var autoIndex := (s.autoIndex + 1) % s.slideCount;
    ModArith.WrapIsMod(s.autoIndex, s.slideCount);
    var currentSlide := CurrentSlide(s);
    var currentDot := CurrentDot(s);
    Transition(s, currentSlide, autoIndex, currentDot, autoIndex, autoIndex).(autoIndex := autoIndex)
  }

  /** The autoplay callback fired `k` times in a row: the counter has
      advanced by `k` modulo the number of slides. */
  function Ticks(s: State, k: nat): (r: State)
    requires Valid(s)
    ensures Valid(r)
    ensures r.slideCount == s.slideCount && r.width == s.width
    ensures r.autoIndex == (s.autoIndex + k) % s.slideCount
    decreases k
  {
    if k == 0 then
      ModArith.ModUnique(s.autoIndex, s.slideCount, 0, s.autoIndex);
      s
    else
      var prev := Ticks(s, k - 1);
      var r := OnTick(prev);
      ModArith.CounterStep(s.autoIndex, k, s.slideCount, prev.autoIndex, r.autoIndex);
      r
  }

  /** An event the page can deliver to a carousel with `dotCount` dots. */
  predicate Deliverable(e: Event, dotCount: nat) {
    e.NavClick? && e.hit.Some? ==> e.hit.value < dotCount
  }

  function Step(s: State, e: Event): (r: State)
    requires Valid(s) && Deliverable(e, s.dotCount)
    ensures Valid(r)
    ensures r.slideCount == s.slideCount && r.dotCount == s.dotCount && r.width == s.width
    ensures !e.Tick? ==> r.autoIndex == s.autoIndex
  {
    match e
    case PrevClick => OnPrevClick(s)
    case NextClick => OnNextClick(s)
    case NavClick(hit) => OnNavClick(s, hit)
    case Tick => OnTick(s)
  }

  /** The event loop: events are handled one at a time, in delivery order. */
  function Run(s: State, events: seq<Event>): (r: State)
    requires Valid(s)
    requires forall i :: 0 <= i < |events| ==> Deliverable(events[i], s.dotCount)
    ensures Valid(r)
    ensures r.slideCount == s.slideCount && r.width == s.width
    ensures (forall i :: 0 <= i < |events| ==> !events[i].Tick?) ==> r.autoIndex == s.autoIndex
    decreases |events|
  {
    if |events| == 0 then s
    else Run(Step(s, events[0]), events[1..])
  }
}
