/**
 Properties of the carousel model that relate several events: the
 cursor machine the handlers implement, round trips between the arrows,
 the autoplay counter's period, and what the arrows promise about the
 next click.
 */
module CarouselProperties {
  import opened Options
  import opened Carousel
  import opened ModArith

  /** The abstract cursor machine over {0, ..., n-1}: the previous arrow
      stops at 0, the next arrow stops at n-1, a dot jumps, and a tick
      goes to the successor of the autoplay counter, not of the cursor. */
  function CursorAfter(c: nat, n: nat, autoIndex: nat, e: Event): nat
    requires n >= 1
  {
    match e
    case PrevClick => if c > 0 then c - 1 else c
    case NextClick => if c < n - 1 then c + 1 else c
    case NavClick(hit) => if hit.Some? then hit.value else c
    case Tick => (autoIndex + 1) % n
  }

  /** Every event moves the single current mark as the cursor machine says. */
  lemma StepFollowsCursorMachine(s: State, e: Event)
    requires Valid(s) && Deliverable(e, s.dotCount)
    ensures CurrentSlide(Step(s, e)) == CursorAfter(CurrentSlide(s), s.slideCount, s.autoIndex, e)
    ensures CurrentDot(Step(s, e)) == CurrentSlide(Step(s, e))
  {
  }

  /** Going back one slide and forward again restores a settled state exactly. */
  lemma PrevThenNextRestores(s: State)
    requires Valid(s) && CurrentSlide(s) > 0 && ShowsSlide(s, CurrentSlide(s))
    ensures OnNextClick(OnPrevClick(s)) == s
  {
  }

  /** Going forward one slide and back again restores a settled state exactly. */
  lemma NextThenPrevRestores(s: State)
    requires Valid(s) && CurrentSlide(s) < s.slideCount - 1 && ShowsSlide(s, CurrentSlide(s))
    ensures OnPrevClick(OnNextClick(s)) == s
  {
  }

  /** Clicking the dot that is already current keeps it (and its slide)
      current: the class is removed and then added back. */
  lemma CurrentDotClickKeepsState(s: State)
    requires Valid(s) && ShowsSlide(s, CurrentSlide(s))
    ensures OnNavClick(s, Some(CurrentDot(s))) == s
  {
  }

  /** A second click on the same dot changes nothing. */
  lemma NavClickIdempotent(s: State, k: nat)
    requires Valid(s) && k < s.dotCount
    ensures OnNavClick(OnNavClick(s, Some(k)), Some(k)) == OnNavClick(s, Some(k))
  {
  }

  /** A tick does not depend on which slide is current, where the track
      stands or which arrows are shown: only on the autoplay counter. */
  lemma TickIgnoresCurrentSlide(s1: State, s2: State)
    requires Valid(s1) && Valid(s2)
    requires s1.(slideMarks := s2.slideMarks, dotMarks := s2.dotMarks,
                 translation := s2.translation, arrows := s2.arrows) == s2
    ensures OnTick(s1) == OnTick(s2)
  {
  }

  /** Autoplay has period N: after as many ticks as slides the counter is
      back where it started. */
  lemma {:induction false} TicksPeriod(s: State)
    requires Valid(s)
    ensures Ticks(s, s.slideCount).autoIndex == s.autoIndex
  {
    ModPlusModulus(s.autoIndex, s.slideCount);
  }

  /** Autoplay wraps from the last slide to the first, where the next
      arrow would have stopped. */
  lemma TickWrapsAtLast(s: State)
    requires Valid(s) && s.autoIndex == s.slideCount - 1
    ensures OnTick(s).autoIndex == 0 && ShowsSlide(OnTick(s), 0)
    ensures CurrentSlide(s) == s.slideCount - 1 ==> OnNextClick(s) == s
  {
  }

  /** With two or more slides and the arrows set by the last transition,
      an arrow is shown exactly when clicking it would move the carousel. */
  lemma ArrowsOfferAvailableMoves(s: State)
    requires Valid(s) && s.slideCount >= 2 && ShowsSlide(s, CurrentSlide(s))
    ensures s.arrows.prevShown <==> OnPrevClick(s) != s
    ensures s.arrows.nextShown <==> OnNextClick(s) != s
  {
  }

  /** With a single slide the first branch of the arrow policy wins: the
      next arrow is shown although clicking it does nothing. */
  lemma SingleSlideShowsDeadNextArrow(s: State)
    requires Valid(s) && s.slideCount == 1 && ShowsSlide(s, CurrentSlide(s))
    ensures !s.arrows.prevShown && s.arrows.nextShown
    ensures OnNextClick(s) == s && OnPrevClick(s) == s
  {
  }

  /** Handling a sequence and then one more event is handling the longer sequence. */
  lemma {:induction false} RunSnoc(s: State, events: seq<Event>, e: Event)
    requires Valid(s)
    requires forall i :: 0 <= i < |events| ==> Deliverable(events[i], s.dotCount)
    requires Deliverable(e, s.dotCount)
    ensures Deliverable(e, Run(s, events).dotCount)
    ensures Run(s, events + [e]) == Step(Run(s, events), e)
    decreases |events|
  {
    if |events| == 0 {
      assert events + [e] == [e];
      assert [e][1..] == [];
    } else {
      var s1 := Step(s, events[0]);
      assert (events + [e])[0] == events[0];
      assert (events + [e])[1..] == events[1..] + [e];
      RunSnoc(s1, events[1..], e);
    }
  }

  /** A page whose markup marks slide `c` and dot `c` as current, with as
      many dots as slides, loads into a valid carousel showing slide `c`'s
      marks, with the autoplay counter at 0. */
  lemma LoadConsistentMarkup(n: nat, width: nat, c: nat, arrows: Arrows)
    requires c < n
    ensures Load(n, n, width, {c}, {c}, arrows).Some?
    ensures Valid(Load(n, n, width, {c}, {c}, arrows).value)
    ensures CurrentSlide(Load(n, n, width, {c}, {c}, arrows).value) == c
  {
  }

  /** Four slides of 300 px, the first one current and the counter at 0:
      next, next, previous, then dot 3 visit slides 1, 2, 1, 3 and leave
      the track at -900 px, the previous arrow shown and the next arrow
      hidden. A tick then goes to slide 1, the successor of the untouched
      autoplay counter, and not to slide 0, the successor of slide 3. */
  lemma FourSlideScenario(s0: State)
    requires Valid(s0) && s0.slideCount == 4 && s0.width == 300
    requires s0.slideMarks == {0} && s0.autoIndex == 0
    ensures var s1 := OnNextClick(s0);
            var s2 := OnNextClick(s1);
            var s3 := OnPrevClick(s2);
            var s4 := OnNavClick(s3, Some(3));
            var s5 := OnTick(s4);
            && CurrentSlide(s1) == 1 && CurrentSlide(s2) == 2
            && CurrentSlide(s3) == 1 && CurrentSlide(s4) == 3
            && s4.translation == -900 && s4.arrows == Arrows(true, false)
            && s4.autoIndex == 0
            && CurrentSlide(s5) == 1 && s5.translation == -300
            && s5.arrows == Arrows(true, true)
  {
  }
}
