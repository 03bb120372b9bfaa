/**
 * The testimonial carousel of the home page: five testimonials shown as
 * three consecutive copies (fifteen slides) so the slider can loop, a row of
 * five tabs of which the one equal to `currentSlide` is active, and the
 * slider callbacks that keep the tab in step with the slide and jump back
 * into the middle copy after every move.
 */
module Carousel {
  import opened Wrappers
  import opened Geometry

  /** `originalTestimonials.length`. */
  const OriginalCount: int := 5

  /** `initialSlide`: the first slide of the middle copy. */
  const InitialSlide: int := 5

  /** `[...original, ...original, ...original]`: slide `i` shows testimonial `i mod |original|`. */
  function Tripled<T>(original: seq<T>): (slides: seq<T>)
    ensures |slides| == 3 * |original|
    ensures forall i :: 0 <= i < |slides| ==> slides[i] == original[i % |original|]
  {
    var slides := original + original + original;
    forall i | 0 <= i < |slides|
      ensures slides[i] == original[i % |original|]
    {
      var n := |original|;
      if i < n {
        assert i % n == i;
      } else if i < 2 * n {
        assert i % n == i - n;
      } else {
        assert i % n == i - 2 * n;
      }
    }
    slides
  }

  /** The `%` of JavaScript, which truncates: the remainder takes the sign of the dividend. */
  function JsRem(a: int, n: int): (r: int)
    requires n > 0
    ensures a >= 0 ==> 0 <= r < n && r == a % n
    ensures a < 0 ==> -n < r <= 0 && (if r == 0 then a % n == 0 else a % n == r + n)
  {
    if a >= 0 then a % n
    else
      var q, m := (-a) / n, (-a) % n;
      if m == 0 then
        DivModUnique(a, n, -q, 0);
        0
      else
        DivModUnique(a, n, -q - 1, n - m);
        -m
  }

  /** What the carousel shows: the slider's current slide and the active tab (`currentSlide`). */
  datatype Slider = Slider(slide: int, activeTab: int)

  /** At rest in the middle copy, with the active tab naming the testimonial on show. */
  predicate Settled(s: Slider)
  {
    OriginalCount <= s.slide < 2 * OriginalCount && s.activeTab == s.slide % OriginalCount
  }

  /** The state on first render: `useState(0)` and `initialSlide={5}`. */
  function Initial(): (s: Slider)
    ensures Settled(s) && s.activeTab == 0
  {
    Slider(InitialSlide, 0)
  }

  /**
   * `beforeChange`: the new active tab is the target slide modulo five with
   * JavaScript's sign rule; a negative target (which a looping slider can
   * report) gives a tab in (-5, 0], so only a multiple of 5 activates a tab
   * (tab 0).
   */
  function BeforeChange(newIndex: int): (tab: int)
    ensures newIndex >= 0 ==> 0 <= tab < OriginalCount && tab == newIndex % OriginalCount
    ensures newIndex < 0 ==> -OriginalCount < tab <= 0
  {
    JsRem(newIndex, OriginalCount)
  }

  /** The slider moves to `target`, firing `beforeChange` on the way. */
  function MoveTo(target: int): (r: Slider)
    ensures r.slide == target
    ensures 0 <= target ==> r.activeTab == target % OriginalCount
  {
    Slider(target, BeforeChange(target))
  }

  /**
   * `afterChange`: from the first copy jump forward by one copy, from the
   * third jump back by one, from the middle copy stay. A jump keeps the
   * slide modulo five, so the same testimonial stays on show, and from any
   * of the fifteen slides it lands in the middle copy.
   */
  function AfterChange(current: int): (jump: Option<int>)
    ensures jump.Some? ==> jump.value % OriginalCount == current % OriginalCount
    ensures jump.None? <==> OriginalCount <= current < 2 * OriginalCount
    ensures 0 <= current < 3 * OriginalCount && jump.Some? ==> OriginalCount <= jump.value < 2 * OriginalCount
  {
    if current < OriginalCount then Some(current + OriginalCount)
    else if current >= OriginalCount * 2 then Some(current - OriginalCount)
    else None
  }

  /** After a move, the corrective jump `afterChange` asks for, if any. */
  function Settle(s: Slider): (r: Slider)
    ensures r.slide % OriginalCount == s.slide % OriginalCount
    ensures 0 <= s.slide < 3 * OriginalCount ==> OriginalCount <= r.slide < 2 * OriginalCount
    ensures OriginalCount <= s.slide < 2 * OriginalCount ==> r == s
  {
    match AfterChange(s.slide)
    case Some(target) => MoveTo(target)
    case None => s
  }

  /**
   * Clicking tab `idx`: the tab becomes active and the slider goes to slide
   * `idx + 5`, the same testimonial in the middle copy, where no corrective
   * jump follows.
   */
  function TabClick(idx: int): (r: Slider)
    requires 0 <= idx < OriginalCount
    ensures Settled(r) && r.activeTab == idx && r.slide % OriginalCount == idx
    ensures Settle(r) == r
  {
    MoveTo(idx + 5)
  }

  /**
   * A move of the slider to any of the fifteen slides, followed by the
   * corrective jump: the carousel comes to rest in the middle copy showing
   * the same testimonial it moved to, with that testimonial's tab active.
   */
  function Swipe(newIndex: int): (r: Slider)
    requires 0 <= newIndex < 3 * OriginalCount
    ensures Settled(r)
    ensures r.slide % OriginalCount == newIndex % OriginalCount
    ensures r.activeTab == BeforeChange(newIndex)
  {
    Settle(MoveTo(newIndex))
  }

  /** Slide `Swipe(i)` shows the testimonial slide `i` showed. */
  lemma SwipeKeepsTestimonial<T>(original: seq<T>, newIndex: int)
    requires |original| == OriginalCount
    requires 0 <= newIndex < 3 * OriginalCount
    ensures Tripled(original)[Swipe(newIndex).slide] == Tripled(original)[newIndex]
  {
    var slides := Tripled(original);
    var r := Swipe(newIndex);
    assert slides[r.slide] == original[r.slide % OriginalCount];
  }

  /** What the visitor does to the carousel. */
  datatype Event =
    | ClickTab(idx: int)   // one of the five tabs
    | SwipeBy(step: int)   // a swipe to the next (1) or previous (-1) slide: `slidesToScroll={1}`

  predicate ValidEvent(e: Event)
  {
    match e
    case ClickTab(idx) => 0 <= idx < OriginalCount
    case SwipeBy(step) => step == 1 || step == -1
  }

  /**
   * One event on a settled carousel. It comes to rest settled again: a tab
   * click activates that tab, and a swipe activates the tab after or before
   * the active one, wrapping around the five.
   */
  function Apply(s: Slider, e: Event): (r: Slider)
    requires Settled(s) && ValidEvent(e)
    ensures Settled(r)
    ensures e.ClickTab? ==> r.activeTab == e.idx
    ensures e == SwipeBy(1) ==>
      r.activeTab == if s.activeTab == OriginalCount - 1 then 0 else s.activeTab + 1
    ensures e == SwipeBy(-1) ==>
      r.activeTab == if s.activeTab == 0 then OriginalCount - 1 else s.activeTab - 1
  {
    match e
    case ClickTab(idx) => TabClick(idx)
    case SwipeBy(step) =>
      var r := Swipe(s.slide + step);
      NeighbourTab(s.slide, step);
      r
  }

  /** The testimonial one slide on from slide `slide` of the middle copy is the next (or previous) one, wrapping around. */
  lemma NeighbourTab(slide: int, step: int)
    requires OriginalCount <= slide < 2 * OriginalCount && (step == 1 || step == -1)
    ensures step == 1 ==>
      (slide + step) % OriginalCount == if slide % OriginalCount == OriginalCount - 1 then 0 else slide % OriginalCount + 1
    ensures step == -1 ==>
      (slide + step) % OriginalCount == if slide % OriginalCount == 0 then OriginalCount - 1 else slide % OriginalCount - 1
  {
    DivModUnique(slide, OriginalCount, 1, slide - OriginalCount);
    if slide + step == 2 * OriginalCount {
      DivModUnique(slide + step, OriginalCount, 2, 0);
    } else if slide + step < OriginalCount {
      DivModUnique(slide + step, OriginalCount, 0, slide + step);
    } else {
      DivModUnique(slide + step, OriginalCount, 1, slide + step - OriginalCount);
    }
  }

  /** The carousel after a run of events from the settled state `s`. */
  function Run(s: Slider, events: seq<Event>): Slider
    requires Settled(s)
    requires forall i :: 0 <= i < |events| ==> ValidEvent(events[i])
    decreases |events|
  {
    if |events| == 0 then s else Run(Apply(s, events[0]), events[1..])
  }

  /**
   * From its first render, whatever the visitor does, the carousel comes to
   * rest in the middle copy with the tab of the testimonial on show active.
   */
  lemma {:induction false} RunStaysSettled(s: Slider, events: seq<Event>)
    requires Settled(s)
    requires forall i :: 0 <= i < |events| ==> ValidEvent(events[i])
    ensures Settled(Run(s, events))
    decreases |events|
  {
    if |events| > 0 {
      RunStaysSettled(Apply(s, events[0]), events[1..]);
    }
  }

  /** Swiping forward five times from a settled state comes back to the same tab. */
  lemma FiveSwipesCycle(s: Slider)
    requires Settled(s)
    ensures Run(s, [SwipeBy(1), SwipeBy(1), SwipeBy(1), SwipeBy(1), SwipeBy(1)]).activeTab == s.activeTab
  {
    var events := [SwipeBy(1), SwipeBy(1), SwipeBy(1), SwipeBy(1), SwipeBy(1)];
    var s1 := Apply(s, SwipeBy(1));
    var s2 := Apply(s1, SwipeBy(1));
    var s3 := Apply(s2, SwipeBy(1));
    var s4 := Apply(s3, SwipeBy(1));
    var s5 := Apply(s4, SwipeBy(1));
    assert Run(s, events) == Run(s1, events[1..]);
    assert Run(s1, events[1..]) == Run(s2, events[2..]);
    assert Run(s2, events[2..]) == Run(s3, events[3..]);
    assert Run(s3, events[3..]) == Run(s4, events[4..]);
    assert Run(s4, events[4..]) == Run(s5, events[5..]);
    assert events[5..] == [];
  }
}
