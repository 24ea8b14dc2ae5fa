/** The owl in the hero section: it follows the mouse (the parallax) until
    the page has scrolled past a threshold, then shrinks and stays still;
    scrolling back above the threshold restores it. */
module Owl {
  import opened Options

  /** The owl container's inline transform, as far as this model tells them
      apart: the centring transform, the shrunk one, or one written by the
      mouse parallax (its pixel offsets are not modelled). */
  datatype Transform = Centered | Shrunk | Following

  datatype OwlState = OwlState(
    scrolled: bool,     // `owl-scroll-state` is in the container's classes
    parallax: bool,     // `isParallaxActive`
    transform: Transform)

  /** The page as loaded: parallax on, not in the scroll state. */
  function Initial(): OwlState { OwlState(false, true, Centered) }

  /** The parallax runs exactly while the owl is not in its scroll state. */
  predicate Consistent(st: OwlState) { st.parallax == !st.scrolled }

  /** The threshold: a quarter of the window height above the trigger
      section's top, or 500 pixels when that section is missing. */
  function ScrollPoint(triggerTop: Option<int>, innerHeight: int): real {
    match triggerTop
    case Some(top) => top as real - innerHeight as real / 4.0
    case None => 500.0
  }

  /** `handleScrollAnimation` with the window scrolled to `scrollY`. */
  function HandleScroll(st: OwlState, scrollY: real, point: real): (r: OwlState)
    // the class ends up telling which side of the threshold the page is on
    ensures r.scrolled <==> scrollY > point
    // a handler call that finds the class already right changes nothing
    ensures st.scrolled == (scrollY > point) ==> r == st
  {
    if scrollY > point && !st.scrolled then
      st.(parallax := false, scrolled := true, transform := Shrunk)
    else if scrollY <= point && st.scrolled then
      st.(parallax := true, scrolled := false, transform := Centered)
    else st
  }

  /** `handleMouseMove`: only while the parallax is active does the owl
      follow the mouse. */
  function MouseMove(st: OwlState): (r: OwlState)
    ensures !st.parallax ==> r == st
    ensures st.parallax ==> r == st.(transform := Following)
  {
    if !st.parallax then st else st.(transform := Following)
  }

  /** The page starts in step: parallax on and no scroll-state class. */
  lemma InitialConsistent()
    ensures Consistent(Initial()) && !Initial().scrolled && Initial().transform == Centered
  {
  }

  /** The scroll handler keeps the class and the parallax flag in step, and
      the shrunk transform is in place whenever the owl is in its scroll
      state after a crossing. */
  lemma HandleScrollConsistent(st: OwlState, scrollY: real, point: real)
    requires Consistent(st)
    ensures Consistent(HandleScroll(st, scrollY, point))
    ensures !st.scrolled && scrollY > point ==> HandleScroll(st, scrollY, point).transform == Shrunk
    ensures st.scrolled && scrollY <= point ==> HandleScroll(st, scrollY, point).transform == Centered
  {
  }

  /** Running the handler twice at the same scroll position is the same as
      running it once. */
  lemma HandleScrollIdempotent(st: OwlState, scrollY: real, point: real)
    ensures HandleScroll(HandleScroll(st, scrollY, point), scrollY, point) == HandleScroll(st, scrollY, point)
  {
  }

  /** Below the threshold, mouse moves cannot disturb the shrunk owl: once
      the page has scrolled past it, the transform stays put until the page
      scrolls back. */
  lemma ShrunkOwlIgnoresMouse(st: OwlState, scrollY: real, point: real)
    requires Consistent(st) && scrollY > point
    ensures var r := HandleScroll(st, scrollY, point);
      MouseMove(r) == r
  {
  }
}
