/** The nearest-slide search that `updateHighlight` and the debounced scroll
    handler both run: a left-to-right scan that keeps the first slide whose
    centre is strictly nearer to the centre of the visible area. */
module Nearest {
  import opened Geometry

  /** A distance or JavaScript's `Infinity`, the scan's starting `bestDist`. */
  datatype Extended = Finite(d: nat) | Infinity

  predicate Below(d: nat, e: Extended) {
    match e
    case Finite(b) => d < b
    case Infinity => true
  }

  /** The index the scan returns for `slides`, seen as the result for the
      last slide given the result for all slides before it. */
  function NearestSlide(slides: seq<Slide>, c2: int): (r: nat)
    ensures |slides| == 0 ==> r == 0
    ensures |slides| > 0 ==> r < |slides|
    decreases |slides|
  {
    if |slides| <= 1 then 0
    else
      var b := NearestSlide(slides[..|slides| - 1], c2);
      if Dist2(slides[|slides| - 1], c2) < Dist2(slides[b], c2) then |slides| - 1 else b
  }

  /** `r` is a slide at minimal distance from `c2`, and every slide before it
      is strictly farther: the lowest-index nearest slide. */
  ghost predicate IsFirstNearest(slides: seq<Slide>, c2: int, r: int) {
    && 0 <= r < |slides|
    && (forall j :: 0 <= j < |slides| ==> Dist2(slides[r], c2) <= Dist2(slides[j], c2))
    && (forall j :: 0 <= j < r ==> Dist2(slides[r], c2) < Dist2(slides[j], c2))
  }

  /** The scan finds the nearest slide and breaks ties toward the lowest index. */
  lemma {:induction false} NearestIsFirstNearest(slides: seq<Slide>, c2: int)
    requires |slides| > 0
    ensures IsFirstNearest(slides, c2, NearestSlide(slides, c2))
    decreases |slides|
  {
    if |slides| > 1 {
      var init := slides[..|slides| - 1];
      NearestIsFirstNearest(init, c2);
      var b := NearestSlide(init, c2);
      assert forall j :: 0 <= j < |init| ==> init[j] == slides[j];
    }
  }

  /** The scan itself: `best = 0`, `bestDist = Infinity`, and for each slide
      in order, take it when its distance is strictly below `bestDist`. */
  method FindNearest(slides: seq<Slide>, c2: int) returns (best: nat)
    ensures best == NearestSlide(slides, c2)
    ensures |slides| == 0 ==> best == 0
    ensures |slides| > 0 ==> best < |slides|
  {
    best := 0;
    var bestDist := Infinity;
    for i := 0 to |slides|
      invariant i == 0 ==> best == 0 && bestDist == Infinity
      invariant i > 0 ==> best == NearestSlide(slides[..i], c2) && bestDist == Finite(Dist2(slides[best], c2))
    {
      var dist := Dist2(slides[i], c2);
      assert slides[..i + 1][..i] == slides[..i];
      if Below(dist, bestDist) {
        bestDist := Finite(dist);
        best := i;
      }
    }
    assert slides[..|slides|] == slides;
  }
}
