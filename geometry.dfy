/** Pixel arithmetic of the visual-strategy carousel.

    The browser reports offsets and widths as whole pixels; the code halves
    them (`clientWidth / 2`, `width / 2`) and rounds with `Math.round`.  Every
    quantity that may be a half pixel is kept here DOUBLED, so that all of the
    arithmetic stays on integers and nothing is lost. */
module Geometry {

  /** One slide as the carousel measures it: `offsetLeft`, `offsetWidth`, and
      whether a `video` element sits inside it. */
  datatype Slide = Slide(left: int, width: int, hasVideo: bool)

  function Abs(x: int): nat { if x < 0 then -x else x }

  /** The distance between two points on the scroll axis. */
  function Gap(a: int, b: int): nat { Abs(a - b) }

  function Min(a: int, b: int): int { if a <= b then a else b }

  function Max(a: int, b: int): int { if a >= b then a else b }

  /** JavaScript's `Math.round`: the nearest integer, halves go up. */
  function JsRound(x: real): int { (x + 0.5).Floor }

  /** `Math.round(h / 2)` computed on integers: the integer within half a
      unit of `h / 2`, the upper one on a tie. */
  function RoundHalf(h: int): (r: int)
    ensures 2 * r - 1 <= h <= 2 * r
  {
    (h + 1) / 2
  }

  /** The integer rounding agrees with `Math.round` on the exact half. */
  lemma RoundHalfIsJsRound(h: int)
    ensures RoundHalf(h) == JsRound(h as real / 2.0)
  {
    var r := RoundHalf(h);
    assert (h as real / 2.0 + 0.5) == (h + 1) as real / 2.0;
    assert r as real <= (h + 1) as real / 2.0 < r as real + 1.0;
  }

  /** `Math.max(0, scrollWidth - clientWidth)`: the largest scroll offset. */
  function MaxScroll(clientWidth: int, scrollWidth: int): (m: int)
    ensures m >= 0 && m >= scrollWidth - clientWidth
    ensures m == 0 || m == scrollWidth - clientWidth
  {
    Max(0, scrollWidth - clientWidth)
  }

  /** Width of an edge spacer: `Math.max(0, Math.round(containerW / 2 - edgeW / 2))`. */
  function SpacerWidth(containerW: int, edgeW: int): (w: int)
    ensures w >= 0
    ensures w > 0 <==> containerW > edgeW
    // twice the spacer is the free space beside a centred edge slide, up to one pixel
    ensures containerW >= edgeW ==> 2 * w - 1 <= containerW - edgeW <= 2 * w
  {
    Max(0, RoundHalf(containerW - edgeW))
  }

  /** The doubled horizontal centre of a slide: `2 * (left + width / 2)`. */
  function Center2(s: Slide): int { 2 * s.left + s.width }

  /** The doubled distance `|center - containerCenter|` of one slide from the
      doubled centre `c2` of the visible area. */
  function Dist2(s: Slide, c2: int): nat { Abs(Center2(s) - c2) }

  /** `Math.round(slideLeft - (containerWidth / 2 - slideWidth / 2))`: the
      scroll offset that puts the slide in the middle of the container. */
  function CenteringOffset(left: int, width: int, containerWidth: int): (t: int)
    // scrolled to t, the container's centre is on the slide's centre or half a pixel right of it
    ensures 0 <= (2 * t + containerWidth) - (2 * left + width) <= 1
  {
    RoundHalf(2 * left + width - containerWidth)
  }

  /** The two `if`s that clamp a scroll offset into `[0, max]`. */
  function ClampOffset(t: int, max: int): (r: int)
    requires max >= 0
    ensures 0 <= r <= max
    ensures 0 <= t <= max ==> r == t
    // no offset in range is nearer to the wanted one
    ensures forall y :: 0 <= y <= max ==> Gap(r, t) <= Gap(y, t)
  {
    var r := if t < 0 then 0 else t;
    if r > max then max else r
  }

  /** The scroll offset `scrollToIndex` aims at for a slide. */
  function TargetOffset(s: Slide, clientWidth: int, scrollWidth: int): (r: int)
    ensures 0 <= r <= MaxScroll(clientWidth, scrollWidth)
    ensures var c := CenteringOffset(s.left, s.width, clientWidth);
      (0 <= c <= MaxScroll(clientWidth, scrollWidth) ==> r == c) &&
      (forall y :: 0 <= y <= MaxScroll(clientWidth, scrollWidth) ==> Gap(r, c) <= Gap(y, c))
  {
    ClampOffset(CenteringOffset(s.left, s.width, clientWidth), MaxScroll(clientWidth, scrollWidth))
  }

  /** `Math.max(0, Math.min(index, n - 1))`: the index `scrollToIndex` settles on. */
  function ClampIndex(index: int, n: int): (k: int)
    requires n > 0
    ensures 0 <= k < n
    ensures 0 <= index < n ==> k == index
    // clamping, never wrapping
    ensures index < 0 ==> k == 0
    ensures index >= n ==> k == n - 1
  {
    Max(0, Min(index, n - 1))
  }

  /** `Math.min(currentIndex + 1, slides.length - 1)`. */
  function NextIndex(cur: int, n: int): int { Min(cur + 1, n - 1) }

  /** `Math.max(currentIndex - 1, 0)`. */
  function PrevIndex(cur: int): int { Max(cur - 1, 0) }

  /** From any index in range, "next" stays in range, advances by one, and
      stops at the last slide. */
  lemma NextIndexSteps(cur: int, n: int)
    requires 0 <= cur < n
    ensures 0 <= NextIndex(cur, n) < n
    ensures cur < n - 1 ==> NextIndex(cur, n) == cur + 1
    ensures cur == n - 1 ==> NextIndex(cur, n) == cur
  {
  }

  /** From any index in range, "previous" stays in range, goes back by one, and
      stops at the first slide. */
  lemma PrevIndexSteps(cur: int, n: int)
    requires 0 <= cur < n
    ensures 0 <= PrevIndex(cur) < n
    ensures cur > 0 ==> PrevIndex(cur) == cur - 1
    ensures cur == 0 ==> PrevIndex(cur) == 0
  {
  }

  /** Why the left spacer has the width it has: when the first slide starts
      right after it, the first slide's centring offset is 0 or 1 pixel, so
      the first slide can be centred at the left end of the track. */
  lemma FirstSlideCentersAtStart(containerW: int, firstW: int)
    requires containerW >= firstW
    ensures var c := CenteringOffset(SpacerWidth(containerW, firstW), firstW, containerW);
      0 <= c <= 1
  {
    var w := SpacerWidth(containerW, firstW);
    var c := CenteringOffset(w, firstW, containerW);
    assert 2 * w - (containerW - firstW) <= 1;
    assert 0 <= 2 * c + containerW - (2 * w + firstW) <= 1;
  }

  /** Why the right spacer has the width it has: when the track ends right
      after the last slide and its spacer, the last slide's centring offset is
      exactly the largest scroll offset, so the last slide can be centred at
      the right end of the track. */
  lemma LastSlideCentersAtEnd(containerW: int, last: Slide)
    requires containerW >= last.width
    ensures var sw := last.left + last.width + SpacerWidth(containerW, last.width);
      TargetOffset(last, containerW, sw) == MaxScroll(containerW, sw)
  {
    var w := SpacerWidth(containerW, last.width);
    var sw := last.left + last.width + w;
    var c := CenteringOffset(last.left, last.width, containerW);
    assert 2 * w - 1 <= containerW - last.width <= 2 * w;
    assert 0 <= 2 * c + containerW - (2 * last.left + last.width) <= 1;
    assert c == sw - containerW;
  }
}
