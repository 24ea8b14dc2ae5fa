/** The poster and product lightbox: a modal that shows one image of the grid
    that was clicked, steps through that grid's images with wrap-around, and
    listens to the keyboard only while it is displayed. */
module Lightbox {
  import opened Keyboard

  /** What `modalImage.src` holds: a URL, or `undefined` when the index read
      from `modalImages` is outside the list. */
  datatype Src = Url(url: string) | Undefined

  /** JavaScript's `%`: the remainder of the division truncated toward zero,
      which takes the sign of the dividend. */
  function JsRem(a: int, n: int): (r: int)
    requires n != 0
    ensures a >= 0 ==> 0 <= r < (if n > 0 then n else -n)
    ensures a < 0 ==> -(if n > 0 then n else -n) < r <= 0
  {
    var m := if n > 0 then n else -n;
    if a >= 0 then a % m else -((-a) % m)
  }

  /** On a non-negative dividend and a positive divisor, JavaScript's `%` and
      the Euclidean remainder agree. */
  lemma JsRemNonNegative(a: int, n: int)
    requires a >= 0 && n > 0
    ensures JsRem(a, n) == a % n
  {
  }

  /** The truncating remainder differs from the Euclidean one on a negative
      dividend: `-1 % 3` is `-1` in JavaScript. */
  lemma JsRemOfNegative()
    ensures JsRem(-1, 3) == -1 && (-1) % 3 == 2
  {
  }

  /** `(currentIndex + 1) % modalImages.length`. */
  function NextImage(cur: int, len: int): int
    requires len > 0
  {
    JsRem(cur + 1, len)
  }

  /** `(currentIndex - 1 + modalImages.length) % modalImages.length`. */
  function PrevImage(cur: int, len: int): int
    requires len > 0
  {
    JsRem(cur - 1 + len, len)
  }

  /** From an index in range, "next" stays in range: one step forward, and
      from the last image back to the first. */
  lemma NextImageWraps(cur: int, len: int)
    requires 0 <= cur < len
    ensures 0 <= NextImage(cur, len) < len
    ensures cur < len - 1 ==> NextImage(cur, len) == cur + 1
    ensures cur == len - 1 ==> NextImage(cur, len) == 0
  {
  }

  /** From an index in range, "previous" stays in range: one step back, and
      from the first image to the last. */
  lemma PrevImageWraps(cur: int, len: int)
    requires 0 <= cur < len
    ensures 0 <= PrevImage(cur, len) < len
    ensures cur > 0 ==> PrevImage(cur, len) == cur - 1
    ensures cur == 0 ==> PrevImage(cur, len) == len - 1
  {
  }

  /** "Previous" undoes "next" and "next" undoes "previous". */
  lemma PrevUndoesNext(cur: int, len: int)
    requires 0 <= cur < len
    ensures PrevImage(NextImage(cur, len), len) == cur
    ensures NextImage(PrevImage(cur, len), len) == cur
  {
    NextImageWraps(cur, len);
    PrevImageWraps(cur, len);
    NextImageWraps(PrevImage(cur, len), len);
    PrevImageWraps(NextImage(cur, len), len);
  }

  /** `modalImages[i]` assigned to `src`. */
  function SrcAt(images: seq<string>, i: int): (s: Src)
    ensures s.Url? <==> 0 <= i < |images|
    ensures 0 <= i < |images| ==> s.url == images[i]
  {
    if 0 <= i < |images| then Url(images[i]) else Undefined
  }

  /** `Array.prototype.indexOf`: the first position holding `x`, or -1. */
  function IndexOf(xs: seq<string>, x: string): (r: int)
    ensures r == -1 <==> x !in xs
    ensures r != -1 ==> 0 <= r < |xs| && xs[r] == x
    ensures forall j :: 0 <= j < r ==> xs[j] != x
  {
    if |xs| == 0 then -1
    else if xs[0] == x then 0
    else
      var r := IndexOf(xs[1..], x);
      if r == -1 then -1 else r + 1
  }

  class Modal {
    var images: seq<string>       // `modalImages`
    var currentIndex: int         // the lightbox's own `currentIndex`
    var shown: bool               // `flex` present and `hidden` absent
    var faded: bool               // `opacity-0` on the modal and `opacity-0 scale-90` on the image
    var zoomed: bool              // `animate-modal-zoom` on the image
    var src: Src                  // `modalImage.src`
    var revealTimers: nat         // fade-in callbacks of `openModalAt` still to run
    var closeTimers: nat          // hide callbacks of `closeModal` still to run

    /** Whenever there are images the index points at one of them, and the
        modal is only ever displayed with images to show. */
    ghost predicate Valid()
      reads this
    {
      && (|images| > 0 ==> 0 <= currentIndex < |images|)
      && (shown ==> |images| > 0)
    }

    /** The page as loaded: no images collected and the index at 0, as the
        script declares them.  That the modal starts hidden and faded, unzoomed
        and with an empty image source comes from the page's markup, not from
        the script. */
    constructor ()
      ensures images == [] && currentIndex == 0 && !shown && faded && !zoomed && src == Url("")
      ensures revealTimers == 0 && closeTimers == 0
      ensures Valid()
    {
      images := [];
      currentIndex := 0;
      shown := false;
      faded := true;
      zoomed := false;
      src := Url("");
      revealTimers := 0;
      closeTimers := 0;
    }

    /** `openModalAt(index)`: show image `index` and arm the fade-in. */
    method OpenModalAt(index: int)
      modifies this
      ensures currentIndex == index && src == SrcAt(images, index) && shown
      ensures revealTimers == old(revealTimers) + 1
      ensures images == old(images) && faded == old(faded) && zoomed == old(zoomed)
      ensures closeTimers == old(closeTimers)
    {
      currentIndex := index;
      src := SrcAt(images, currentIndex);
      shown := true;
      revealTimers := revealTimers + 1;
    }

    /** The fade-in callback of `openModalAt` fires. */
    method RevealFires()
      requires revealTimers > 0
      modifies this
      ensures !faded && zoomed && revealTimers == old(revealTimers) - 1
      ensures images == old(images) && currentIndex == old(currentIndex) && shown == old(shown)
      ensures src == old(src) && closeTimers == old(closeTimers)
    {
      faded := false;
      zoomed := true;
      revealTimers := revealTimers - 1;
    }

    /** `closeModal`: fade out now, hide later. */
    method CloseModal()
      modifies this
      ensures faded && closeTimers == old(closeTimers) + 1
      ensures images == old(images) && currentIndex == old(currentIndex) && shown == old(shown)
      ensures zoomed == old(zoomed) && src == old(src) && revealTimers == old(revealTimers)
    {
      faded := true;
      closeTimers := closeTimers + 1;
    }

    /** The hide callback of `closeModal` fires. */
    method CloseFires()
      requires Valid() && closeTimers > 0
      modifies this
      ensures !shown && src == Url("") && closeTimers == old(closeTimers) - 1
      ensures images == old(images) && currentIndex == old(currentIndex) && faded == old(faded)
      ensures zoomed == old(zoomed) && revealTimers == old(revealTimers)
      ensures Valid()
    {
      shown := false;
      src := Url("");
      closeTimers := closeTimers - 1;
    }

    /** `showNext`. */
    method ShowNext()
      requires Valid() && |images| > 0
      modifies this
      ensures images == old(images)
      ensures currentIndex == NextImage(old(currentIndex), |images|)
      ensures 0 <= currentIndex < |images| && src == Url(images[currentIndex]) && shown
      ensures revealTimers == old(revealTimers) + 1
      ensures faded == old(faded) && zoomed == old(zoomed) && closeTimers == old(closeTimers)
      ensures Valid()
    {
      NextImageWraps(currentIndex, |images|);
      currentIndex := JsRem(currentIndex + 1, |images|);
      OpenModalAt(currentIndex);
    }

    /** `showPrev`. */
    method ShowPrev()
      requires Valid() && |images| > 0
      modifies this
      ensures images == old(images)
      ensures currentIndex == PrevImage(old(currentIndex), |images|)
      ensures 0 <= currentIndex < |images| && src == Url(images[currentIndex]) && shown
      ensures revealTimers == old(revealTimers) + 1
      ensures faded == old(faded) && zoomed == old(zoomed) && closeTimers == old(closeTimers)
      ensures Valid()
    {
      PrevImageWraps(currentIndex, |images|);
      currentIndex := JsRem(currentIndex - 1 + |images|, |images|);
      OpenModalAt(currentIndex);
    }

    /** A click on image `clicked` of a grid whose images have the sources
        `grid`: collect the grid's sources and open the first image with the
        clicked one's source. */
    method ClickImage(grid: seq<string>, clicked: nat)
      requires clicked < |grid|
      modifies this
      ensures images == grid
      ensures currentIndex == IndexOf(grid, grid[clicked]) && currentIndex <= clicked
      ensures src == Url(grid[clicked]) && shown
      ensures revealTimers == old(revealTimers) + 1
      ensures faded == old(faded) && zoomed == old(zoomed) && closeTimers == old(closeTimers)
      ensures Valid()
    {
      images := grid;
      var index := IndexOf(images, grid[clicked]);
      OpenModalAt(index);
    }

    /** A click on the modal: it closes only when the backdrop itself, not the
        image or a button inside it, was clicked. */
    method ClickModal(onBackdrop: bool)
      modifies this
      ensures onBackdrop ==> faded && closeTimers == old(closeTimers) + 1
      ensures !onBackdrop ==> faded == old(faded) && closeTimers == old(closeTimers)
      ensures images == old(images) && currentIndex == old(currentIndex) && shown == old(shown)
      ensures zoomed == old(zoomed) && src == old(src) && revealTimers == old(revealTimers)
    {
      if onBackdrop {
        CloseModal();
      }
    }

    /** The document's `keydown` handler: nothing unless the modal is
        displayed; then Escape closes, and the arrows step with wrap-around. */
    method KeyDown(key: Key)
      requires Valid()
      modifies this
      ensures images == old(images)
      ensures old(shown) ==> |images| > 0
      ensures !old(shown) ==> unchanged(this)
      // the arrows: `showNext` / `showPrev`, the image at the new index shown
      ensures old(shown) && key == ArrowRight ==>
        && currentIndex == NextImage(old(currentIndex), |images|)
        && 0 <= currentIndex < |images| && src == Url(images[currentIndex]) && shown
        && revealTimers == old(revealTimers) + 1
        && faded == old(faded) && zoomed == old(zoomed) && closeTimers == old(closeTimers)
      ensures old(shown) && key == ArrowLeft ==>
        && currentIndex == PrevImage(old(currentIndex), |images|)
        && 0 <= currentIndex < |images| && src == Url(images[currentIndex]) && shown
        && revealTimers == old(revealTimers) + 1
        && faded == old(faded) && zoomed == old(zoomed) && closeTimers == old(closeTimers)
      // Escape: `closeModal`, fading now and hiding later
      ensures old(shown) && key == Escape ==>
        && faded && closeTimers == old(closeTimers) + 1 && shown
        && currentIndex == old(currentIndex) && src == old(src)
        && zoomed == old(zoomed) && revealTimers == old(revealTimers)
      ensures old(shown) && key == OtherKey ==> unchanged(this)
      ensures Valid()
    {
      if !shown {
        return;
      }
      if key == Escape {
        CloseModal();
      }
      if key == ArrowRight {
        ShowNext();
      }
      if key == ArrowLeft {
        ShowPrev();
      }
    }
  }
}
