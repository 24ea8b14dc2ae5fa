/** The visual-strategy carousel as the script runs it: one object whose
    fields are the closure's variables and the container's state, and whose
    methods are the handlers and timer callbacks.  Each handler and timer
    callback is proved to take the object from `s` to the state the matching
    function of `CarouselSpec` gives for `s`, and to keep `Inv`; the helpers
    they call are proved against their own functions. */
module CarouselImpl {
  import opened Geometry
  import opened Spacers
  import opened Nearest
  import opened Keyboard
  import opened CarouselSpec
  import opened Options

  class Carousel {
    var children: seq<Node>
    var slides: seq<Slide>
    var videos: seq<nat>
    var marks: seq<Mark>
    var currentIndex: int
    var isAnimating: bool
    var clientWidth: int
    var scrollWidth: int
    var scrollLeft: int
    var scrollRequest: Option<int>
    var settlePending: bool
    var debouncePending: bool
    var resizeTimers: nat
    var initPending: bool

    /** The fields as one `CarouselSpec.State`. */
    function Model(): State
      reads this
    {
      State(children, slides, videos, marks, currentIndex, isAnimating, clientWidth, scrollWidth,
            scrollLeft, scrollRequest, settlePending, debouncePending, resizeTimers, initPending)
    }

    ghost predicate Valid()
      reads this
    {
      Inv(Model())
    }

    /** The script's start-up: the first `computeLayout()` and the start-up
        timer armed. */
    constructor (initialChildren: seq<Node>, initialClientWidth: int, initialScrollWidth: int, initialScrollLeft: int)
      requires AtMostOneEach(initialChildren)
      ensures Model() == Initial(initialChildren, initialClientWidth, initialScrollWidth, initialScrollLeft)
      ensures Valid()
    {
      children := initialChildren;
      slides := [];
      videos := [];
      marks := NoMarks(|Items(initialChildren)|);
      currentIndex := 0;
      isAnimating := false;
      clientWidth := initialClientWidth;
      scrollWidth := initialScrollWidth;
      scrollLeft := initialScrollLeft;
      scrollRequest := None;
      settlePending := false;
      debouncePending := false;
      resizeTimers := 0;
      initPending := true;
      new;
      ComputeLayout();
      InitialInv(initialChildren, initialClientWidth, initialScrollWidth, initialScrollLeft);
    }

    /** `ensureSpacers`. */
    method EnsureSpacers()
      modifies this`children, this`slides
      ensures children == Spacers.EnsureSpacers(old(children), clientWidth)
      ensures slides == Items(old(children))
    {
      var containerW := clientWidth;
      slides := Items(children);
      if |slides| == 0 {
        assert Spacers.EnsureSpacers(children, containerW) == children;
        return;
      }
      var firstW := slides[0].width;
      var lastW := slides[|slides| - 1].width;
      var leftWidth := SpacerWidth(containerW, firstW);
      var rightWidth := SpacerWidth(containerW, lastW);
      EnsureSpacersSteps(children, containerW, firstW, lastW);
      var kept := RemoveFirstLeft(children);
      kept := RemoveFirstRight(kept);
      children := [LeftSpacer(leftWidth)] + kept + [RightSpacer(rightWidth)];
    }

    /** `computeLayout`. */
    method ComputeLayout()
      modifies this`children, this`slides, this`videos
      ensures Model() == CarouselSpec.ComputeLayout(old(Model()))
    {
      EnsureSpacers();
      slides := Items(children);
      videos := VideoOwners(slides);
    }

    /** `updateHighlight`. */
    method UpdateHighlight()
      requires Valid()
      modifies this`currentIndex, this`marks
      ensures Model() == CarouselSpec.UpdateHighlight(old(Model()))
      ensures Valid()
    {
      ghost var s0 := Model();
      UpdateHighlightInv(s0);
      if |videos| == 0 {
        return;
      }
      var best := FindNearest(slides, 2 * scrollLeft + clientWidth);
      currentIndex := best;
      MarkVideos();
      assert Model() == CarouselSpec.UpdateHighlight(s0);
    }

    /** The `videos.forEach` of `updateHighlight`: the video of rank `i` gets
        `active` when `i` is the current index and `inactive` otherwise. */
    method MarkVideos()
      requires forall j :: 0 <= j < |videos| ==> videos[j] < |marks|
      modifies this`marks
      ensures marks == HighlightMarks(old(marks), videos, currentIndex, |videos|)
    {
      ghost var marks0 := marks;
      for i := 0 to |videos|
        invariant marks == HighlightMarks(marks0, videos, currentIndex, i)
      {
        marks := marks[videos[i] := if i == currentIndex then Active else Inactive];
      }
    }

    /** `scrollToIndex(index)`. */
    method ScrollToIndex(index: int)
      requires Valid()
      modifies this`currentIndex, this`marks, this`isAnimating, this`scrollRequest, this`settlePending
      ensures Model() == CarouselSpec.ScrollToIndex(old(Model()), index)
      ensures Valid()
    {
      ghost var s0 := Model();
      ScrollToIndexInv(s0, index);
      if |slides| == 0 {
        return;
      }
      var k := Max(0, Min(index, |slides| - 1));
      assert k == ClampIndex(index, |s0.slides|);
      var target := TargetScrollLeft(slides[k]);
      SelectSlide(k);
      if Gap(scrollLeft, target) < 3 {
        UpdateHighlight();
        return;
      }
      RequestScroll(target);
    }

    /** The index half of `scrollToIndex`. */
    method SelectSlide(k: int)
      modifies this`currentIndex
      ensures Model() == CarouselSpec.SelectSlide(old(Model()), k)
    {
      currentIndex := k;
    }

    /** The scrolling half of `scrollToIndex`. */
    method RequestScroll(target: int)
      modifies this`isAnimating, this`scrollRequest, this`settlePending
      ensures Model() == CarouselSpec.RequestScroll(old(Model()), target)
    {
      isAnimating := true;
      scrollRequest := Some(target);
      settlePending := true;
    }

    method TargetScrollLeft(slide: Slide) returns (target: int)
      ensures target == TargetOffset(slide, clientWidth, scrollWidth)
      ensures 0 <= target <= MaxScroll(clientWidth, scrollWidth)
    {
      var containerWidth := clientWidth;
      target := RoundHalf(2 * slide.left + slide.width - containerWidth);
      var maxScroll := Max(0, scrollWidth - containerWidth);
      if target < 0 {
        target := 0;
      }
      if target > maxScroll {
        target := maxScroll;
      }
    }

    /** The settle timeout fires. */
    method SettleFires()
      requires Valid() && settlePending
      modifies this
      ensures Model() == CarouselSpec.SettleFires(old(Model()))
      ensures Valid()
    {
      isAnimating := false;
      settlePending := false;
      UpdateHighlight();
    }

    /** `goNext`. */
    method GoNext()
      requires Valid()
      modifies this
      ensures Model() == CarouselSpec.GoNext(old(Model()))
      ensures Valid()
    {
      if isAnimating || |slides| == 0 {
        return;
      }
      var nextIndex := Min(currentIndex + 1, |slides| - 1);
      ScrollToIndex(nextIndex);
    }

    /** `goPrev`. */
    method GoPrev()
      requires Valid()
      modifies this
      ensures Model() == CarouselSpec.GoPrev(old(Model()))
      ensures Valid()
    {
      if isAnimating || |slides| == 0 {
        return;
      }
      var prevIndex := Max(currentIndex - 1, 0);
      ScrollToIndex(prevIndex);
    }

    /** The container's `scroll` listener, the container having moved to `pos`. */
    method Scrolled(pos: int)
      requires Valid()
      modifies this
      ensures Model() == CarouselSpec.Scrolled(old(Model()), pos)
      ensures Valid()
    {
      scrollLeft := pos;
      debouncePending := true;
    }

    /** The debounce timer fires. */
    method DebounceFires()
      requires Valid() && debouncePending
      modifies this
      ensures Model() == CarouselSpec.DebounceFires(old(Model()))
      ensures Valid()
    {
      debouncePending := false;
      if isAnimating {
        return;
      }
      var index := SnapTarget();
      ScrollToIndex(index);
    }

    /** The index the debounced handler passes to `scrollToIndex`: the first
        slide near the left edge, the last near the right edge, else the
        slide whose centre is nearest the visible centre. */
    method SnapTarget() returns (index: int)
      ensures index == SnapIndex(slides, scrollLeft, clientWidth, scrollWidth)
    {
      var containerCenter2 := 2 * scrollLeft + clientWidth;
      var maxScroll := MaxScroll(clientWidth, scrollWidth);
      if scrollLeft <= 12 {
        return 0;
      }
      if Gap(scrollLeft, maxScroll) <= 12 {
        return |slides| - 1;
      }
      index := FindNearest(slides, containerCenter2);
    }

    /** `resizeHandler`. */
    method ResizeHandler()
      requires Valid()
      modifies this`children, this`slides, this`videos, this`resizeTimers
      ensures Model() == CarouselSpec.ResizeHandler(old(Model()))
      ensures Valid()
    {
      ghost var s0 := Model();
      ComputeLayout();
      ArmResizeTimer();
      ResizeHandlerInv(s0);
    }

    /** The timer half of `resizeHandler`. */
    method ArmResizeTimer()
      modifies this`resizeTimers
      ensures Model() == CarouselSpec.ArmResizeTimer(old(Model()))
    {
      resizeTimers := resizeTimers + 1;
    }

    /** The re-centring callback of a resize fires. */
    method ResizeTimerFires()
      requires Valid() && resizeTimers > 0
      modifies this
      ensures Model() == CarouselSpec.ResizeTimerFires(old(Model()))
      ensures Valid()
    {
      resizeTimers := resizeTimers - 1;
      ScrollToIndex(currentIndex);
    }

    /** The start-up callback fires. */
    method InitFires()
      requires Valid() && initPending
      modifies this
      ensures Model() == CarouselSpec.InitFires(old(Model()))
      ensures Valid()
    {
      initPending := false;
      ScrollToIndex(0);
      UpdateHighlight();
    }

    /** The container's `keydown` listener. */
    method KeyDown(key: Key) returns (prevented: bool)
      requires Valid()
      modifies this
      ensures (Model(), prevented) == CarouselSpec.KeyDown(old(Model()), key)
      ensures Valid()
    {
      prevented := false;
      if key == ArrowRight {
        prevented := true;
        GoNext();
      }
      if key == ArrowLeft {
        prevented := true;
        GoPrev();
      }
    }

    /** The browser lays the page out again. */
    method Reflow(newClientWidth: int, newScrollWidth: int, geometry: seq<Slide>)
      requires Valid() && ReflowFits(Model(), geometry)
      modifies this
      ensures Model() == CarouselSpec.Reflow(old(Model()), newClientWidth, newScrollWidth, geometry)
      ensures Valid()
    {
      ghost var s0 := Model();
      children := ReplaceItems(children, geometry);
      slides := geometry;
      clientWidth := newClientWidth;
      scrollWidth := newScrollWidth;
      assert Model() == CarouselSpec.Reflow(s0, newClientWidth, newScrollWidth, geometry);
      ReflowInv(s0, newClientWidth, newScrollWidth, geometry);
    }
  }
}
