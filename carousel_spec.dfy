/** The visual-strategy carousel as a state machine.

    `State` holds the closure's variables (`slides`, `videos`, `currentIndex`,
    `isAnimating`, the pending timers), the container's children, the class
    state of each slide's video, and what the browser reports about the
    container (`clientWidth`, `scrollWidth`, `scrollLeft`).  Every handler and
    every timer callback is a function from the state before to the state
    after; a smooth scroll is recorded as the offset it asks for. */
module CarouselSpec {
  import opened Geometry
  import opened Spacers
  import opened Nearest
  import opened Keyboard
  import opened Options

  /** The `active` / `inactive` classes of one video element.  `Active` goes
      with a `play()` request and `Inactive` with a `pause()` request;
      `Unmarked` is a video the highlight has not touched yet. */
  datatype Mark = Unmarked | Active | Inactive

  datatype State = State(
    children: seq<Node>,        // the container's children, spacers included
    slides: seq<Slide>,         // the closure's `slides`
    videos: seq<nat>,           // the closure's `videos`: the slide each one sits in
    marks: seq<Mark>,           // the classes of the video inside each slide
    currentIndex: int,
    isAnimating: bool,
    clientWidth: int,
    scrollWidth: int,
    scrollLeft: int,
    scrollRequest: Option<int>, // the last smooth `scrollTo` target
    settlePending: bool,        // `_animTimeout` is armed
    debouncePending: bool,      // `userScrollTimer` is armed
    resizeTimers: nat,          // resize callbacks still to run
    initPending: bool)          // the start-up callback has not run yet

  /** `slides.map(s => s.querySelector("video")).filter(Boolean)`: the videos
      in slide order, each named by the slide that holds it. */
  function VideoOwners(slides: seq<Slide>): (v: seq<nat>)
    ensures |v| <= |slides|
    ensures forall i :: 0 <= i < |v| ==> v[i] < |slides|
    decreases |slides|
  {
    if |slides| == 0 then []
    else
      var init := VideoOwners(slides[..|slides| - 1]);
      if slides[|slides| - 1].hasVideo then init + [|slides| - 1] else init
  }

  /** Exactly the slides that hold a video are listed, each once, in slide
      order. */
  lemma {:induction false} VideoOwnersExact(slides: seq<Slide>)
    ensures var v := VideoOwners(slides);
      && (forall i :: 0 <= i < |v| ==> slides[v[i]].hasVideo)
      && (forall i, j :: 0 <= i < j < |v| ==> v[i] < v[j])
      && (forall p :: 0 <= p < |slides| && slides[p].hasVideo ==> p in v)
    decreases |slides|
  {
    if |slides| > 0 {
      var init := slides[..|slides| - 1];
      VideoOwnersExact(init);
      var w := VideoOwners(init);
      assert forall i :: 0 <= i < |w| ==> slides[w[i]] == init[w[i]];
      assert forall p :: 0 <= p < |init| ==> init[p] == slides[p];
    }
  }

  predicate AllHaveVideos(slides: seq<Slide>) {
    forall p :: 0 <= p < |slides| ==> slides[p].hasVideo
  }

  /** When every slide holds a video, video number `i` is the one in slide `i`. */
  lemma {:induction false} VideoOwnersAll(slides: seq<Slide>)
    requires AllHaveVideos(slides)
    ensures |VideoOwners(slides)| == |slides|
    ensures forall i :: 0 <= i < |slides| ==> VideoOwners(slides)[i] == i
    decreases |slides|
  {
    if |slides| > 0 {
      VideoOwnersAll(slides[..|slides| - 1]);
    }
  }

  /** The videos depend only on which slides hold one. */
  lemma {:induction false} VideoOwnersSameFlags(a: seq<Slide>, b: seq<Slide>)
    requires |a| == |b|
    requires forall p :: 0 <= p < |a| ==> a[p].hasVideo == b[p].hasVideo
    ensures VideoOwners(a) == VideoOwners(b)
    decreases |a|
  {
    if |a| > 0 {
      VideoOwnersSameFlags(a[..|a| - 1], b[..|b| - 1]);
    }
  }

  /** The `videos.forEach` of `updateHighlight` after its first `n` steps:
      video number `i` gets `active` when `i == k` and `inactive` otherwise. */
  function HighlightMarks(marks: seq<Mark>, videos: seq<nat>, k: int, n: nat): (r: seq<Mark>)
    requires n <= |videos|
    ensures |r| == |marks|
    decreases n
  {
    if n == 0 then marks
    else
      var prev := HighlightMarks(marks, videos, k, n - 1);
      var v := videos[n - 1];
      if v < |prev| then prev[v := if n - 1 == k then Active else Inactive] else prev
  }

  /** What the marking loop leaves behind: the video of rank `i` is active
      exactly when `i == k`, and a slide without a video keeps its marks. */
  lemma {:induction false} HighlightMarksAt(marks: seq<Mark>, videos: seq<nat>, k: int, n: nat)
    requires n <= |videos|
    requires forall i :: 0 <= i < n ==> videos[i] < |marks|
    requires forall i, j :: 0 <= i < j < n ==> videos[i] < videos[j]
    ensures var r := HighlightMarks(marks, videos, k, n);
      && (forall i :: 0 <= i < n ==> r[videos[i]] == if i == k then Active else Inactive)
      && (forall p :: 0 <= p < |marks| && p !in videos[..n] ==> r[p] == marks[p])
    decreases n
  {
    if n > 0 {
      HighlightMarksAt(marks, videos, k, n - 1);
      assert videos[..n] == videos[..n - 1] + [videos[n - 1]];
    }
  }

  /** The layout part of the invariant: at most one spacer of each kind, the
      closure's `slides` and `videos` as `computeLayout` collects them from
      the children, and one video mark per slide. */
  ghost predicate LayoutInv(children: seq<Node>, slides: seq<Slide>, videos: seq<nat>, markCount: nat) {
    && AtMostOneEach(children)
    && slides == Items(children)
    && videos == VideoOwners(slides)
    && markCount == |slides|
  }

  /** The invariant the carousel keeps from its first layout on. */
  ghost predicate Inv(st: State) {
    LayoutInv(st.children, st.slides, st.videos, |st.marks|) && IndexInv(st) && MarksInv(st.slides, st.marks)
  }

  /** The class part of the invariant: a slide without a video has nothing
      marked, and at most one video is `active`. */
  predicate MarksInv(slides: seq<Slide>, marks: seq<Mark>) {
    && (forall p :: 0 <= p < |marks| && p < |slides| && !slides[p].hasVideo ==> marks[p] == Unmarked)
    && (forall p, q :: 0 <= p < |marks| && 0 <= q < |marks| && marks[p] == Active && marks[q] == Active ==> p == q)
  }

  /** The index part of the invariant: `currentIndex` names a slide (0 when
      there is none), and the animating flag is up exactly while the settle
      timeout is armed. */
  predicate IndexInv(st: State) {
    && 0 <= st.currentIndex
    && (|st.slides| > 0 ==> st.currentIndex < |st.slides|)
    && (|st.slides| == 0 ==> st.currentIndex == 0)
    && st.isAnimating == st.settlePending
  }

  /** The doubled centre of the visible area: `2 * (scrollLeft + clientWidth / 2)`. */
  function VisibleCenter2(st: State): int { 2 * st.scrollLeft + st.clientWidth }

  /** `updateHighlight`. */
  function UpdateHighlight(st: State): (r: State)
    // only the index and the video classes change
    ensures r == st.(currentIndex := r.currentIndex, marks := r.marks)
  {
    if |st.videos| == 0 then st
    else
      var best := NearestSlide(st.slides, VisibleCenter2(st));
      st.(currentIndex := best, marks := HighlightMarks(st.marks, st.videos, best, |st.videos|))
  }

  /** `scrollToIndex(index)`. */
  function ScrollToIndex(st: State, index: int): State {
    if |st.slides| == 0 then st
    else
      var k := ClampIndex(index, |st.slides|);
      var target := TargetOffset(st.slides[k], st.clientWidth, st.scrollWidth);
      var st1 := SelectSlide(st, k);
      if Gap(st.scrollLeft, target) < 3 then UpdateHighlight(st1)
      else RequestScroll(st1, target)
  }

  /** `currentIndex = i`. */
  function SelectSlide(st: State, k: int): State {
    st.(currentIndex := k)
  }

  /** `isAnimating = true`, the smooth `scrollTo` and the settle timer. */
  function RequestScroll(st: State, target: int): State {
    st.(isAnimating := true, scrollRequest := Some(target), settlePending := true)
  }

  /** The settle timeout armed by `scrollToIndex` fires. */
  function SettleFires(st: State): State
    requires st.settlePending
  {
    UpdateHighlight(st.(isAnimating := false, settlePending := false))
  }

  /** `goNext`. */
  function GoNext(st: State): State {
    if st.isAnimating || |st.slides| == 0 then st
    else ScrollToIndex(st, NextIndex(st.currentIndex, |st.slides|))
  }

  /** `goPrev`. */
  function GoPrev(st: State): State {
    if st.isAnimating || |st.slides| == 0 then st
    else ScrollToIndex(st, PrevIndex(st.currentIndex))
  }

  /** A `scroll` event, from the user or from a smooth scroll in flight: the
      container now sits at `pos`, and the debounce timer is (re)started, so
      that only the latest one is pending. */
  function Scrolled(st: State, pos: int): State {
    st.(scrollLeft := pos, debouncePending := true)
  }

  /** The index the debounced handler snaps to: the first slide near the left
      edge, the last one near the right edge, else the nearest slide. */
  function SnapIndex(slides: seq<Slide>, scrollLeft: int, clientWidth: int, scrollWidth: int): (r: int)
    ensures |slides| > 0 ==> 0 <= r < |slides|
    // the left edge is checked first
    ensures scrollLeft <= 12 ==> r == 0
    ensures scrollLeft > 12 && Gap(scrollLeft, MaxScroll(clientWidth, scrollWidth)) <= 12 ==> r == |slides| - 1
  {
    if scrollLeft <= 12 then 0
    else if Gap(scrollLeft, MaxScroll(clientWidth, scrollWidth)) <= 12 then |slides| - 1
    else NearestSlide(slides, 2 * scrollLeft + clientWidth)
  }

  /** The debounce timer fires. */
  function DebounceFires(st: State): State
    requires st.debouncePending
  {
    var st0 := st.(debouncePending := false);
    if st.isAnimating then st0
    else ScrollToIndex(st0, SnapIndex(st.slides, st.scrollLeft, st.clientWidth, st.scrollWidth))
  }

  /** `computeLayout`: rebuild the spacers, then re-collect slides and videos. */
  function ComputeLayout(st: State): State {
    var children := EnsureSpacers(st.children, st.clientWidth);
    var slides := Items(children);
    st.(children := children, slides := slides, videos := VideoOwners(slides))
  }

  /** `resizeHandler`: lay out again and arm the re-centring callback. */
  function ResizeHandler(st: State): State {
    ArmResizeTimer(ComputeLayout(st))
  }

  /** The `setTimeout` of `resizeHandler`: one more pending re-centring
      callback.  Nothing clears the earlier ones, so every resize event
      leaves a callback of its own. */
  function ArmResizeTimer(st: State): State {
    st.(resizeTimers := st.resizeTimers + 1)
  }

  /** The re-centring callback of a resize fires: centre the current slide
      again under the new geometry. */
  function ResizeTimerFires(st: State): State
    requires st.resizeTimers > 0
  {
    var st0 := st.(resizeTimers := st.resizeTimers - 1);
    ScrollToIndex(st0, st0.currentIndex)
  }

  /** The start-up callback fires: `scrollToIndex(0)` and then `updateHighlight()`. */
  function InitFires(st: State): State
    requires st.initPending
  {
    UpdateHighlight(ScrollToIndex(st.(initPending := false), 0))
  }

  /** The container's `keydown` handler; the flag says whether the key's
      default action is prevented. */
  function KeyDown(st: State, key: Key): (State, bool) {
    match key
    case ArrowRight => (GoNext(st), true)
    case ArrowLeft => (GoPrev(st), true)
    case _ => (st, false)
  }

  /** Put new measurements into the slides among `children`, in order. */
  function ReplaceItems(children: seq<Node>, geometry: seq<Slide>): (r: seq<Node>)
    requires |geometry| == |Items(children)|
    ensures |r| == |children|
  {
    if children == [] then []
    else if children[0].Item? then [Item(geometry[0])] + ReplaceItems(children[1..], geometry[1..])
    else [children[0]] + ReplaceItems(children[1..], geometry)
  }

  /** Replacing the measurements gives exactly the new slides, and leaves the
      spacers where and what they were. */
  lemma {:induction false} ReplaceItemsSpec(children: seq<Node>, geometry: seq<Slide>)
    requires |geometry| == |Items(children)|
    ensures var r := ReplaceItems(children, geometry);
      && Items(r) == geometry
      && LeftCount(r) == LeftCount(children) && RightCount(r) == RightCount(children)
      && forall i :: 0 <= i < |children| && !children[i].Item? ==> r[i] == children[i]
    decreases |children|
  {
    if children != [] {
      var r := ReplaceItems(children, geometry);
      if children[0].Item? {
        ReplaceItemsSpec(children[1..], geometry[1..]);
        assert r[1..] == ReplaceItems(children[1..], geometry[1..]);
        assert geometry == [geometry[0]] + geometry[1..];
      } else {
        ReplaceItemsSpec(children[1..], geometry);
        assert r[1..] == ReplaceItems(children[1..], geometry);
      }
    }
  }

  /** The browser lays the page out again: new container width, track width
      and slide measurements; no video moves to another slide. */
  predicate ReflowFits(st: State, geometry: seq<Slide>) {
    && |geometry| == |st.slides| == |Items(st.children)|
    && forall p :: 0 <= p < |geometry| ==> geometry[p].hasVideo == st.slides[p].hasVideo
  }

  function Reflow(st: State, clientWidth: int, scrollWidth: int, geometry: seq<Slide>): State
    requires ReflowFits(st, geometry)
  {
    st.(children := ReplaceItems(st.children, geometry), slides := geometry,
        clientWidth := clientWidth, scrollWidth := scrollWidth)
  }

  /** The state after the script has run: the first layout is done and the
      start-up callback is armed. */
  function Initial(children: seq<Node>, clientWidth: int, scrollWidth: int, scrollLeft: int): State {
    ComputeLayout(State(children, [], [], NoMarks(|Items(children)|), 0, false,
                        clientWidth, scrollWidth, scrollLeft, None, false, false, 0, true))
  }

  /** `n` videos that the highlight has not touched yet.  The page's markup
      gives no video an `active` or `inactive` class before the script's
      first highlight; that is an assumption about the markup, not something
      the script does. */
  function NoMarks(n: nat): (r: seq<Mark>)
    ensures |r| == n
    ensures forall p :: 0 <= p < n ==> r[p] == Unmarked
  {
    seq(n, _ => Unmarked)
  }

  /** Everything that can happen to the carousel. */
  datatype Event =
    | NextClick | PrevClick | KeyPress(key: Key) | Scroll(pos: int) | Resize
    | Layout(clientWidth: int, scrollWidth: int, geometry: seq<Slide>)
    | DebounceTimer | SettleTimer | ResizeTimer | InitTimer

  /** A timer can fire only while it is armed. */
  predicate Enabled(st: State, e: Event) {
    match e
    case Layout(_, _, geometry) => ReflowFits(st, geometry)
    case DebounceTimer => st.debouncePending
    case SettleTimer => st.settlePending
    case ResizeTimer => st.resizeTimers > 0
    case InitTimer => st.initPending
    case _ => true
  }

  function Step(st: State, e: Event): State
    requires Enabled(st, e)
  {
    match e
    case NextClick => GoNext(st)
    case PrevClick => GoPrev(st)
    case KeyPress(key) => KeyDown(st, key).0
    case Scroll(pos) => Scrolled(st, pos)
    case Resize => ResizeHandler(st)
    case Layout(cw, sw, geometry) => Reflow(st, cw, sw, geometry)
    case DebounceTimer => DebounceFires(st)
    case SettleTimer => SettleFires(st)
    case ResizeTimer => ResizeTimerFires(st)
    case InitTimer => InitFires(st)
  }

  // ---------------------------------------------------------------------
  // Properties
  // ---------------------------------------------------------------------

  lemma UpdateHighlightInv(st: State)
    requires Inv(st)
    ensures Inv(UpdateHighlight(st))
  {
    if |st.videos| > 0 {
      var best := NearestSlide(st.slides, VisibleCenter2(st));
      assert |st.slides| > 0;
      HighlightActiveVideo(st);
    }
  }

  /** On every page, whether or not each slide holds a video, the highlight
      leaves at most one video `active`: the one of rank `currentIndex`
      among the videos, if there is such a rank.  Slides without a video
      stay unmarked. */
  lemma HighlightActiveVideo(st: State)
    requires Inv(st) && |st.videos| > 0
    ensures var r := UpdateHighlight(st);
      && (forall p :: 0 <= p < |r.marks| ==>
            (r.marks[p] == Active <==> r.currentIndex < |st.videos| && p == st.videos[r.currentIndex]))
      && MarksInv(r.slides, r.marks)
  {
    var r := UpdateHighlight(st);
    var n := |st.videos|;
    VideoOwnersExact(st.slides);
    HighlightMarksAt(st.marks, st.videos, r.currentIndex, n);
    assert st.videos[..n] == st.videos;
    forall p | 0 <= p < |r.marks|
      ensures r.marks[p] == Active <==> r.currentIndex < n && p == st.videos[r.currentIndex]
      ensures !st.slides[p].hasVideo ==> r.marks[p] == Unmarked
    {
      if i :| 0 <= i < n && st.videos[i] == p {
        assert r.marks[p] == if i == r.currentIndex then Active else Inactive;
        assert r.currentIndex < n && p == st.videos[r.currentIndex] ==> i == r.currentIndex by {
          if i < r.currentIndex < n { assert st.videos[i] < st.videos[r.currentIndex]; }
          if r.currentIndex < i { assert r.currentIndex < 0 || st.videos[r.currentIndex] < st.videos[i]; }
        }
      } else {
        assert p !in st.videos;
        assert r.marks[p] == st.marks[p] == Unmarked;
      }
    }
  }

  lemma ScrollToIndexInv(st: State, index: int)
    requires Inv(st)
    ensures Inv(ScrollToIndex(st, index))
    ensures |st.slides| > 0 ==> Inv(st.(currentIndex := ClampIndex(index, |st.slides|)))
  {
    if |st.slides| > 0 {
      UpdateHighlightInv(st.(currentIndex := ClampIndex(index, |st.slides|)));
    }
  }

  lemma ComputeLayoutInv(st: State)
    requires Inv(st)
    ensures Inv(ComputeLayout(st))
    ensures ComputeLayout(st).slides == st.slides && ComputeLayout(st).videos == st.videos
  {
    if Items(st.children) != [] {
      EnsureSpacersFrames(st.children, st.clientWidth);
    }
  }

  lemma ResizeHandlerInv(st: State)
    requires Inv(st)
    ensures Inv(ResizeHandler(st))
  {
    ComputeLayoutInv(st);
  }

  lemma GoNextInv(st: State)
    requires Inv(st)
    ensures Inv(GoNext(st))
  {
    if !st.isAnimating && |st.slides| > 0 {
      ScrollToIndexInv(st, NextIndex(st.currentIndex, |st.slides|));
    }
  }

  lemma GoPrevInv(st: State)
    requires Inv(st)
    ensures Inv(GoPrev(st))
  {
    if !st.isAnimating && |st.slides| > 0 {
      ScrollToIndexInv(st, PrevIndex(st.currentIndex));
    }
  }

  lemma ReflowInv(st: State, clientWidth: int, scrollWidth: int, geometry: seq<Slide>)
    requires Inv(st) && ReflowFits(st, geometry)
    ensures Inv(Reflow(st, clientWidth, scrollWidth, geometry))
  {
    var r := Reflow(st, clientWidth, scrollWidth, geometry);
    var children := ReplaceItems(st.children, geometry);
    ReplaceItemsSpec(st.children, geometry);
    assert r.children == children && r.slides == geometry;
    assert Items(children) == geometry;
    assert AtMostOneEach(children);
    VideoOwnersSameFlags(geometry, st.slides);
    assert r.videos == VideoOwners(geometry);
    assert MarksInv(geometry, st.marks) by {
      assert forall p :: 0 <= p < |geometry| ==> geometry[p].hasVideo == st.slides[p].hasVideo;
    }
  }

  lemma DebounceFiresInv(st: State)
    requires Inv(st) && st.debouncePending
    ensures Inv(DebounceFires(st))
  {
    var st0 := st.(debouncePending := false);
    ScrollToIndexInv(st0, SnapIndex(st.slides, st.scrollLeft, st.clientWidth, st.scrollWidth));
  }

  lemma SettleFiresInv(st: State)
    requires Inv(st) && st.settlePending
    ensures Inv(SettleFires(st))
  {
    UpdateHighlightInv(st.(isAnimating := false, settlePending := false));
  }

  lemma ResizeTimerFiresInv(st: State)
    requires Inv(st) && st.resizeTimers > 0
    ensures Inv(ResizeTimerFires(st))
  {
    var st0 := st.(resizeTimers := st.resizeTimers - 1);
    ScrollToIndexInv(st0, st0.currentIndex);
  }

  lemma InitFiresInv(st: State)
    requires Inv(st) && st.initPending
    ensures Inv(InitFires(st))
  {
    var st0 := st.(initPending := false);
    ScrollToIndexInv(st0, 0);
    UpdateHighlightInv(ScrollToIndex(st0, 0));
  }

  /** Every event keeps the invariant: the index stays in range (clamped,
      never wrapped), the container keeps at most one spacer of each kind,
      the animating flag is up exactly while the settle timeout is armed,
      and at most one video is `active`. */
  lemma StepPreservesInv(st: State, e: Event)
    requires Inv(st) && Enabled(st, e)
    ensures Inv(Step(st, e))
  {
    match e
    case NextClick => GoNextInv(st);
    case PrevClick => GoPrevInv(st);
    case KeyPress(key) => GoNextInv(st); GoPrevInv(st);
    case Scroll(pos) =>
    case Resize => ResizeHandlerInv(st);
    case Layout(cw, sw, geometry) => ReflowInv(st, cw, sw, geometry);
    case DebounceTimer => DebounceFiresInv(st);
    case SettleTimer => SettleFiresInv(st);
    case ResizeTimer => ResizeTimerFiresInv(st);
    case InitTimer => InitFiresInv(st);
  }

  /** Only the settle timeout lowers the animating flag: while it is up,
      every other event leaves it up. */
  lemma AnimatingClearedOnlyBySettle(st: State, e: Event)
    requires Inv(st) && Enabled(st, e) && st.isAnimating && !e.SettleTimer?
    ensures Step(st, e).isAnimating
  {
  }

  /** The first layout establishes the invariant, provided the page does not
      already hold two spacers of one kind. */
  lemma InitialInv(children: seq<Node>, clientWidth: int, scrollWidth: int, scrollLeft: int)
    requires AtMostOneEach(children)
    ensures Inv(Initial(children, clientWidth, scrollWidth, scrollLeft))
  {
    InitialLayout(children, clientWidth);
  }

  /** The layout part of `InitialInv`. */
  lemma InitialLayout(children: seq<Node>, clientWidth: int)
    requires AtMostOneEach(children)
    ensures var c := EnsureSpacers(children, clientWidth);
      LayoutInv(c, Items(c), VideoOwners(Items(c)), |Items(children)|)
  {
    if Items(children) != [] {
      EnsureSpacersFrames(children, clientWidth);
    }
  }

  /** `scrollToIndex` with no slides does nothing.  Otherwise it clamps the
      index, and either the container already sits within 3 pixels of the
      target (no animation starts; only the highlight runs) or it starts a
      smooth scroll to the clamped centring offset, raises the animating flag
      and arms the single settle timeout, leaving the index at the clamped one. */
  lemma ScrollToIndexOutcome(st: State, index: int)
    requires Inv(st)
    ensures |st.slides| == 0 ==> ScrollToIndex(st, index) == st
    ensures |st.slides| > 0 ==>
      var r := ScrollToIndex(st, index);
      var k := ClampIndex(index, |st.slides|);
      var target := TargetOffset(st.slides[k], st.clientWidth, st.scrollWidth);
      && 0 <= target <= MaxScroll(st.clientWidth, st.scrollWidth)
      && (Gap(st.scrollLeft, target) < 3 ==>
            && r.isAnimating == st.isAnimating && r.settlePending == st.settlePending
            && r.scrollRequest == st.scrollRequest
            && r.currentIndex == (if |st.videos| == 0 then k
                                  else NearestSlide(st.slides, VisibleCenter2(st))))
      && (Gap(st.scrollLeft, target) >= 3 ==>
            && r.currentIndex == k && r.isAnimating && r.settlePending
            && r.scrollRequest == Some(target))
  {
  }

  /** When `scrollToIndex` starts a smooth scroll, a highlight that runs
      straight after it, as the start-up callback's does, reads the container
      where it still is: it re-selects the slide nearest the old position
      rather than keeping the clamped index. */
  lemma HighlightAfterScrollReadsOldPosition(st: State, i: int)
    requires Inv(st) && |st.slides| > 0 && |st.videos| > 0
    requires Gap(st.scrollLeft, TargetOffset(st.slides[ClampIndex(i, |st.slides|)], st.clientWidth, st.scrollWidth)) >= 3
    ensures UpdateHighlight(ScrollToIndex(st, i)).currentIndex == NearestSlide(st.slides, VisibleCenter2(st))
  {
    ScrollToIndexOutcome(st, i);
  }

  /** Re-centring is idempotent: once the container has reached the target
      of a `scrollToIndex` and any animation it started has settled, asking
      for the same index again takes the short-circuit: it only selects the
      slide and runs the highlight, so the animating flag never goes up
      again, no settle timeout is armed and no new scroll is requested. */
  lemma ScrollToIndexIdempotent(st: State, index: int)
    requires Inv(st) && |st.slides| > 0
    ensures var k := ClampIndex(index, |st.slides|);
      var target := TargetOffset(st.slides[k], st.clientWidth, st.scrollWidth);
      var arrived := Scrolled(ScrollToIndex(st, index), target);
      var settled := if arrived.settlePending then SettleFires(arrived) else arrived;
      var again := ScrollToIndex(settled, index);
      && !settled.isAnimating
      && again == UpdateHighlight(settled.(currentIndex := k))
      && !again.isAnimating && !again.settlePending
      && again.scrollRequest == settled.scrollRequest
  {
    ScrollToIndexInv(st, index);
    var s1 := ScrollToIndex(st, index);
    assert s1.slides == st.slides && s1.clientWidth == st.clientWidth && s1.scrollWidth == st.scrollWidth;
  }

  /** On every page with at least one video, the highlight selects the
      slide nearest the visible centre, ties going to the lowest index. */
  lemma HighlightSelectsNearest(st: State)
    requires Inv(st) && |st.videos| > 0
    ensures IsFirstNearest(st.slides, VisibleCenter2(st), UpdateHighlight(st).currentIndex)
  {
    NearestIsFirstNearest(st.slides, VisibleCenter2(st));
  }

  /** `updateHighlight` does nothing without videos.  When every slide holds
      a video, it moves the index to the nearest slide (ties to the lowest
      index) and leaves exactly that slide's video active and every other
      video inactive. */
  lemma HighlightExclusive(st: State)
    requires Inv(st)
    ensures |st.videos| == 0 ==> UpdateHighlight(st) == st
    ensures AllHaveVideos(st.slides) && |st.slides| > 0 ==>
      var r := UpdateHighlight(st);
      && IsFirstNearest(st.slides, VisibleCenter2(st), r.currentIndex)
      && forall p :: 0 <= p < |st.slides| ==> r.marks[p] == if p == r.currentIndex then Active else Inactive
  {
    if AllHaveVideos(st.slides) && |st.slides| > 0 {
      VideoOwnersAll(st.slides);
      VideoOwnersExact(st.slides);
      var r := UpdateHighlight(st);
      NearestIsFirstNearest(st.slides, VisibleCenter2(st));
      HighlightMarksAt(st.marks, st.videos, r.currentIndex, |st.videos|);
      forall p | 0 <= p < |st.slides|
        ensures r.marks[p] == if p == r.currentIndex then Active else Inactive
      {
        assert st.videos[p] == p;
      }
    }
  }

  /** The highlight compares a video's position among the videos with the
      slide index, so it only lines up when every slide has a video: with a
      video in the second slide alone, centring that slide marks its video
      inactive and leaves no video active. */
  lemma HighlightMisalignedWithoutAllVideos()
    ensures var slides := [Slide(0, 100, false), Slide(100, 100, true)];
      var st := State([Item(slides[0]), Item(slides[1])], slides, [1], [Unmarked, Unmarked], 0, false,
                      100, 200, 100, None, false, false, 0, false);
      var r := UpdateHighlight(st);
      && Inv(st)
      && r.currentIndex == 1
      && r.marks == [Unmarked, Inactive]
  {
    var slides := [Slide(0, 100, false), Slide(100, 100, true)];
    var children := [Item(slides[0]), Item(slides[1])];
    var st := State(children, slides, [1], [Unmarked, Unmarked], 0, false,
                    100, 200, 100, None, false, false, 0, false);
    // the layout part: two slides, no spacer, one video in slide 1
    assert children[1..] == [Item(slides[1])] && children[1..][1..] == [];
    assert Items(children[1..]) == [slides[1]];
    assert Items(children) == slides;
    assert LeftCount(children[1..][1..]) == 0 && RightCount(children[1..][1..]) == 0;
    assert LeftCount(children[1..]) == 0 && RightCount(children[1..]) == 0;
    assert slides[..1] == [slides[0]];
    assert VideoOwners(slides[..1]) == [];
    assert VideoOwners(slides) == [1];
    assert Inv(st);
    // the highlight: slide 1 is centred, and video number 0 is not slide 1
    assert VisibleCenter2(st) == 300;
    assert NearestSlide(slides, 300) == 1;
    assert HighlightMarks(st.marks, st.videos, 1, 1) == [Unmarked, Inactive];
  }

  /** `goNext` and `goPrev` do nothing while a programmatic scroll is in
      flight or when there are no slides; otherwise they ask for the next or
      previous index, and at the last (first) slide they ask for the current
      one again instead of wrapping. */
  lemma NavigationRequests(st: State)
    requires Inv(st)
    ensures st.isAnimating || |st.slides| == 0 ==> GoNext(st) == st && GoPrev(st) == st
    ensures !st.isAnimating && |st.slides| > 0 ==>
      && GoNext(st) == ScrollToIndex(st, if st.currentIndex == |st.slides| - 1 then st.currentIndex else st.currentIndex + 1)
      && GoPrev(st) == ScrollToIndex(st, if st.currentIndex == 0 then 0 else st.currentIndex - 1)
  {
    if !st.isAnimating && |st.slides| > 0 {
      NextIndexSteps(st.currentIndex, |st.slides|);
      PrevIndexSteps(st.currentIndex, |st.slides|);
    }
  }

  /** The debounced scroll handler: while a programmatic scroll is in flight
      it only disarms itself; otherwise it snaps to the first slide when the
      container is within 12 pixels of the left edge (checked first), to the
      last slide within 12 pixels of the right edge, and to the nearest slide
      otherwise. */
  lemma DebounceSnaps(st: State)
    requires Inv(st) && st.debouncePending
    ensures var st0 := st.(debouncePending := false);
      && (st.isAnimating ==> DebounceFires(st) == st0)
      && (!st.isAnimating && st.scrollLeft <= 12 ==> DebounceFires(st) == ScrollToIndex(st0, 0))
      && (!st.isAnimating && st.scrollLeft > 12
            && Gap(st.scrollLeft, MaxScroll(st.clientWidth, st.scrollWidth)) <= 12 ==>
            DebounceFires(st) == ScrollToIndex(st0, |st.slides| - 1))
      && (!st.isAnimating && st.scrollLeft > 12
            && Gap(st.scrollLeft, MaxScroll(st.clientWidth, st.scrollWidth)) > 12 && |st.slides| > 0 ==>
            exists k :: IsFirstNearest(st.slides, VisibleCenter2(st), k) && DebounceFires(st) == ScrollToIndex(st0, k))
    ensures !DebounceFires(st).debouncePending
  {
    var k := SnapIndex(st.slides, st.scrollLeft, st.clientWidth, st.scrollWidth);
    if |st.slides| > 0 {
      NearestIsFirstNearest(st.slides, VisibleCenter2(st));
    }
    assert (!st.isAnimating && st.scrollLeft > 12
            && Gap(st.scrollLeft, MaxScroll(st.clientWidth, st.scrollWidth)) > 12 && |st.slides| > 0)
      ==> IsFirstNearest(st.slides, VisibleCenter2(st), k);
  }

  /** Laying out again with unchanged geometry changes nothing more: same
      children, slides, videos, index and marks. */
  lemma ComputeLayoutIdempotent(st: State)
    requires Inv(st)
    ensures ComputeLayout(ComputeLayout(st)) == ComputeLayout(st)
    ensures var r := ComputeLayout(st);
      r.slides == st.slides && r.videos == st.videos && r.currentIndex == st.currentIndex && r.marks == st.marks
  {
    EnsureSpacersIdempotent(st.children, st.clientWidth);
    ComputeLayoutInv(st);
  }

  /** A resize keeps the logical slide: the layout pass leaves the index
      alone, and the delayed callback re-centres slide `currentIndex` under
      whatever geometry holds when it fires. */
  lemma ResizeKeepsSlide(st: State)
    requires Inv(st)
    ensures ResizeHandler(st).currentIndex == st.currentIndex
    ensures ResizeHandler(st).resizeTimers == st.resizeTimers + 1
    ensures st.resizeTimers > 0 && |st.slides| > 0 ==>
      var r := ResizeTimerFires(st);
      var k := st.currentIndex;
      var target := TargetOffset(st.slides[k], st.clientWidth, st.scrollWidth);
      Gap(st.scrollLeft, target) >= 3 ==> r.currentIndex == k && r.scrollRequest == Some(target)
  {
    ComputeLayoutInv(st);
  }
}
