# Portfolio page interactivity, modelled in Dafny

This project models the state logic of the portfolio site's `script.js`. It
has six parts:

- **Visual-strategy carousel.** This is the largest part. It is a horizontal
  scroll track whose slides are centred one at a time. Two edge spacers are
  rebuilt on every layout, sized so that the first and last slide can reach
  the centre.
  - Arrow buttons and arrow keys step the index. They clamp at the ends and
    never wrap.
  - A debounced scroll handler snaps free scrolling to the first slide, the
    last slide or the nearest slide.
  - A highlight pass moves the index to the nearest slide and marks video
    number `currentIndex` `active` and every other video `inactive`. That is
    the centred slide's video when every slide holds one.
  - A resize re-lays the track and re-centres the current slide later.
- **Image lightbox.** It shows one image of the poster or product grid, steps
  through that grid with wrap-around, and answers the keyboard only while it
  is displayed.
- **Theme switch.** It sets the `dark` class, the stored `theme` entry and
  the toggle icon.
- **Headline letter reveal.** Each character becomes a `span` whose
  animation delay runs on from line to line.
- **Product showcase.** A phone screen cycles through three panels.
- **Owl.** It follows the mouse until the page scrolls past a threshold,
  then shrinks.

How the browser is represented:

- The browser's measurements are inputs to the model. These are
  `offsetLeft`, `offsetWidth`, `clientWidth`, `scrollWidth`, `scrollLeft`
  and `scrollY`.
- Every timer callback is an event that the model can fire while the timer
  is armed.
- A smooth `scrollTo` is recorded as the offset it requests.
- Local storage and the colour-scheme media query are parameters.

The model is built in layers:

- Pixel arithmetic keeps every half-pixel quantity doubled, so that
  `Math.round(x / 2)` stays exact on integers (`Geometry`).
- The carousel's handlers are functions on a `State` value, with the
  invariant and the promised behaviour proved as lemmas (`CarouselSpec`,
  together with `Spacers` and `Nearest`).
- A `Carousel` class has one field per closure variable (`CarouselImpl`).
  Each handler and timer callback is proved to move the fields exactly as
  the matching `CarouselSpec` function says, and to keep the invariant. The
  helper methods they call are proved against their own functions:
  - `EnsureSpacers` against `Spacers.EnsureSpacers`;
  - `TargetScrollLeft` and `SnapTarget` against the values they compute.
- The lightbox and the product showcase are classes over their mutable
  state. The theme switch and the owl are functions on small state records.
  The letter reveal is a method with the source's two nested loops.

Files:

| file | module |
|---|---|
| options.dfy | `Options`: the optional-value type the other modules share |
| geometry.dfy | `Geometry`: offsets, spacer widths, clamping, `Math.round` |
| nearest.dfy | `Nearest`: the nearest-centre scan |
| spacers.dfy | `Spacers`: the container's children and `ensureSpacers` |
| keyboard.dfy | `Keyboard`: the keys the handlers tell apart |
| carousel_spec.dfy | `CarouselSpec`: carousel state machine and its properties |
| carousel.dfy | `CarouselImpl`: the carousel as a class |
| lightbox.dfy | `Lightbox`: the image modal |
| theme.dfy | `Theme`: the dark/light switch |
| text_reveal.dfy | `TextReveal`: the letter-reveal delay schedule |
| product.dfy | `ProductShowcase`: the three-panel phone screen |
| owl.dfy | `Owl`: the owl's scroll state and parallax gate |

Four behaviours of the carousel code are easy to misread:

- **Video exclusivity.** One might expect the centred slide's video, and
  only it, to be active after a highlight.
  - The code builds `videos` with `.filter(Boolean)` but compares each
    video's rank with the slide index. On every page it leaves at most one
    video active: the video of rank `currentIndex`, if there is one
    (`CarouselSpec.HighlightActiveVideo`, kept by every event as part of
    the invariant).
  - That video is guaranteed to be the centred slide's video when every
    slide holds a video (`CarouselSpec.HighlightExclusive`).
  - `CarouselSpec.HighlightMisalignedWithoutAllVideos` exhibits a two-slide
    page with one video where no video ends up active.
- **Re-centring.** One might expect that re-centring on the current index
  twice starts no second animation. The code re-issues the smooth scroll if
  the container has not yet arrived. `CarouselSpec.ScrollToIndexIdempotent`
  proves the case where the container has arrived at the first target and
  any animation has settled. The second request then takes the within-3-pixel
  short-circuit: it only selects the slide and runs the highlight. The
  animating flag stays down, no settle timeout is armed and no new scroll is
  requested.
- **Highlight right after a scroll request.** One might expect
  `scrollToIndex(i)` followed at once by `updateHighlight()`, as the start-up
  callback does, to leave the index at the clamped `i`. When a smooth scroll
  is requested, the highlight reads the container where it still is and
  re-selects the slide nearest the old position
  (`CarouselSpec.HighlightAfterScrollReadsOldPosition`).
- **Resize callbacks.** The resize handler does not clear its earlier
  timeout, so every resize event leaves its own re-centring callback. The
  model counts them (`resizeTimers`).

## Model

| member | source | states |
|---|---|---|
| Geometry.RoundHalf | script.js:544-545 | the rounded half of `h` lies within half a unit of `h / 2`, and is the upper integer on a tie |
| Geometry.RoundHalfIsJsRound | script.js:605 | the integer rounding of a doubled quantity equals `Math.round` (floor of `x + 0.5`) of the halved real value |
| Geometry.MaxScroll | script.js:608 | the largest scroll offset is non-negative, at least `scrollWidth - clientWidth`, and is one of those two values |
| Geometry.SpacerWidth | script.js:544-545 | a spacer width is never negative; it is positive exactly when the container is wider than the edge slide; twice the width is the free space beside the centred edge slide, up to one pixel |
| Geometry.CenteringOffset | script.js:605 | scrolled to this offset, the container's centre lies on the slide's centre or half a pixel to its right |
| Geometry.ClampOffset | script.js:609-610 | the clamped offset lies in `[0, max]`, equals the input when the input is in range, and no offset in range is nearer to the input |
| Geometry.TargetOffset | script.js:605-610 | the target lies in `[0, maxScroll]`, equals the centring offset when that is reachable, and is otherwise the nearest reachable offset |
| Geometry.ClampIndex | script.js:595 | the index is clamped into `[0, n - 1]`: unchanged in range, 0 below, `n - 1` above, never wrapped |
| Geometry.NextIndexSteps | script.js:665 | from an index in range, "next" stays in range, advances by one, and stays put at the last slide |
| Geometry.PrevIndexSteps | script.js:671 | from an index in range, "previous" stays in range, goes back by one, and stays put at the first slide |
| Geometry.FirstSlideCentersAtStart | script.js:544 | right after the left spacer, the first slide's centring offset is 0 or 1 pixel, so it can be centred at the start of the track |
| Geometry.LastSlideCentersAtEnd | script.js:545 | when the track ends with the last slide and the right spacer, the last slide's target offset is exactly the largest scroll offset |
| Nearest.NearestSlide | script.js:636-648 | the scan result is 0 for no slides and a valid slide index otherwise |
| Nearest.NearestIsFirstNearest | script.js:636-648 | the scan result is at minimal centre distance, and every earlier slide is strictly farther: ties go to the lowest index |
| Nearest.FindNearest | script.js:636-648 | the `forEach` loop with `best` / `bestDist` returns the scan result: 0 on no slides, a valid index otherwise |
| Spacers.RemoveFirstLeft | script.js:548-550 | removing the first left spacer keeps the slides and the right spacers, and lowers the left-spacer count by one if there was one |
| Spacers.RemoveFirstRight | script.js:549-551 | removing the first right spacer keeps the slides and the left spacers, and lowers the right-spacer count by one if there was one |
| Spacers.EnsureSpacers | script.js:531-571 | the slides are kept; with no slide nothing changes; otherwise a left spacer sized for the first slide comes first, a right spacer sized for the last slide comes last, and one old spacer of each kind is removed and one new one is added at each end |
| Spacers.EnsureSpacersFrames | script.js:531-571 | from at most one spacer of each kind, the result has exactly one of each, at the two ends, with only the slides between them |
| Spacers.EnsureSpacersIdempotent | script.js:531-571 | rebuilding the spacers a second time with the same container width changes nothing |
| CarouselSpec.VideoOwners | script.js:583 | there are no more videos than slides, each naming a slide |
| CarouselSpec.VideoOwnersExact | script.js:583 | exactly the slides holding a video are listed, each once, in slide order |
| CarouselSpec.VideoOwnersAll | script.js:583 | when every slide holds a video, video number `i` sits in slide `i` |
| CarouselSpec.VideoOwnersSameFlags | script.js:583 | the video list depends only on which slides hold a video |
| CarouselSpec.HighlightMarksAt | script.js:652-660 | after the marking loop, the video of rank `i` is `active` exactly when `i` is the current index, and slides without a listed video keep their classes |
| CarouselSpec.UpdateHighlight | script.js:630-661 | the highlight changes only the current index and the video classes |
| CarouselSpec.SnapIndex | script.js:686-706 | the snap index is a valid slide; it is 0 within 12 pixels of the left edge (checked first), and the last slide within 12 pixels of the largest offset |
| CarouselSpec.UpdateHighlightInv | script.js:630-661 | `updateHighlight` keeps the carousel invariant |
| CarouselSpec.ScrollToIndexInv | script.js:593-628 | `scrollToIndex` keeps the invariant, and so does setting the clamped index alone |
| CarouselSpec.ComputeLayoutInv | script.js:573-590 | `computeLayout` keeps the invariant and leaves the slide and video lists as they were |
| CarouselSpec.ResizeHandlerInv | script.js:714-718 | `resizeHandler` keeps the invariant |
| CarouselSpec.GoNextInv | script.js:663-667 | `goNext` keeps the invariant |
| CarouselSpec.GoPrevInv | script.js:669-673 | `goPrev` keeps the invariant |
| CarouselSpec.ReflowInv | script.js:600-602 | new browser measurements of the same slides keep the invariant |
| CarouselSpec.DebounceFiresInv | script.js:681-710 | the debounced scroll callback keeps the invariant |
| CarouselSpec.SettleFiresInv | script.js:624-627 | the settle timeout keeps the invariant |
| CarouselSpec.ResizeTimerFiresInv | script.js:717 | the re-centring callback of a resize keeps the invariant |
| CarouselSpec.InitFiresInv | script.js:731-734 | the start-up callback keeps the invariant |
| CarouselSpec.StepPreservesInv | script.js:512-735 | every event keeps the invariant: index in range (0 without slides), at most one spacer of each kind, slides and videos as collected from the children, the animating flag up exactly while the settle timeout is armed, slides without a video unmarked, and at most one video `active` |
| CarouselSpec.HighlightActiveVideo | script.js:630-660 | on any page, after the highlight a video is `active` exactly when it is the video of rank `currentIndex`, so at most one is; slides without a video stay unmarked |
| CarouselSpec.AnimatingClearedOnlyBySettle | script.js:619-627 | while the animating flag is up, every event other than the settle timeout leaves it up |
| CarouselSpec.InitialInv | script.js:728-734 | the first layout establishes the invariant, given at most one spacer of each kind in the page |
| CarouselSpec.ScrollToIndexOutcome | script.js:593-628 | with no slides nothing happens; otherwise the index is clamped, and either the container is within 3 pixels of the in-range target (no animation, only the highlight), or a smooth scroll to the target starts with the animating flag and the settle timeout set |
| CarouselSpec.HighlightAfterScrollReadsOldPosition | script.js:619-648 | when a smooth scroll is requested, a highlight run straight after `scrollToIndex` selects the slide nearest the old container position, not the clamped index |
| CarouselSpec.ScrollToIndexIdempotent | script.js:593-627 | once the container has reached the target and the animation has settled, asking for the same index again is exactly "select the clamped slide, then highlight": the animating flag stays down, no settle timeout is armed and the scroll request is unchanged |
| CarouselSpec.HighlightSelectsNearest | script.js:630-648 | on every page with at least one video, the highlight selects the slide nearest the visible centre, ties going to the lowest index |
| CarouselSpec.HighlightExclusive | script.js:630-660 | with no videos the highlight changes nothing; when every slide holds a video it selects the first nearest slide and leaves exactly that slide's video active and all others inactive |
| CarouselSpec.HighlightMisalignedWithoutAllVideos | script.js:652-653 | with a video in the second of two slides only, centring the second slide leaves its video inactive and no video active |
| CarouselSpec.NavigationRequests | script.js:663-673 | `goNext` / `goPrev` do nothing while animating or without slides; otherwise they scroll to the next / previous index, and to the same index at the last / first slide |
| CarouselSpec.DebounceSnaps | script.js:679-711 | the debounced callback only disarms itself while animating; otherwise it snaps to 0 near the left edge, to the last slide near the right edge, and to the first nearest slide elsewhere; it is never left pending |
| CarouselSpec.ComputeLayoutIdempotent | script.js:573-590 | laying out twice gives the same state as laying out once, with the same slides, videos, index and classes |
| CarouselSpec.ResizeKeepsSlide | script.js:714-718 | a resize keeps the current index and arms one more callback, which re-centres that same slide under the current geometry |
| CarouselImpl.Carousel.constructor | script.js:728-734 | the start-up state is the first layout with the start-up timer armed, and it satisfies the invariant |
| CarouselImpl.Carousel.EnsureSpacers | script.js:531-571 | the children become `Spacers.EnsureSpacers` of the old children, and `slides` the slides among the old children |
| CarouselImpl.Carousel.ComputeLayout | script.js:573-590 | the object moves to `CarouselSpec.ComputeLayout` of its old state |
| CarouselImpl.Carousel.UpdateHighlight | script.js:630-661 | the object moves to `CarouselSpec.UpdateHighlight` of its old state and keeps the invariant |
| CarouselImpl.Carousel.MarkVideos | script.js:652-660 | the marking loop leaves the classes that `HighlightMarks` describes |
| CarouselImpl.Carousel.ScrollToIndex | script.js:593-628 | the object moves to `CarouselSpec.ScrollToIndex` of its old state and keeps the invariant |
| CarouselImpl.Carousel.SelectSlide | script.js:596 | only the current index is set |
| CarouselImpl.Carousel.TargetScrollLeft | script.js:600-610 | the computed target is the spec's `TargetOffset` and lies in `[0, maxScroll]` |
| CarouselImpl.Carousel.RequestScroll | script.js:619-627 | the animating flag, the scroll request and the settle timeout are set, and nothing else changes |
| CarouselImpl.Carousel.SettleFires | script.js:624-627 | the object moves to `CarouselSpec.SettleFires` of its old state and keeps the invariant |
| CarouselImpl.Carousel.GoNext | script.js:663-667 | the object moves to `CarouselSpec.GoNext` of its old state and keeps the invariant |
| CarouselImpl.Carousel.GoPrev | script.js:669-673 | the object moves to `CarouselSpec.GoPrev` of its old state and keeps the invariant |
| CarouselImpl.Carousel.Scrolled | script.js:679-681 | a scroll event records the position and (re)arms the single debounce timer |
| CarouselImpl.Carousel.DebounceFires | script.js:681-710 | the object moves to `CarouselSpec.DebounceFires` of its old state and keeps the invariant |
| CarouselImpl.Carousel.SnapTarget | script.js:683-706 | the computed index is `CarouselSpec.SnapIndex` of the current geometry |
| CarouselImpl.Carousel.ResizeHandler | script.js:714-718 | the object moves to `CarouselSpec.ResizeHandler` of its old state and keeps the invariant |
| CarouselImpl.Carousel.ArmResizeTimer | script.js:717 | one more resize callback is pending, and nothing else changes |
| CarouselImpl.Carousel.ResizeTimerFires | script.js:717 | the object moves to `CarouselSpec.ResizeTimerFires` of its old state and keeps the invariant |
| CarouselImpl.Carousel.InitFires | script.js:731-734 | the object moves to `CarouselSpec.InitFires` of its old state and keeps the invariant |
| CarouselImpl.Carousel.KeyDown | script.js:723-726 | the arrow keys run `goNext` / `goPrev` with the default prevented, and other keys change nothing, as `CarouselSpec.KeyDown` says; the invariant is kept |
| CarouselImpl.Carousel.Reflow | script.js:600-602 | new measurements replace the slides' geometry and the container's widths as `CarouselSpec.Reflow` says; the invariant is kept |
| Lightbox.JsRem | script.js:467 | JavaScript's `%` takes the sign of the dividend, with magnitude below the divisor's |
| Lightbox.JsRemNonNegative | script.js:467 | on a non-negative dividend, JavaScript's `%` agrees with the Euclidean remainder |
| Lightbox.JsRemOfNegative | script.js:472 | on a negative dividend they differ (`-1 % 3` is `-1`), which is why `showPrev` adds the length first |
| Lightbox.NextImageWraps | script.js:467 | from an index in range, "next" stays in range, advances by one, and wraps from the last image to the first |
| Lightbox.PrevImageWraps | script.js:472 | from an index in range, "previous" stays in range, goes back by one, and wraps from the first image to the last |
| Lightbox.PrevUndoesNext | script.js:466-474 | `showPrev` after `showNext` restores the index, and so does `showNext` after `showPrev` |
| Lightbox.SrcAt | script.js:443 | `modalImages[i]` is a URL exactly when `i` is in range, and `undefined` otherwise |
| Lightbox.IndexOf | script.js:479 | `indexOf` returns -1 exactly when the source is absent; otherwise it returns the first position holding it |
| Lightbox.Modal.constructor | script.js:437-438 | the page starts with no images collected and the index at 0; the hidden, faded modal with an empty source is the page's markup |
| Lightbox.Modal.OpenModalAt | script.js:440-453 | the index and the image source are set, the modal is displayed, and the fade-in is armed |
| Lightbox.Modal.RevealFires | script.js:448-452 | the fade-in removes the fade and adds the zoom |
| Lightbox.Modal.CloseModal | script.js:455-464 | closing fades the modal now and arms the hide callback |
| Lightbox.Modal.CloseFires | script.js:459-463 | the hide callback hides the modal and clears the image source |
| Lightbox.Modal.ShowNext | script.js:466-469 | the index advances with wrap-around, stays in range, and the shown image is the image at it |
| Lightbox.Modal.ShowPrev | script.js:471-474 | the index goes back with wrap-around, stays in range, and the shown image is the image at it |
| Lightbox.Modal.ClickImage | script.js:476-488 | a click collects the grid's sources and opens the first image with the clicked source, at or before the clicked position |
| Lightbox.Modal.ClickModal | script.js:491 | a click closes the modal only when the backdrop itself was clicked |
| Lightbox.Modal.KeyDown | script.js:493-499 | keys do nothing unless the modal is displayed; then Escape fades the modal and arms the hide callback, leaving index, source, zoom and fade-in timers alone; the right and left arrows step with wrap-around, show the image at the new index and arm one more fade-in, leaving fade, zoom and hide timers alone; other keys change nothing |
| Theme.Apply | script.js:14-24 | exactly `"light"` selects the light theme and stores `"light"`; any other string selects dark and stores `"dark"`; the icon follows when present; storage, class and icon agree afterwards |
| Theme.Toggle | script.js:26-29 | toggling flips the theme and leaves storage, class and icon in agreement |
| Theme.Chosen | script.js:34 | a non-empty saved entry wins; a missing or empty one falls back to the browser preference |
| Theme.Load | script.js:31-35 | after loading, storage, class and icon agree |
| Theme.ApplyIdempotent | script.js:14-24 | applying the same theme twice equals applying it once |
| Theme.ToggleTwice | script.js:26-29 | toggling twice restores the theme, and restores a consistent state exactly |
| Theme.LoadOutcome | script.js:31-35 | a saved `"light"` / `"dark"` wins over the preference; an absent or empty entry defers to it; any other saved string gives dark and is overwritten with `"dark"` |
| Theme.LoadPersists | script.js:31-35 | reloading with what was stored reproduces the state, whatever the preference then is |
| TextReveal.LetterHtml | script.js:242 | a space becomes `&nbsp;`, any other character is itself |
| TextReveal.SetupTextAnimation | script.js:220-249 | each line becomes one span per character, and character `i` of line `l` is delayed by 80 ms times (the characters on earlier lines + `i`) |
| TextReveal.FlattenLength | script.js:227-249 | the spans, laid end to end, are as many as the headline's characters |
| TextReveal.DelaysRunOn | script.js:224-248 | across the whole headline, the `k`-th character overall is revealed after `80 * k` ms |
| ProductShowcase.NextPanel | script.js:296 | the next panel is in `[0, 3)`: one step forward, and from the third back to the first |
| ProductShowcase.MovesCycle | script.js:293-296 | from the first panel, after `n` moves the screen shows panel `n mod 3` |
| ProductShowcase.Showcase.constructor | script.js:284-285 | nothing runs before the first trigger |
| ProductShowcase.Showcase.Trigger | script.js:304-307 | the cycle starts from the first panel unless it is already running or the screen element is missing |
| ProductShowcase.Showcase.StartCarousel | script.js:284-302 | with the screen element present, the cycle starts from the first panel with the interval and the early move armed |
| ProductShowcase.Showcase.Move | script.js:295-298 | the panel advances by `NextPanel` and stays in range |
| ProductShowcase.Showcase.IntervalFires | script.js:300 | the interval advances the panel |
| ProductShowcase.Showcase.FirstMoveFires | script.js:301 | the early move advances the panel once |
| Owl.HandleScroll | script.js:192-212 | afterwards the scroll-state class is present exactly when `scrollY` is past the threshold; a call that finds the class already right changes nothing |
| Owl.MouseMove | script.js:170-171 | the owl follows the mouse only while the parallax is active |
| Owl.InitialConsistent | script.js:168 | the page starts with the parallax on, no scroll-state class and the centred transform, so flag and class agree |
| Owl.HandleScrollConsistent | script.js:199-212 | the handler keeps the parallax flag the negation of the class; a crossing down shrinks the owl, and a crossing up restores the centred transform |
| Owl.HandleScrollIdempotent | script.js:199-212 | running the handler twice at one scroll position equals running it once |
| Owl.ShrunkOwlIgnoresMouse | script.js:170-171 | past the threshold, mouse moves leave the owl's transform alone |

## Left out

- Rendering is not modelled: DOM styles, classes not listed above, CSS transitions and the pixel values written into transforms. This covers the owl's parallax `translate3d` offsets and the showcase's `translateX` percentage.
- Timer durations (10, 120, 140, 300, 350, 520, 700 and 3000 ms) are not modelled. Each timer is an event that may fire while it is armed, in any order with the other events.
- The bat canvas animation, the Chart.js pie chart and the tab logic of the phone mock-up are not modelled: they are random floating-point drawing and a third-party library.
- `scrollIntoView`, `scrollWithOffset` and the smooth-scroll links are not modelled: they are browser scrolling. A carousel smooth scroll is recorded only as the offset it requests; the container's later position arrives as a `scroll` event.
- Media `play()` / `pause()` calls and their swallowed errors are not modelled. The `Active` / `Inactive` marks stand for the play and pause requests.
- `localStorage` and `matchMedia` are parameters of `Theme.Load`. The stored entry is part of `ThemeState`.
- The text animation's random CSS custom properties are left out. Characters are Dafny `char`s, whereas `split('')` splits UTF-16 code units.
- script.js:775-778 is not modelled. It reads the carousel's `vsScroll` outside the closure that declares it, so it throws and has no effect.
- The carousel's `if (!vsScroll)` guards, the lightbox's `if (!modal || !modalImage)` guard and the owl's `if (!owlContainer)` guard are not modelled: the model assumes these elements exist.
- The `if (!slideEl) return;` of `scrollToIndex` is not modelled separately: it cannot fire after the index has been clamped into a non-empty list.
- The slide styles that `computeLayout` writes (`flex`, `scrollSnapAlign`) are left out.
- CarouselSpec.ComputeLayout: the spacers are rebuilt with new widths, but the slides' `left` offsets and the container's `scrollWidth` in the state stay as last measured. In the browser they already include the new spacers when `scrollToIndex` reads them. Here the new measurements arrive only with a separate `Layout` event, and the model does not tie that event's geometry to the spacer widths. So the invariant does not relate the spacers to the slide positions. That the spacers let the edge slides reach the centre is proved only by `Geometry.FirstSlideCentersAtStart` and `Geometry.LastSlideCentersAtEnd`, under their own layout assumptions.
- CarouselSpec.Initial: every video starts unmarked. This assumes the page's markup gives no video an `active` or `inactive` class before the first highlight.
- The carousel is assumed to start with at most one spacer of each kind (`CarouselImpl.Carousel.constructor` requires `AtMostOneEach`). The script itself creates no others.
- CarouselImpl.Carousel.Reflow: browser reflow is an environment event. It keeps the number of slides and which of them hold a video; slides being added or removed at run time is not modelled.
- Lightbox.Modal.ShowNext: requires at least one image. With an empty list, the script computes `NaN` and shows `undefined`, which the model does not represent. The same holds for `Lightbox.Modal.ShowPrev`. `Lightbox.Modal.KeyDown` needs neither precondition, because the modal is only displayed after a grid click has collected images.
- Lightbox.Modal.ClickImage: models a click on an `IMG` of a grid. Clicks on anything else in the grid do nothing and are not modelled.
- Owl.ScrollPoint: the threshold is a parameter of `Owl.HandleScroll`. Its computation from the trigger section is given, but nothing is proved about it.
- ProductShowcase.Showcase.StartCarousel: the `clearInterval` branch is not modelled separately, because the only caller starts the cycle only when none is running.
