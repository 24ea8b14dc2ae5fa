/** The phone mock-up of the product showcase: its screen strip holds three
    panels and slides to the next one on a timer, wrapping after the third. */
module ProductShowcase {

  /** The number of panels on the screen strip. */
  const Panels: int := 3

  /** `slide = (slide + 1) % 3`. */
  function NextPanel(slide: int): (r: int)
    requires 0 <= slide
    ensures 0 <= r < Panels
    ensures slide < Panels - 1 ==> r == slide + 1
    ensures slide == Panels - 1 ==> r == 0
  {
    (slide + 1) % Panels
  }

  /** The panel shown after `n` moves from panel `slide`. */
  function Moves(slide: int, n: nat): (r: int)
    requires 0 <= slide
    ensures 0 <= r
    decreases n
  {
    if n == 0 then slide else NextPanel(Moves(slide, n - 1))
  }

  /** From the first panel, the strip shows panel `n mod 3` after `n` moves:
      it cycles through the three panels in order and never skips one. */
  lemma {:induction false} MovesCycle(n: nat)
    ensures Moves(0, n) == n % Panels
    decreases n
  {
    if n > 0 {
      MovesCycle(n - 1);
    }
  }

  class Showcase {
    var running: bool            // `window.productCarouselInterval` is set
    var slide: int               // the closure's `slide`
    var firstMovePending: bool   // the one-off early move is still to run
    const hasScreen: bool        // the `screen-content` element exists

    ghost predicate Valid()
      reads this
    {
      0 <= slide < Panels
    }

    constructor (hasScreen: bool)
      ensures this.hasScreen == hasScreen
      ensures !running && slide == 0 && !firstMovePending
      ensures Valid()
    {
      this.hasScreen := hasScreen;
      running := false;
      slide := 0;
      firstMovePending := false;
    }

    /** `triggerProductAnimation`: start the strip unless it already runs. */
    method Trigger()
      requires Valid()
      modifies this
      ensures old(running) || !hasScreen ==> unchanged(this)
      ensures !old(running) && hasScreen ==> running && slide == 0 && firstMovePending
      ensures Valid()
    {
      if !running {
        StartCarousel();
      }
    }

    /** `startProductCarousel`: a fresh cycle from the first panel, moved on
        by the interval and once early by a one-off timer; nothing happens
        without the screen element. */
    method StartCarousel()
      requires Valid()
      modifies this
      ensures !hasScreen ==> unchanged(this)
      ensures hasScreen ==> running && slide == 0 && firstMovePending
      ensures Valid()
    {
      if !hasScreen {
        return;
      }
      slide := 0;
      running := true;
      firstMovePending := true;
    }

    /** `move`, run by the interval or by the one-off timer. */
    method Move()
      requires Valid()
      modifies this
      ensures slide == NextPanel(old(slide))
      ensures running == old(running) && firstMovePending == old(firstMovePending)
      ensures Valid()
    {
      slide := (slide + 1) % Panels;
    }

    /** The interval fires. */
    method IntervalFires()
      requires Valid() && running
      modifies this
      ensures slide == NextPanel(old(slide)) && running && firstMovePending == old(firstMovePending)
      ensures Valid()
    {
      Move();
    }

    /** The one-off early move fires. */
    method FirstMoveFires()
      requires Valid() && firstMovePending
      modifies this
      ensures slide == NextPanel(old(slide)) && !firstMovePending && running == old(running)
      ensures Valid()
    {
      firstMovePending := false;
      Move();
    }
  }
}
