/** The children of the scroll container and the two edge spacers that
    `ensureSpacers` rebuilds in front of the first slide and after the last. */
module Spacers {
  import opened Geometry

  /** A direct child of the scroll container: one of the two spacer `div`s
      (classes `vs-spacer-left` / `vs-spacer-right`) or a slide. */
  datatype Node = LeftSpacer(width: int) | RightSpacer(width: int) | Item(slide: Slide)

  /** The slides: the children that carry neither spacer class, in order. */
  function Items(children: seq<Node>): (s: seq<Slide>)
    ensures |s| <= |children|
  {
    if children == [] then []
    else (if children[0].Item? then [children[0].slide] else []) + Items(children[1..])
  }

  function LeftCount(children: seq<Node>): nat {
    if children == [] then 0
    else (if children[0].LeftSpacer? then 1 else 0) + LeftCount(children[1..])
  }

  function RightCount(children: seq<Node>): nat {
    if children == [] then 0
    else (if children[0].RightSpacer? then 1 else 0) + RightCount(children[1..])
  }

  /** No spacer among the children. */
  predicate SpacerFree(children: seq<Node>) {
    LeftCount(children) == 0 && RightCount(children) == 0
  }

  /** At most one spacer of each kind: what the container holds whenever the
      carousel is not inside `ensureSpacers`. */
  predicate AtMostOneEach(children: seq<Node>) {
    LeftCount(children) <= 1 && RightCount(children) <= 1
  }

  /** `querySelector(':scope > .vs-spacer-left')?.remove()`: drop the first
      left spacer, if there is one. */
  function RemoveFirstLeft(children: seq<Node>): (r: seq<Node>)
    ensures Items(r) == Items(children)
    ensures LeftCount(r) == if LeftCount(children) == 0 then 0 else LeftCount(children) - 1
    ensures RightCount(r) == RightCount(children)
  {
    if children == [] then []
    else if children[0].LeftSpacer? then children[1..]
    else
      var rest := RemoveFirstLeft(children[1..]);
      assert ([children[0]] + rest)[1..] == rest;
      [children[0]] + rest
  }

  /** The same for the first right spacer. */
  function RemoveFirstRight(children: seq<Node>): (r: seq<Node>)
    ensures Items(r) == Items(children)
    ensures RightCount(r) == if RightCount(children) == 0 then 0 else RightCount(children) - 1
    ensures LeftCount(r) == LeftCount(children)
  {
    if children == [] then []
    else if children[0].RightSpacer? then children[1..]
    else
      var rest := RemoveFirstRight(children[1..]);
      assert ([children[0]] + rest)[1..] == rest;
      [children[0]] + rest
  }

  lemma {:induction false} ItemsAppend(a: seq<Node>, b: seq<Node>)
    ensures Items(a + b) == Items(a) + Items(b)
  {
    if a == [] {
      assert a + b == b;
    } else {
      var head := if a[0].Item? then [a[0].slide] else [];
      assert (a + b)[0] == a[0] && (a + b)[1..] == a[1..] + b;
      assert Items(a + b) == head + Items(a[1..] + b);
      ItemsAppend(a[1..], b);
      assert Items(a) == head + Items(a[1..]);
      assert head + (Items(a[1..]) + Items(b)) == (head + Items(a[1..])) + Items(b);
    }
  }

  lemma {:induction false} LeftCountAppend(a: seq<Node>, b: seq<Node>)
    ensures LeftCount(a + b) == LeftCount(a) + LeftCount(b)
  {
    if a == [] {
      assert a + b == b;
    } else {
      assert (a + b)[1..] == a[1..] + b;
      LeftCountAppend(a[1..], b);
    }
  }

  lemma {:induction false} RightCountAppend(a: seq<Node>, b: seq<Node>)
    ensures RightCount(a + b) == RightCount(a) + RightCount(b)
  {
    if a == [] {
      assert a + b == b;
    } else {
      assert (a + b)[1..] == a[1..] + b;
      RightCountAppend(a[1..], b);
    }
  }

  /** The slides and the spacer counts of a concatenation. */
  lemma CountsAppend(a: seq<Node>, b: seq<Node>)
    ensures Items(a + b) == Items(a) + Items(b)
    ensures LeftCount(a + b) == LeftCount(a) + LeftCount(b)
    ensures RightCount(a + b) == RightCount(a) + RightCount(b)
  {
    ItemsAppend(a, b);
    LeftCountAppend(a, b);
    RightCountAppend(a, b);
  }

  /** Without spacers, the children are determined by the slides they hold. */
  lemma {:induction false} SpacerFreeDeterminedByItems(a: seq<Node>, b: seq<Node>)
    requires SpacerFree(a) && SpacerFree(b) && Items(a) == Items(b)
    ensures a == b
  {
    if a != [] && b != [] {
      assert a[0].Item? && b[0].Item?;
      assert Items(a)[0] == a[0].slide && Items(b)[0] == b[0].slide;
      assert Items(a[1..]) == Items(a)[1..];
      assert Items(b[1..]) == Items(b)[1..];
      SpacerFreeDeterminedByItems(a[1..], b[1..]);
      assert a == [a[0]] + a[1..];
      assert b == [b[0]] + b[1..];
    }
  }

  /** `ensureSpacers`: when there is at least one slide, remove the old spacers
      and put a fresh left spacer first and a fresh right spacer last, each
      as wide as centring the neighbouring edge slide needs; with no slide,
      leave the container as it is. */
  function EnsureSpacers(children: seq<Node>, containerW: int): (r: seq<Node>)
    ensures Items(r) == Items(children)
    ensures Items(children) == [] ==> r == children
    ensures Items(children) != [] ==>
      var slides := Items(children);
      && |r| >= 2
      && r[0] == LeftSpacer(SpacerWidth(containerW, slides[0].width))
      && r[|r| - 1] == RightSpacer(SpacerWidth(containerW, slides[|slides| - 1].width))
      && LeftCount(r) == LeftCount(children) - (if LeftCount(children) == 0 then 0 else 1) + 1
      && RightCount(r) == RightCount(children) - (if RightCount(children) == 0 then 0 else 1) + 1
  {
    var slides := Items(children);
    if |slides| == 0 then children
    else
      var leftWidth := SpacerWidth(containerW, slides[0].width);
      var rightWidth := SpacerWidth(containerW, slides[|slides| - 1].width);
      var middle := RemoveFirstRight(RemoveFirstLeft(children));
      var left, right := [LeftSpacer(leftWidth)], [RightSpacer(rightWidth)];
      assert Items(left) == [] && LeftCount(left) == 1 && RightCount(left) == 0;
      assert Items(right) == [] && LeftCount(right) == 0 && RightCount(right) == 1;
      CountsAppend(left, middle);
      CountsAppend(left + middle, right);
      left + middle + right
  }

  /** With slides present, `ensureSpacers` is the three steps the script
      takes: drop the old spacers, prepend the left one, append the right one. */
  lemma EnsureSpacersSteps(children: seq<Node>, containerW: int, firstW: int, lastW: int)
    requires Items(children) != []
    requires firstW == Items(children)[0].width && lastW == Items(children)[|Items(children)| - 1].width
    ensures EnsureSpacers(children, containerW)
      == [LeftSpacer(SpacerWidth(containerW, firstW))] + RemoveFirstRight(RemoveFirstLeft(children))
         + [RightSpacer(SpacerWidth(containerW, lastW))]
  {
  }

  /** After `ensureSpacers` on a container with slides and at most one spacer
      of each kind, there is exactly one left spacer, at the front, exactly one
      right spacer, at the back, and only slides between them. */
  lemma {:induction false} EnsureSpacersFrames(children: seq<Node>, containerW: int)
    requires AtMostOneEach(children) && Items(children) != []
    ensures var r := EnsureSpacers(children, containerW);
      && LeftCount(r) == 1 && RightCount(r) == 1
      && r[0].LeftSpacer? && r[|r| - 1].RightSpacer?
      && SpacerFree(r[1..|r| - 1])
      && Items(r[1..|r| - 1]) == Items(children)
  {
    var r := EnsureSpacers(children, containerW);
    var middle := RemoveFirstRight(RemoveFirstLeft(children));
    assert r[1..|r| - 1] == middle;
  }

  /** Rebuilding the spacers twice with the same container width gives the
      same children as rebuilding them once. */
  lemma {:induction false} EnsureSpacersIdempotent(children: seq<Node>, containerW: int)
    requires AtMostOneEach(children)
    ensures EnsureSpacers(EnsureSpacers(children, containerW), containerW) == EnsureSpacers(children, containerW)
  {
    var r := EnsureSpacers(children, containerW);
    if Items(children) != [] {
      EnsureSpacersFrames(children, containerW);
      var mid := r[1..|r| - 1];
      assert r == [r[0]] + mid + [r[|r| - 1]];
      var again := RemoveFirstRight(RemoveFirstLeft(r));
      CountsAppend([r[0]] + mid, [r[|r| - 1]]);
      CountsAppend([r[0]], mid);
      assert SpacerFree(again);
      SpacerFreeDeterminedByItems(again, mid);
      assert EnsureSpacers(r, containerW) == [r[0]] + again + [r[|r| - 1]];
    }
  }
}
