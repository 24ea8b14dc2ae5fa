/** The letter-by-letter reveal of the hero headline: every line of the
    headline is split into one `span` per character, and the spans are
    given animation delays that run on from one line to the next. */
module TextReveal {

  /** One generated `span`: its inner HTML and its `animationDelay` in
      milliseconds.  Its random CSS properties are not part of this model. */
  datatype Span = Span(html: string, delayMs: int)

  /** The delay between two consecutive letters, in milliseconds. */
  const LetterDelay: int := 80

  /** A space becomes `&nbsp;` so that it keeps its width; any other
      character is its own HTML. */
  function LetterHtml(c: char): (h: string)
    ensures c == ' ' ==> h == "&nbsp;"
    ensures c != ' ' ==> h == [c]
  {
    if c == ' ' then "&nbsp;" else [c]
  }

  /** The lines one after the other. */
  function Flatten<T>(xs: seq<seq<T>>): (r: seq<T>)
    decreases |xs|
  {
    if |xs| == 0 then [] else Flatten(xs[..|xs| - 1]) + xs[|xs| - 1]
  }

  /** `rendered` holds, for each line, one span per character, and the span
      of character `i` of line `l` is delayed by `totalDelay + i * 80`, where
      `totalDelay` is 80 times the number of characters on the lines before. */
  ghost predicate Scheduled(lines: seq<string>, rendered: seq<seq<Span>>) {
    && |rendered| == |lines|
    && (forall l :: 0 <= l < |lines| ==> |rendered[l]| == |lines[l]|)
    && (forall l, i :: 0 <= l < |lines| && 0 <= i < |lines[l]| ==>
          rendered[l][i] == Span(LetterHtml(lines[l][i]), |Flatten(lines[..l])| * LetterDelay + i * LetterDelay))
  }

  /** `setupTextAnimation` over the text of the `.animated-line` elements:
      the spans that replace each line's text. */
  method SetupTextAnimation(lines: seq<string>) returns (rendered: seq<seq<Span>>)
    ensures Scheduled(lines, rendered)
  {
    rendered := [];
    if |lines| == 0 {
      return;
    }
    var totalDelay := 0;
    for l := 0 to |lines|
      invariant |rendered| == l
      invariant totalDelay == |Flatten(lines[..l])| * LetterDelay
      invariant forall m :: 0 <= m < l ==> |rendered[m]| == |lines[m]|
      invariant forall m, i :: 0 <= m < l && 0 <= i < |lines[m]| ==>
        rendered[m][i] == Span(LetterHtml(lines[m][i]), |Flatten(lines[..m])| * LetterDelay + i * LetterDelay)
    {
      var letters := lines[l];
      var spans: seq<Span> := [];
      for i := 0 to |letters|
        invariant |spans| == i
        invariant forall j :: 0 <= j < i ==> spans[j] == Span(LetterHtml(letters[j]), totalDelay + j * LetterDelay)
      {
        spans := spans + [Span(LetterHtml(letters[i]), totalDelay + i * LetterDelay)];
      }
      rendered := rendered + [spans];
      assert lines[..l + 1][..l] == lines[..l];
      totalDelay := totalDelay + |letters| * LetterDelay;
    }
  }

  /** Length of the lines laid end to end. */
  lemma {:induction false} FlattenLength(lines: seq<string>, rendered: seq<seq<Span>>)
    requires |rendered| == |lines|
    requires forall l :: 0 <= l < |lines| ==> |rendered[l]| == |lines[l]|
    ensures |Flatten(rendered)| == |Flatten(lines)|
    decreases |lines|
  {
    if |lines| > 0 {
      FlattenLength(lines[..|lines| - 1], rendered[..|rendered| - 1]);
    }
  }

  /** Taken over the whole headline, the schedule is one steady beat: the
      k-th character overall is revealed after `80 * k` milliseconds, with
      its space turned into `&nbsp;`. */
  lemma {:induction false} DelaysRunOn(lines: seq<string>, rendered: seq<seq<Span>>)
    requires Scheduled(lines, rendered)
    ensures |Flatten(rendered)| == |Flatten(lines)|
    ensures forall k :: 0 <= k < |Flatten(lines)| ==>
      Flatten(rendered)[k] == Span(LetterHtml(Flatten(lines)[k]), k * LetterDelay)
    decreases |lines|
  {
    FlattenLength(lines, rendered);
    if |lines| > 0 {
      var n := |lines|;
      var init, initR := lines[..n - 1], rendered[..n - 1];
      forall l | 0 <= l < n - 1
        ensures init[..l] == lines[..l]
      {
      }
      DelaysRunOn(init, initR);
      var before := |Flatten(init)|;
      forall k | 0 <= k < |Flatten(lines)|
        ensures Flatten(rendered)[k] == Span(LetterHtml(Flatten(lines)[k]), k * LetterDelay)
      {
        if k >= before {
          var i := k - before;
          assert Flatten(rendered)[k] == rendered[n - 1][i];
          assert Flatten(lines)[k] == lines[n - 1][i];
        }
      }
    }
  }
}
