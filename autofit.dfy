// Text autofit: `fitText` of both revisions (src/sheet.cpp:101-124 and
// src/pagewidget.cpp:157-180 have the same body). Starting at the height of
// the target rectangle, truncated to an int, the font size is lowered in
// steps of 2 while it stays positive; the text is drawn once, vertically
// centred, at the first size whose measured bounding box fits, and not at
// all when no size fits.

module Autofit {
  import opened Painting

  /** static_cast<int> applied to a qreal: truncation toward zero. */
  function Trunc(x: real): (n: int)
    ensures 0.0 <= x ==> 0 <= n && n as real <= x < n as real + 1.0
    ensures x < 0.0 ==> n <= 0 && x <= n as real < x + 1.0
  {
    if x >= 0.0 then x.Floor else -((-x).Floor)
  }

  /** The countdown starting at `start` tries `size`: start, start - 2,
      start - 4, ... as long as the size is positive. */
  predicate Tried(start: int, size: int) {
    0 < size <= start && (start - size) % 2 == 0
  }

  /** At point size `size`, the bounding box that `measure` reports for
      `text` laid out in `rect` is no wider and no taller than `rect`. */
  predicate Fits(measure: Measure, font: Font, rect: Rect, text: string, size: int) {
    var needed := measure(font.(pointSize := size), rect, text);
    needed.width <= rect.width && needed.height <= rect.height
  }

  /** The size the countdown from `start` stops at, if any. */
  function FirstFit(measure: Measure, font: Font, rect: Rect, text: string, start: int): Option<int>
    decreases start
  {
    if start <= 0 then None
    else if Fits(measure, font, rect, text, start) then Some(start)
    else FirstFit(measure, font, rect, text, start - 2)
  }

  /** The countdown stops at a size it tries, that size fits, and no larger
      size it tries fits; when it runs out, no size it tries fits. */
  lemma {:induction false} FirstFitIsFirst(measure: Measure, font: Font, rect: Rect, text: string, start: int)
    ensures var chosen := FirstFit(measure, font, rect, text, start);
      && (chosen.Some? ==> Tried(start, chosen.value) && Fits(measure, font, rect, text, chosen.value))
      && (chosen.Some? ==>
            forall size :: Tried(start, size) && size > chosen.value ==> !Fits(measure, font, rect, text, size))
      && (chosen.None? ==> forall size :: Tried(start, size) ==> !Fits(measure, font, rect, text, size))
    decreases start
  {
    if start > 0 && !Fits(measure, font, rect, text, start) {
      FirstFitIsFirst(measure, font, rect, text, start - 2);
      assert forall size :: Tried(start, size) && size != start ==> Tried(start - 2, size);
    }
  }

  /** What one fitText(painter, font, rect, text) call draws. */
  function FitLog(measure: Measure, font: Font, rect: Rect, text: string): seq<DrawCommand> {
    match FirstFit(measure, font, rect, text, Trunc(rect.height))
    case None => []
    case Some(size) => [DrawCommand(font.(pointSize := size), rect, AlignVCenter, text)]
  }

  /** fitText draws at most once; it draws nothing exactly when no size of
      the countdown fits (in particular when the rectangle is less than one
      unit tall); otherwise it draws the text in the given rectangle,
      vertically centred, at the largest size of the countdown that fits. */
  lemma FitLogMeaning(measure: Measure, font: Font, rect: Rect, text: string)
    ensures var drawn := FitLog(measure, font, rect, text);
      && |drawn| <= 1
      && (drawn == [] <==>
            forall size :: Tried(Trunc(rect.height), size) ==> !Fits(measure, font, rect, text, size))
      && (rect.height < 1.0 ==> drawn == [])
      && (drawn != [] ==>
            var size := drawn[0].font.pointSize;
            && drawn[0] == DrawCommand(font.(pointSize := size), rect, AlignVCenter, text)
            && 0 < size && size as real <= rect.height
            && Tried(Trunc(rect.height), size)
            && Fits(measure, font, rect, text, size)
            && forall larger :: Tried(Trunc(rect.height), larger) && larger > size ==>
                 !Fits(measure, font, rect, text, larger))
  {
    FirstFitIsFirst(measure, font, rect, text, Trunc(rect.height));
  }

  /** fitText: the countdown loop with its early return. */
  method FitText(measure: Measure, font: Font, rect: Rect, text: string) returns (drawn: seq<DrawCommand>)
    ensures drawn == FitLog(measure, font, rect, text)
  {
    var trialFont := font;
    var fontSize := Trunc(rect.height);
    while fontSize > 0
      invariant trialFont.family == font.family
      invariant FirstFit(measure, font, rect, text, fontSize)
             == FirstFit(measure, font, rect, text, Trunc(rect.height))
      decreases fontSize
    {
      trialFont := trialFont.(pointSize := fontSize);
      var requiredRect := measure(trialFont, rect, text);
      if requiredRect.width <= rect.width && requiredRect.height <= rect.height {
        return [DrawCommand(trialFont, rect, AlignVCenter, text)];
      }
      fontSize := fontSize - 2;
    }
    return [];
  }

  /** One fitText call made by a draw routine: its target rectangle and text. */
  datatype Call = Call(rect: Rect, text: string)

  /** What the painter receives when the calls are made in order. */
  function Render(measure: Measure, font: Font, calls: seq<Call>): (log: seq<DrawCommand>)
    decreases |calls|
    ensures |log| <= |calls|
  {
    if calls == [] then []
    else
      var last := calls[|calls| - 1];
      Render(measure, font, calls[..|calls| - 1]) + FitLog(measure, font, last.rect, last.text)
  }

  /** Making call k after calls 0 .. k-1. */
  lemma RenderPrefix(measure: Measure, font: Font, calls: seq<Call>, k: int)
    requires 0 <= k < |calls|
    ensures Render(measure, font, calls[..k + 1])
         == Render(measure, font, calls[..k]) + FitLog(measure, font, calls[k].rect, calls[k].text)
  {
    assert calls[..k + 1][..k] == calls[..k];
  }

  lemma {:induction false} RenderAppend(measure: Measure, font: Font, first: seq<Call>, second: seq<Call>)
    ensures Render(measure, font, first + second)
         == Render(measure, font, first) + Render(measure, font, second)
    decreases |second|
  {
    if second == [] {
      assert first + second == first;
    } else {
      var n := |second| - 1;
      var last := second[n];
      assert (first + second)[..|first + second| - 1] == first + second[..n];
      RenderAppend(measure, font, first, second[..n]);
    }
  }

  /** When every call finds a fitting size, each call draws exactly once,
      in call order. */
  lemma {:induction false} RenderAllFit(measure: Measure, font: Font, calls: seq<Call>)
    requires forall k :: 0 <= k < |calls| ==> FitLog(measure, font, calls[k].rect, calls[k].text) != []
    ensures var log := Render(measure, font, calls);
      && |log| == |calls|
      && forall k :: 0 <= k < |calls| ==>
           log[k] == FitLog(measure, font, calls[k].rect, calls[k].text)[0]
           && log[k].rect == calls[k].rect && log[k].text == calls[k].text
    decreases |calls|
  {
    if calls != [] {
      var n := |calls| - 1;
      RenderAllFit(measure, font, calls[..n]);
    }
  }

  /** When no call finds a fitting size, nothing is drawn at all. */
  lemma {:induction false} RenderNoneFit(measure: Measure, font: Font, calls: seq<Call>)
    requires forall k :: 0 <= k < |calls| ==> FitLog(measure, font, calls[k].rect, calls[k].text) == []
    ensures Render(measure, font, calls) == []
    decreases |calls|
  {
    if calls != [] {
      var n := |calls| - 1;
      RenderNoneFit(measure, font, calls[..n]);
    }
  }

  /** Whenever a size fits, every smaller positive size fits too. */
  ghost predicate SmallerSizesFit(measure: Measure, font: Font, rect: Rect, text: string) {
    forall big, small :: 0 < small <= big && Fits(measure, font, rect, text, big) ==>
      Fits(measure, font, rect, text, small)
  }

  /** If `size` fits and every smaller size fits too, the countdown from
      `start` stops at `size - 1` or above, unless `size` is 1 and the
      countdown runs through even sizes only. */
  lemma CountdownStopsNear(measure: Measure, font: Font, rect: Rect, text: string, start: int, size: int)
    requires 0 < size <= start
    requires Fits(measure, font, rect, text, size)
    requires SmallerSizesFit(measure, font, rect, text)
    ensures var chosen := FirstFit(measure, font, rect, text, start);
      || (chosen.Some? && chosen.value >= size - 1)
      || (size == 1 && start % 2 == 0)
  {
    FirstFitIsFirst(measure, font, rect, text, start);
    if (start - size) % 2 == 0 {
      assert Tried(start, size);
    } else if size >= 2 {
      assert Fits(measure, font, rect, text, size - 1);
      assert Tried(start, size - 1);
    }
  }

  /** Growing the rectangle can lower the chosen size by at most one step of
      parity, and can leave the text undrawn only when the smaller rectangle
      chose size 1 and the larger one counts down through even sizes. */
  lemma LargerRectChoosesNearlyAsLarge(measure: Measure, font: Font, small: Rect, large: Rect, text: string)
    requires Trunc(small.height) <= Trunc(large.height)
    requires forall size {:trigger Fits(measure, font, small, text, size)} ::
      Fits(measure, font, small, text, size) ==> Fits(measure, font, large, text, size)
    requires SmallerSizesFit(measure, font, large, text)
    requires FirstFit(measure, font, small, text, Trunc(small.height)).Some?
    ensures var k := FirstFit(measure, font, small, text, Trunc(small.height)).value;
      var chosen := FirstFit(measure, font, large, text, Trunc(large.height));
      || (chosen.Some? && chosen.value >= k - 1)
      || (k == 1 && Trunc(large.height) % 2 == 0)
  {
    var k := FirstFit(measure, font, small, text, Trunc(small.height)).value;
    FirstFitIsFirst(measure, font, small, text, Trunc(small.height));
    assert Fits(measure, font, small, text, k);
    CountdownStopsNear(measure, font, large, text, Trunc(large.height), k);
  }

  /** A measure under which the text needs a square as wide and as tall as
      its point size. */
  function SquareGlyphs(font: Font, rect: Rect, text: string): Rect {
    Rect(rect.left, rect.top, font.pointSize as real, font.pointSize as real)
  }

  /** The countdown in steps of 2 is not monotone in the rectangle: the
      text fits a 1.5 x 9 rectangle at size 1, while in the taller
      1.5 x 10 rectangle only even sizes are tried and none fits. */
  lemma TallerRectCanDrawNothing(font: Font, text: string)
    ensures FitLog(SquareGlyphs, font, Rect(0.0, 0.0, 1.5, 9.0), text) != []
    ensures FitLog(SquareGlyphs, font, Rect(0.0, 0.0, 1.5, 10.0), text) == []
  {
    var shorter := Rect(0.0, 0.0, 1.5, 9.0);
    assert Trunc(shorter.height) == 9;
    assert Fits(SquareGlyphs, font, shorter, text, 1);
    assert Tried(9, 1);
    var taller := Rect(0.0, 0.0, 1.5, 10.0);
    assert Trunc(taller.height) == 10;
    forall size | Tried(10, size)
      ensures !Fits(SquareGlyphs, font, taller, text, size)
    {
      assert size >= 2;
    }
  }

  /** Nor does a taller rectangle always get a size at least as large: when
      sizes up to 7 fit the width, a rectangle 9 tall gets size 7 and one 10
      tall gets size 6, since its countdown runs through even sizes. */
  lemma TallerRectCanChooseSmaller(font: Font, text: string)
    ensures var log := FitLog(SquareGlyphs, font, Rect(0.0, 0.0, 7.5, 9.0), text);
      |log| == 1 && log[0].font.pointSize == 7
    ensures var log := FitLog(SquareGlyphs, font, Rect(0.0, 0.0, 7.5, 10.0), text);
      |log| == 1 && log[0].font.pointSize == 6
  {
    var shorter := Rect(0.0, 0.0, 7.5, 9.0);
    assert Trunc(shorter.height) == 9;
    assert FirstFit(SquareGlyphs, font, shorter, text, 9) == Some(7);
    var taller := Rect(0.0, 0.0, 7.5, 10.0);
    assert Trunc(taller.height) == 10;
    assert FirstFit(SquareGlyphs, font, taller, text, 10) == Some(6);
  }
}
