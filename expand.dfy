/**
 * expand_rectangles_for_long_text: stretches the rectangles found for a
 * prefix of the query so that they approximately cover the whole query,
 * either by widening one line or by stacking estimated lines below it.
 * Floats are modelled as exact reals; a Python ZeroDivisionError is `None`.
 */
module Expansion {
  import opened Wrappers
  import opened Geometry
  import opened PdfPage

  /** `Rect.width`, never negative. */
  function Width(r: Rect): real { Max(r.x1 - r.x0, 0.0) }

  /** `Rect.height`, never negative. */
  function Height(r: Rect): real { Max(r.y1 - r.y0, 0.0) }

  /** Python's `int(x)` on a float: truncation toward zero. */
  function Trunc(x: real): (n: int)
    ensures x >= 0.0 ==> n as real <= x < n as real + 1.0
    ensures x < 0.0 ==> n as real - 1.0 < x <= n as real
  {
    if x >= 0.0 then x.Floor else -((-x).Floor)
  }

  /** `char_width = rect.width / matched_length` */
  function CharWidth(r: Rect, m: int): real
    requires m != 0
  {
    Width(r) / (m as real)
  }

  /** The right edge of the widened rectangle, clipped to the page. */
  function NewRight(r: Rect, m: int, full: int, bounds: Rect): real
    requires m != 0
  {
    Min(r.x1 + CharWidth(r, m) * ((full - m) as real), bounds.x1)
  }

  /** Widening would reach the rightmost 5% of the page. */
  predicate NearEdge(r: Rect, m: int, full: int, bounds: Rect)
    requires m != 0
  {
    NewRight(r, m, full, bounds) >= bounds.x1 * 0.95
  }

  /** Estimated line `n` (n >= 1) below `r`: 1.2 line heights per line, as wide as `chars_per_line * char_width`. */
  function LineRect(r: Rect, cw: real, cpl: real, bounds: Rect, n: nat): Rect {
    Rect(r.x0, r.y0 + Height(r) * 1.2 * (n as real), Min(r.x0 + cpl * cw, bounds.x1), r.y1 + Height(r) * 1.2 * (n as real))
  }

  /** The rectangles emitted for `line_num` in `range(k)`: `r` itself, then the estimated lines that end above the page bottom. */
  function LinesUpTo(r: Rect, cw: real, cpl: real, bounds: Rect, k: nat): seq<Rect> {
    if k == 0 then []
    else
      LinesUpTo(r, cw, cpl, bounds, k - 1)
      + (if k - 1 == 0 then [r]
         else if LineRect(r, cw, cpl, bounds, k - 1).y1 <= bounds.y1 then [LineRect(r, cw, cpl, bounds, k - 1)]
         else [])
  }

  /** `range(n)` is empty for a negative `n`. */
  function RangeLength(n: int): nat { if n < 0 then 0 else n }

  /** What one input rectangle becomes, or None when `rect.width / char_width` divides by zero. */
  function ExpandOne(r: Rect, m: int, full: int, bounds: Rect): Option<seq<Rect>>
    requires m != 0
  {
    var cw := CharWidth(r, m);
    if NearEdge(r, m, full, bounds) then
      if cw == 0.0 then None
      else
        var cpl := Width(r) / cw;
        Some(LinesUpTo(r, cw, cpl, bounds, RangeLength(Trunc((full as real) / cpl) + 1)))
    else Some([Rect(r.x0, r.y0, NewRight(r, m, full, bounds), r.y1)])
  }

  /** Once one rectangle fails, the whole expansion fails. */
  lemma {:induction false} ExpandUpToStaysNone(rects: seq<Rect>, m: int, full: int, bounds: Rect, k: nat, n: nat)
    requires m != 0 && k <= n <= |rects|
    requires ExpandUpTo(rects, m, full, bounds, k).None?
    ensures ExpandUpTo(rects, m, full, bounds, n).None?
  {
    if n > k {
      ExpandUpToStaysNone(rects, m, full, bounds, k, n - 1);
    }
  }

  /** The first `k` input rectangles, expanded and concatenated; None as soon as one fails. */
  function ExpandUpTo(rects: seq<Rect>, m: int, full: int, bounds: Rect, k: nat): Option<seq<Rect>>
    requires m != 0 && k <= |rects|
  {
    if k == 0 then Some([])
    else match ExpandUpTo(rects, m, full, bounds, k - 1)
      case None => None
      case Some(acc) =>
        match ExpandOne(rects[k - 1], m, full, bounds)
        case None => None
        case Some(rs) => Some(acc + rs)
  }

  /**
   * The expander's result: [] for no input; otherwise None when
   * `full_length / matched_length` divides by zero, else the expansion of
   * every rectangle in order.
   */
  function Expand(rects: seq<Rect>, m: int, full: int, bounds: Rect): Option<seq<Rect>> {
    if rects == [] then Some([])
    else if m == 0 then None
    else ExpandUpTo(rects, m, full, bounds, |rects|)
  }

  /** `estimated_lines = int(full_length / chars_per_line) + 1`, once `chars_per_line` is known to be the matched length. */
  function EstimatedLines(full: int, m: int): int
    requires m != 0
  {
    Trunc((full as real) / (m as real)) + 1
  }

  /** A rectangle that cannot be expanded: zero width, and already in the rightmost 5% of the page. */
  predicate Unexpandable(r: Rect, bounds: Rect) {
    Width(r) == 0.0 && Min(r.x1, bounds.x1) >= bounds.x1 * 0.95
  }

  lemma ExpandOneFails(r: Rect, m: int, full: int, bounds: Rect)
    requires m != 0
    ensures ExpandOne(r, m, full, bounds).None? <==> Unexpandable(r, bounds)
  {
    if Width(r) == 0.0 {
      assert CharWidth(r, m) == 0.0;
      assert NewRight(r, m, full, bounds) == Min(r.x1, bounds.x1);
    } else {
      assert CharWidth(r, m) != 0.0;
    }
  }

  lemma {:induction false} ExpandUpToFails(rects: seq<Rect>, m: int, full: int, bounds: Rect, k: nat)
    requires m != 0 && k <= |rects|
    ensures ExpandUpTo(rects, m, full, bounds, k).None? <==> exists i :: 0 <= i < k && Unexpandable(rects[i], bounds)
  {
    if k > 0 {
      ExpandUpToFails(rects, m, full, bounds, k - 1);
      ExpandOneFails(rects[k - 1], m, full, bounds);
    }
  }

  /**
   * The expander fails exactly when it divides by zero: a zero matched
   * length with some input, or an input rectangle of zero width that already
   * reaches the rightmost 5% of the page.
   */
  lemma ExpandFailsExactly(rects: seq<Rect>, m: int, full: int, bounds: Rect)
    ensures Expand(rects, m, full, bounds).None? <==>
      rects != [] && (m == 0 || exists i :: 0 <= i < |rects| && Unexpandable(rects[i], bounds))
  {
    if rects != [] && m != 0 {
      ExpandUpToFails(rects, m, full, bounds, |rects|);
    }
  }

  /**
   * Away from the right edge, a well-formed rectangle keeps its left, top
   * and bottom edges and is widened to `char_width * full_length`: the
   * matched prefix's width scaled by `full / m`.
   */
  lemma SingleLineIsProportional(r: Rect, m: int, full: int, bounds: Rect)
    requires m > 0 && WellFormed(r)
    requires r.x1 + CharWidth(r, m) * ((full - m) as real) <= bounds.x1
    requires !NearEdge(r, m, full, bounds)
    ensures ExpandOne(r, m, full, bounds) == Some([Rect(r.x0, r.y0, r.x0 + CharWidth(r, m) * (full as real), r.y1)])
  {
    var w := Width(r);
    var mr := m as real;
    var cw := CharWidth(r, m);
    assert w == r.x1 - r.x0;
    assert cw * mr == w;
    assert ((full - m) as real) == (full as real) - mr;
    assert cw * ((full - m) as real) == cw * (full as real) - cw * mr;
    assert NewRight(r, m, full, bounds) == r.x1 + cw * ((full - m) as real);
    assert NewRight(r, m, full, bounds) == r.x0 + cw * (full as real);
    assert ExpandOne(r, m, full, bounds) == Some([Rect(r.x0, r.y0, NewRight(r, m, full, bounds), r.y1)]);
    assert Rect(r.x0, r.y0, NewRight(r, m, full, bounds), r.y1) == Rect(r.x0, r.y0, r.x0 + CharWidth(r, m) * (full as real), r.y1);
  }

  /** `chars_per_line = rect.width / char_width` is the matched length again. */
  lemma CharsPerLine(r: Rect, m: int)
    requires m != 0 && CharWidth(r, m) != 0.0
    ensures Width(r) / CharWidth(r, m) == m as real
  {
    var w := Width(r);
    var mr := m as real;
    assert w != 0.0;
    assert w / (w / mr) == mr;
  }

  /** The stacked lines start with `r` itself, and there are at most `k` of them. */
  lemma {:induction false} LinesUpToHead(r: Rect, cw: real, cpl: real, bounds: Rect, k: nat)
    ensures var ls := LinesUpTo(r, cw, cpl, bounds, k);
      |ls| <= k && (k > 0 ==> |ls| > 0 && ls[0] == r)
  {
    if k > 0 {
      LinesUpToHead(r, cw, cpl, bounds, k - 1);
    }
  }

  /** Every estimated line keeps the left margin, is `chars_per_line * char_width` wide (clipped), and ends within the page. */
  lemma {:induction false} LinesUpToEdges(r: Rect, cw: real, cpl: real, bounds: Rect, k: nat)
    ensures var ls := LinesUpTo(r, cw, cpl, bounds, k);
      forall i :: 1 <= i < |ls| ==>
        ls[i].x0 == r.x0 && ls[i].x1 == Min(r.x0 + cpl * cw, bounds.x1) && ls[i].y1 <= bounds.y1
  {
    if k > 0 {
      LinesUpToEdges(r, cw, cpl, bounds, k - 1);
      LinesUpToHead(r, cw, cpl, bounds, k - 1);
    }
  }

  /** Line offsets `h * 1.2 * n` grow with `n`, strictly when `h` is positive. */
  lemma LineOffsetGrows(h: real, a: nat, b: nat)
    requires h >= 0.0 && a < b
    ensures h * 1.2 * (a as real) <= h * 1.2 * (b as real)
    ensures h > 0.0 ==> h * 1.2 * (a as real) < h * 1.2 * (b as real)
  {
    var d := (b as real) - (a as real);
    assert h * 1.2 * (b as real) == h * 1.2 * (a as real) + h * 1.2 * d;
  }

  /** The stacked lines all start at or above the top of estimated line `k - 1`. */
  lemma {:induction false} LinesUpToAbove(r: Rect, cw: real, cpl: real, bounds: Rect, k: nat)
    requires k > 0
    ensures forall i :: 0 <= i < |LinesUpTo(r, cw, cpl, bounds, k)| ==>
      LinesUpTo(r, cw, cpl, bounds, k)[i].y0 <= r.y0 + Height(r) * 1.2 * ((k - 1) as real)
  {
    var h := Height(r);
    if k == 1 {
      assert LinesUpTo(r, cw, cpl, bounds, 1) == [r];
    } else {
      LinesUpToAbove(r, cw, cpl, bounds, k - 1);
      var prev := LinesUpTo(r, cw, cpl, bounds, k - 1);
      var line := LineRect(r, cw, cpl, bounds, k - 1);
      var ls := LinesUpTo(r, cw, cpl, bounds, k);
      assert ls == prev + (if line.y1 <= bounds.y1 then [line] else []);
      LineOffsetGrows(h, k - 2, k - 1);
      forall i | 0 <= i < |ls|
        ensures ls[i].y0 <= r.y0 + h * 1.2 * ((k - 1) as real)
      {
        if i < |prev| {
          assert ls[i] == prev[i];
          assert prev[i].y0 <= r.y0 + h * 1.2 * ((k - 2) as real);
        } else {
          assert ls[i] == line;
          assert line.y0 == r.y0 + h * 1.2 * ((k - 1) as real);
        }
      }
    }
  }

  /** When `r` has a height, each stacked line lies lower on the page than the one before it. */
  lemma {:induction false} LinesUpToDescend(r: Rect, cw: real, cpl: real, bounds: Rect, k: nat)
    requires Height(r) > 0.0
    ensures forall i :: 0 <= i < |LinesUpTo(r, cw, cpl, bounds, k)| - 1 ==>
      LinesUpTo(r, cw, cpl, bounds, k)[i].y0 < LinesUpTo(r, cw, cpl, bounds, k)[i + 1].y0
  {
    if k > 1 {
      LinesUpToDescend(r, cw, cpl, bounds, k - 1);
      LinesUpToAbove(r, cw, cpl, bounds, k - 1);
      var h := Height(r);
      var prev := LinesUpTo(r, cw, cpl, bounds, k - 1);
      var line := LineRect(r, cw, cpl, bounds, k - 1);
      var ls := LinesUpTo(r, cw, cpl, bounds, k);
      assert ls == prev + (if line.y1 <= bounds.y1 then [line] else []);
      LineOffsetGrows(h, k - 2, k - 1);
      forall i | 0 <= i < |ls| - 1
        ensures ls[i].y0 < ls[i + 1].y0
      {
        if i + 1 < |prev| {
          assert ls[i] == prev[i] && ls[i + 1] == prev[i + 1];
        } else {
          assert ls[i] == prev[i] && ls[i + 1] == line;
          assert prev[i].y0 <= r.y0 + h * 1.2 * ((k - 2) as real);
          assert line.y0 == r.y0 + h * 1.2 * ((k - 1) as real);
        }
      }
    }
  }

  /** Stacked rectangle `i >= 1` is estimated line `n`, for the `n` this returns, and that line ends above the page bottom. */
  lemma {:induction false} LineNumberOf(r: Rect, m: int, bounds: Rect, k: nat, i: nat) returns (n: nat)
    requires m != 0 && 1 <= i < |EstimatedStack(r, m, bounds, k)|
    ensures 1 <= n < k && EstimatedStack(r, m, bounds, k)[i] == EstimatedLine(r, m, bounds, n)
    ensures EstimatedLine(r, m, bounds, n).y1 <= bounds.y1
    decreases k
  {
    LinesUpToHead(r, CharWidth(r, m), m as real, bounds, k);
    var prev := EstimatedStack(r, m, bounds, k - 1);
    var line := EstimatedLine(r, m, bounds, k - 1);
    var ls := EstimatedStack(r, m, bounds, k);
    assert ls == prev + (if line.y1 <= bounds.y1 then [line] else []);
    if i < |prev| {
      n := LineNumberOf(r, m, bounds, k - 1, i);
      assert ls[i] == prev[i];
    } else {
      n := k - 1;
      assert ls[i] == line && line.y1 <= bounds.y1;
    }
  }

  /** After `r` itself, every stacked rectangle is an estimated line `1 <= n < k` that ends above the page bottom. */
  lemma LinesUpToSound(r: Rect, m: int, bounds: Rect, k: nat)
    requires m != 0
    ensures OnlyEstimatedLines(EstimatedStack(r, m, bounds, k), r, m, bounds, k)
  {
    var ls := EstimatedStack(r, m, bounds, k);
    forall i | 1 <= i < |ls|
      ensures IsEstimatedLine(ls[i], r, m, bounds, k)
    {
      var n := LineNumberOf(r, m, bounds, k, i);
    }
  }

  /** Every estimated line `1 <= n < k` that ends above the page bottom is stacked. */
  lemma {:induction false} LinesUpToComplete(r: Rect, m: int, bounds: Rect, k: nat)
    requires m != 0
    ensures AllEstimatedLines(EstimatedStack(r, m, bounds, k), r, m, bounds, k)
  {
    if k > 1 {
      LinesUpToComplete(r, m, bounds, k - 1);
      var prev := EstimatedStack(r, m, bounds, k - 1);
      var line := EstimatedLine(r, m, bounds, k - 1);
      var ls := EstimatedStack(r, m, bounds, k);
      assert ls == prev + (if line.y1 <= bounds.y1 then [line] else []);
      forall n | 1 <= n < k && EstimatedLine(r, m, bounds, n).y1 <= bounds.y1
        ensures EstimatedLine(r, m, bounds, n) in ls
      {
        if n < k - 1 {
          assert EstimatedLine(r, m, bounds, n) in prev;
        } else {
          assert ls[|ls| - 1] == line;
        }
      }
    }
  }

  /** `x` is an estimated line `1 <= n < k` that ends above the page bottom. */
  ghost predicate IsEstimatedLine(x: Rect, r: Rect, m: int, bounds: Rect, k: nat)
    requires m != 0
  {
    exists n: nat :: 1 <= n < k && x == EstimatedLine(r, m, bounds, n) && EstimatedLine(r, m, bounds, n).y1 <= bounds.y1
  }

  /** After its first rectangle, `ls` holds only estimated lines `1 <= n < k` that end above the page bottom. */
  ghost predicate OnlyEstimatedLines(ls: seq<Rect>, r: Rect, m: int, bounds: Rect, k: nat)
    requires m != 0
  {
    forall i :: 1 <= i < |ls| ==> IsEstimatedLine(ls[i], r, m, bounds, k)
  }

  /** Every estimated line `1 <= n < k` that ends above the page bottom is in `ls`. */
  ghost predicate AllEstimatedLines(ls: seq<Rect>, r: Rect, m: int, bounds: Rect, k: nat)
    requires m != 0
  {
    forall n: nat :: 1 <= n < k && EstimatedLine(r, m, bounds, n).y1 <= bounds.y1 ==> EstimatedLine(r, m, bounds, n) in ls
  }

  /**
   * Near the edge, the lines after `r` are the estimated lines
   * `1 <= n < int(full / matched) + 1`: line `n` is `r` moved down by
   * `1.2 * height * n`, as wide as `r` (clipped), and every such line that
   * ends above the page bottom is emitted.
   */
  lemma MultiLineLines(r: Rect, m: int, full: int, bounds: Rect, k: nat)
    requires m > 0 && full >= 0 && Width(r) > 0.0
    requires NearEdge(r, m, full, bounds) && k == EstimatedLines(full, m)
    ensures ExpandOne(r, m, full, bounds).Some?
    ensures OnlyEstimatedLines(ExpandOne(r, m, full, bounds).value, r, m, bounds, k)
    ensures AllEstimatedLines(ExpandOne(r, m, full, bounds).value, r, m, bounds, k)
  {
    NearEdgeStacks(r, m, full, bounds);
    LinesUpToSound(r, m, bounds, k);
    LinesUpToComplete(r, m, bounds, k);
  }

  /** Near the edge, with some width, `r` becomes the stack of its `int(full / matched) + 1` estimated lines. */
  lemma NearEdgeStacks(r: Rect, m: int, full: int, bounds: Rect)
    requires m > 0 && full >= 0 && Width(r) > 0.0
    requires NearEdge(r, m, full, bounds)
    ensures ExpandOne(r, m, full, bounds) == Some(EstimatedStack(r, m, bounds, EstimatedLines(full, m)))
  {
    var cw := CharWidth(r, m);
    assert cw > 0.0;
    CharsPerLine(r, m);
    var q := (full as real) / (m as real);
    assert Trunc(q) + 1 == EstimatedLines(full, m);
  }

  /** The expander's stack of `k` lines, where `chars_per_line` is the matched length. */
  function EstimatedStack(r: Rect, m: int, bounds: Rect, k: nat): seq<Rect>
    requires m != 0
  {
    LinesUpTo(r, CharWidth(r, m), m as real, bounds, k)
  }

  /** Estimated line `n` of the expander, where `chars_per_line` is the matched length. */
  function EstimatedLine(r: Rect, m: int, bounds: Rect, n: nat): Rect
    requires m != 0
  {
    LineRect(r, CharWidth(r, m), m as real, bounds, n)
  }

  /** Line `n` starts and ends `1.2 * height * n` below `r`, and keeps its left edge. */
  lemma LineRectOffset(r: Rect, cw: real, cpl: real, bounds: Rect, n: nat)
    ensures LineRect(r, cw, cpl, bounds, n).x0 == r.x0
    ensures LineRect(r, cw, cpl, bounds, n).y0 == r.y0 + 1.2 * Height(r) * (n as real)
    ensures LineRect(r, cw, cpl, bounds, n).y1 == r.y1 + 1.2 * Height(r) * (n as real)
  {
  }

  /** Near the edge, with a positive matched length and a rectangle of some width, the result is `r` and its estimated lines. */
  lemma MultiLineShape(r: Rect, m: int, full: int, bounds: Rect)
    requires m > 0 && full >= 0 && Width(r) > 0.0
    requires NearEdge(r, m, full, bounds)
    ensures ExpandOne(r, m, full, bounds).Some?
    ensures var ls := ExpandOne(r, m, full, bounds).value;
      && 0 < |ls| <= EstimatedLines(full, m)
      && ls[0] == r
      && (forall i :: 1 <= i < |ls| ==>
            ls[i].x0 == r.x0 && ls[i].x1 == Min(r.x0 + Width(r), bounds.x1) && ls[i].y1 <= bounds.y1)
  {
    var cw := CharWidth(r, m);
    assert cw > 0.0;
    CharsPerLine(r, m);
    var cpl := Width(r) / cw;
    var mr := m as real;
    assert cpl * cw == Width(r);
    var q := (full as real) / mr;
    LinesUpToHead(r, cw, cpl, bounds, RangeLength(Trunc(q) + 1));
    LinesUpToEdges(r, cw, cpl, bounds, RangeLength(Trunc(q) + 1));
  }

  /** One input rectangle yields at least one output rectangle. */
  lemma ExpandOneNonEmpty(r: Rect, m: int, full: int, bounds: Rect)
    requires m > 0 && full >= 0
    requires ExpandOne(r, m, full, bounds).Some?
    ensures |ExpandOne(r, m, full, bounds).value| >= 1
  {
    if NearEdge(r, m, full, bounds) {
      ExpandOneFails(r, m, full, bounds);
      MultiLineShape(r, m, full, bounds);
    }
  }

  lemma {:induction false} ExpandUpToGrows(rects: seq<Rect>, m: int, full: int, bounds: Rect, k: nat)
    requires m > 0 && full >= 0 && k <= |rects|
    requires ExpandUpTo(rects, m, full, bounds, k).Some?
    ensures |ExpandUpTo(rects, m, full, bounds, k).value| >= k
  {
    if k > 0 {
      ExpandUpToGrows(rects, m, full, bounds, k - 1);
      ExpandOneNonEmpty(rects[k - 1], m, full, bounds);
    }
  }

  /** A successful expansion never loses a rectangle: at least one output per input. */
  lemma ExpandKeepsEveryRect(rects: seq<Rect>, m: int, full: int, bounds: Rect)
    requires m > 0 && full >= 0
    requires Expand(rects, m, full, bounds).Some?
    ensures |Expand(rects, m, full, bounds).value| >= |rects|
  {
    if rects != [] {
      ExpandUpToGrows(rects, m, full, bounds, |rects|);
    }
  }

  /** expand_rectangles_for_long_text: the outer loop over the rectangles found. */
  method ExpandRectanglesForLongText(textInstances: seq<Rect>, matchedLength: int, fullLength: int, page: Page)
    returns (expanded: Option<seq<Rect>>)
    ensures expanded == Expand(textInstances, matchedLength, fullLength, page.bounds)
  {
    if |textInstances| == 0 {
      return Some([]);
    }
    if matchedLength == 0 {
      // full_length / matched_length
      return None;
    }
    var pageRect := page.bounds;
    var acc: seq<Rect> := [];
    for k := 0 to |textInstances|
      invariant ExpandUpTo(textInstances, matchedLength, fullLength, pageRect, k) == Some(acc)
    {
      var one := ExpandRect(textInstances[k], matchedLength, fullLength, pageRect);
      if one.None? {
        ExpandUpToStaysNone(textInstances, matchedLength, fullLength, pageRect, k + 1, |textInstances|);
        return None;
      }
      acc := acc + one.value;
    }
    return Some(acc);
  }

  /** The body of that loop for one rectangle, with the inner loop over the estimated lines. */
  method ExpandRect(rect: Rect, matchedLength: int, fullLength: int, pageRect: Rect) returns (rs: Option<seq<Rect>>)
    requires matchedLength != 0
    ensures rs == ExpandOne(rect, matchedLength, fullLength, pageRect)
  {
    var charWidth := Width(rect) / (matchedLength as real);
    var additionalWidth := charWidth * ((fullLength - matchedLength) as real);
    var newRect := Rect(rect.x0, rect.y0, Min(rect.x1 + additionalWidth, pageRect.x1), rect.y1);
    assert charWidth == CharWidth(rect, matchedLength);
    assert newRect.x1 == NewRight(rect, matchedLength, fullLength, pageRect);
    if newRect.x1 >= pageRect.x1 * 0.95 {
      if charWidth == 0.0 {
        // rect.width / char_width
        return None;
      }
      var charsPerLine := Width(rect) / charWidth;
      var estimatedLines := Trunc((fullLength as real) / charsPerLine) + 1;
      var lines := StackLines(rect, charWidth, charsPerLine, pageRect, RangeLength(estimatedLines));
      return Some(lines);
    }
    return Some([newRect]);
  }

  /** The inner loop over `range(estimated_lines)`: the rectangle itself, then each estimated line that ends above the page bottom. */
  method StackLines(rect: Rect, charWidth: real, charsPerLine: real, pageRect: Rect, n: nat) returns (lines: seq<Rect>)
    ensures lines == LinesUpTo(rect, charWidth, charsPerLine, pageRect, n)
  {
    var lineHeight := Height(rect);
    lines := [];
    for lineNum := 0 to n
      invariant lines == LinesUpTo(rect, charWidth, charsPerLine, pageRect, lineNum)
    {
      if lineNum == 0 {
        lines := lines + [rect];
      } else {
        var lineRect := Rect(rect.x0, rect.y0 + lineHeight * 1.2 * (lineNum as real),
                             Min(rect.x0 + charsPerLine * charWidth, pageRect.x1),
                             rect.y1 + lineHeight * 1.2 * (lineNum as real));
        assert lineRect == LineRect(rect, charWidth, charsPerLine, pageRect, lineNum);
        if lineRect.y1 <= pageRect.y1 {
          lines := lines + [lineRect];
        }
      }
    }
  }
}
