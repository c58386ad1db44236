/**
 * The sliding-window similarity scan that both fuzzy searches perform:
 * windows of a fixed width start at every multiple of a step, each is
 * scored against the query, and the first strictly best window wins.
 * `difflib.SequenceMatcher(None, a, b).ratio()` is not modelled; it is the
 * parameter `sim`, which only has to return a value in [0, 1].
 */
module Scan {
  type Ratio = r: real | 0.0 <= r <= 1.0

  type Pos = n: int | 0 < n witness 1

  /** Windows of `width` characters of `text`, starting at 0, step, 2 * step, ..., each compared with `query`. */
  datatype Windows = Windows(sim: (string, string) -> Ratio, query: string, text: string, width: nat, step: Pos)

  /** The best window so far: its ratio and its window number, or -1 while no window has scored above 0. */
  datatype Best = Best(ratio: real, window: int)

  /** The early-exit threshold of the selection script's scan. */
  const Excellent: real := 0.95

  /** Where window `j` starts. */
  function Start(w: Windows, j: nat): nat {
    j * w.step
  }

  lemma StartNext(w: Windows, j: nat)
    ensures Start(w, j + 1) == Start(w, j) + w.step
  {
  }

  /** The exclusive bound of `range(0, len(text) - width + 1, step)`. */
  function Stop(w: Windows): int {
    |w.text| - w.width + 1
  }

  /** The number of windows, `len(range(0, Stop(w), step))`. */
  function Count(w: Windows): nat {
    if Stop(w) <= 0 then 0 else (Stop(w) - 1) / w.step + 1
  }

  /** Window `j` is scanned exactly when its start is below the range's bound, i.e. the window fits in `text`. */
  lemma CountMeaning(w: Windows, j: nat)
    ensures j < Count(w) <==> Start(w, j) < Stop(w)
  {
    if Stop(w) > 0 {
      WindowBound(Stop(w), w.step, j);
    }
  }

  /** `j * step < stop` exactly for the `j` up to `(stop - 1) / step`. */
  lemma WindowBound(stop: int, step: int, j: nat)
    requires step > 0 && stop > 0
    ensures j <= (stop - 1) / step <==> j * step < stop
  {
    var q := (stop - 1) / step;
    var r := (stop - 1) % step;
    assert stop - 1 == q * step + r && 0 <= r < step;
    if j <= q {
      MulLe(j, q, step);
    } else {
      MulLe(q + 1, j, step);
    }
  }

  lemma MulLe(a: int, b: int, c: nat)
    requires a <= b
    ensures a * c <= b * c
  {
    assert b * c == a * c + (b - a) * c;
  }

  /** The text window `j` covers: `text[i:i + width]` with `i = Start(w, j)`, which always fits. */
  function Window(w: Windows, j: nat): (s: string)
    requires j < Count(w)
    ensures |s| == w.width
  {
    CountMeaning(w, j);
    w.text[Start(w, j)..Start(w, j) + w.width]
  }

  function Score(w: Windows, j: nat): Ratio
    requires j < Count(w)
  {
    w.sim(w.query, Window(w, j))
  }

  /** The scan over the first `k` windows: a window replaces the best only if its ratio is strictly higher. */
  function BestUpTo(w: Windows, k: nat): Best
    requires k <= Count(w)
  {
    if k == 0 then Best(0.0, -1)
    else
      var b := BestUpTo(w, k - 1);
      if Score(w, k - 1) > b.ratio then Best(Score(w, k - 1), k - 1) else b
  }

  /** `best_position`: the start of the best window, or -1. */
  function Position(w: Windows, b: Best): int {
    if b.window < 0 then -1 else b.window * w.step
  }

  /**
   * The full scan finds the maximum ratio, at the earliest window that
   * reaches it; the position stays -1 (and the ratio 0) exactly when every
   * window scores 0.
   */
  lemma {:induction false} BestUpToMeaning(w: Windows, k: nat)
    requires k <= Count(w)
    ensures var b := BestUpTo(w, k);
      && (forall j :: 0 <= j < k ==> Score(w, j) <= b.ratio)
      && (b.window == -1 ==> b.ratio == 0.0)
      && (b.window != -1 ==>
            0 <= b.window < k && Score(w, b.window) == b.ratio && b.ratio > 0.0
            && forall j :: 0 <= j < b.window ==> Score(w, j) < b.ratio)
  {
    if k > 0 {
      BestUpToMeaning(w, k - 1);
    }
  }

  /** The ratio `found` by the full scan is the maximum over all windows. */
  lemma BestIsMaximum(w: Windows, j: nat)
    requires j < Count(w)
    ensures Score(w, j) <= BestUpTo(w, Count(w)).ratio
  {
    BestUpToMeaning(w, Count(w));
  }

  /** The scan with the selection script's early exit: it stops right after an improvement above `Excellent`. */
  function EarlyUpTo(w: Windows, k: nat): (Best, bool)
    requires k <= Count(w)
  {
    if k == 0 then (Best(0.0, -1), false)
    else
      var (b, stopped) := EarlyUpTo(w, k - 1);
      if stopped then (b, true)
      else if Score(w, k - 1) > b.ratio then (Best(Score(w, k - 1), k - 1), Score(w, k - 1) > Excellent)
      else (b, false)
  }

  /**
   * The early-exit scan's best window really scores its ratio (or is -1 with
   * ratio 0), no window scanned up to the stop scores more, and it stops only
   * on a window above `Excellent`.
   */
  lemma {:induction false} EarlyUpToMeaning(w: Windows, k: nat)
    requires k <= Count(w)
    ensures EarlyUpTo(w, k).0.window == -1 ==> EarlyUpTo(w, k).0.ratio == 0.0
    ensures EarlyUpTo(w, k).0.window != -1 ==>
      0 <= EarlyUpTo(w, k).0.window < k && Score(w, EarlyUpTo(w, k).0.window) == EarlyUpTo(w, k).0.ratio > 0.0
    ensures forall j :: 0 <= j < k && (!EarlyUpTo(w, k).1 || j <= EarlyUpTo(w, k).0.window) ==>
      Score(w, j) <= EarlyUpTo(w, k).0.ratio
    ensures EarlyUpTo(w, k).1 ==> EarlyUpTo(w, k).0.ratio > Excellent
  {
    if k > 0 {
      EarlyUpToMeaning(w, k - 1);
    }
  }

  /** Until some window scores above `Excellent`, the early-exit scan is the full scan. */
  lemma {:induction false} EarlyIsFullWithoutExcellent(w: Windows, k: nat)
    requires k <= Count(w)
    requires forall j :: 0 <= j < k ==> Score(w, j) <= Excellent
    ensures EarlyUpTo(w, k) == (BestUpTo(w, k), false)
  {
    if k > 0 {
      EarlyIsFullWithoutExcellent(w, k - 1);
    }
  }

  /** Once stopped, the early-exit scan keeps its answer. */
  lemma {:induction false} EarlyStaysStopped(w: Windows, k: nat, m: nat)
    requires k <= m <= Count(w)
    requires EarlyUpTo(w, k).1
    ensures EarlyUpTo(w, m) == EarlyUpTo(w, k)
  {
    if m > k {
      EarlyStaysStopped(w, k, m - 1);
    }
  }

  /** The early-exit scan answers with the first window that scores above `Excellent`, whatever follows it. */
  lemma EarlyStopsAtFirstExcellent(w: Windows, k: nat, j0: nat)
    requires j0 < k <= Count(w)
    requires Score(w, j0) > Excellent
    requires forall j :: 0 <= j < j0 ==> Score(w, j) <= Excellent
    ensures EarlyUpTo(w, k) == (Best(Score(w, j0), j0), true)
  {
    EarlyIsFullWithoutExcellent(w, j0);
    BestUpToMeaning(w, j0);
    assert EarlyUpTo(w, j0 + 1) == (Best(Score(w, j0), j0), true);
    EarlyStaysStopped(w, j0 + 1, k);
  }

  /**
   * For an oracle that rates a string against itself 1.0, as
   * `SequenceMatcher.ratio()` does, a window equal to the query gives the
   * full scan a perfect best ratio.
   */
  lemma ExactWindowIsBest(w: Windows, j0: nat)
    requires j0 < Count(w) && Window(w, j0) == w.query && w.sim(w.query, w.query) == 1.0
    ensures BestUpTo(w, Count(w)).ratio == 1.0
  {
    BestIsMaximum(w, j0);
    BestUpToMeaning(w, Count(w));
  }

  /** With such an oracle, the early-exit scan stops at a window equal to the query unless an earlier one already scored above 0.95. */
  lemma ExactWindowStopsEarly(w: Windows, k: nat, j0: nat)
    requires j0 < k <= Count(w) && Window(w, j0) == w.query && w.sim(w.query, w.query) == 1.0
    requires forall j :: 0 <= j < j0 ==> Score(w, j) <= Excellent
    ensures EarlyUpTo(w, k) == (Best(1.0, j0), true)
  {
    EarlyStopsAtFirstExcellent(w, k, j0);
  }

  /**
   * The loop of find_text_in_pdf.py's fuzzy_search_in_page: every window is
   * scored, and `best_ratio` / `best_position` follow the strict improvements.
   */
  method ScanBest(w: Windows) returns (bestRatio: real, bestPosition: int)
    ensures bestRatio == BestUpTo(w, Count(w)).ratio
    ensures bestPosition == Position(w, BestUpTo(w, Count(w)))
  {
    bestRatio := 0.0;
    bestPosition := -1;
    var i := 0;
    var j := 0;
    CountMeaning(w, 0);
    while i < |w.text| - w.width + 1
      invariant j <= Count(w) && i == Start(w, j)
      invariant bestRatio == BestUpTo(w, j).ratio
      invariant bestPosition == Position(w, BestUpTo(w, j))
      decreases Count(w) - j
    {
      CountMeaning(w, j);
      var ratio := w.sim(w.query, w.text[i..i + w.width]);
      assert ratio == Score(w, j);
      if ratio > bestRatio {
        bestRatio := ratio;
        bestPosition := i;
      }
      StartNext(w, j);
      i := i + w.step;
      j := j + 1;
    }
    CountMeaning(w, j);
  }

  /**
   * The loop of get_pdf_selection_rects.py's fuzzy_search_in_page: as
   * ScanBest, but it breaks out right after an improvement above Excellent.
   */
  method ScanEarly(w: Windows) returns (bestRatio: real, bestPosition: int)
    ensures bestRatio == EarlyUpTo(w, Count(w)).0.ratio
    ensures bestPosition == Position(w, EarlyUpTo(w, Count(w)).0)
  {
    bestRatio := 0.0;
    bestPosition := -1;
    var i := 0;
    var j := 0;
    CountMeaning(w, 0);
    while i < |w.text| - w.width + 1
      invariant j <= Count(w) && i == Start(w, j)
      invariant !EarlyUpTo(w, j).1
      invariant bestRatio == EarlyUpTo(w, j).0.ratio
      invariant bestPosition == Position(w, EarlyUpTo(w, j).0)
      decreases Count(w) - j
    {
      CountMeaning(w, j);
      var ratio := w.sim(w.query, w.text[i..i + w.width]);
      assert ratio == Score(w, j);
      if ratio > bestRatio {
        bestRatio := ratio;
        bestPosition := i;
        if ratio > Excellent {
          assert EarlyUpTo(w, j + 1) == (Best(ratio, j), true);
          EarlyStaysStopped(w, j + 1, Count(w));
          return;
        }
      }
      StartNext(w, j);
      i := i + w.step;
      j := j + 1;
    }
    CountMeaning(w, j);
  }
}
