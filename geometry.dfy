/**
 * PyMuPDF geometry as the scripts see it, and the JSON rectangle that
 * format_results emits.
 */
module Geometry {
  datatype Point = Point(x: real, y: real)

  /** `fitz.Rect(x0, y0, x1, y1)`: the four coordinates are stored as given. */
  datatype Rect = Rect(x0: real, y0: real, x1: real, y1: real)

  /** `fitz.Quad`: four corners, as `search_for(..., quads=True)` returns them. */
  datatype Quad = Quad(ul: Point, ur: Point, ll: Point, lr: Point)

  /** An item handed to format_results: a Rect, or a Quad (which has a `.rect`). */
  datatype Hit = RectHit(rect: Rect) | QuadHit(quad: Quad)

  /** One result dict `{x, y, width, height}`. */
  datatype Box = Box(x: real, y: real, width: real, height: real)

  function Min(a: real, b: real): real { if a <= b then a else b }

  function Max(a: real, b: real): real { if a <= b then b else a }

  predicate WellFormed(r: Rect) { r.x0 <= r.x1 && r.y0 <= r.y1 }

  predicate Contains(r: Rect, p: Point) { r.x0 <= p.x <= r.x1 && r.y0 <= p.y <= r.y1 }

  /** `Quad.rect`: the smallest rectangle that contains the four corners. */
  function Envelope(q: Quad): Rect {
    Rect(Min(Min(q.ul.x, q.ur.x), Min(q.ll.x, q.lr.x)), Min(Min(q.ul.y, q.ur.y), Min(q.ll.y, q.lr.y)),
         Max(Max(q.ul.x, q.ur.x), Max(q.ll.x, q.lr.x)), Max(Max(q.ul.y, q.ur.y), Max(q.ll.y, q.lr.y)))
  }

  /** A quad's rectangle is well formed and contains all four corners. */
  lemma EnvelopeMeaning(q: Quad)
    ensures WellFormed(Envelope(q))
    ensures Contains(Envelope(q), q.ul) && Contains(Envelope(q), q.ur) && Contains(Envelope(q), q.ll) && Contains(Envelope(q), q.lr)
  {
  }

  /** format_results' dispatch: a Quad is first reduced to its `.rect`, a Rect is used as it is. */
  function HitRect(h: Hit): Rect {
    match h
    case RectHit(r) => r
    case QuadHit(q) => Envelope(q)
  }

  /** The corners a result dict describes. */
  function Corners(b: Box): Rect {
    Rect(b.x, b.y, b.x + b.width, b.y + b.height)
  }

  /** One result dict: x = x0, y = y0, width = x1 - x0, height = y1 - y0, so it describes exactly `r`. */
  function ToBox(r: Rect): (b: Box)
    ensures Corners(b) == r
    ensures b.x == r.x0 && b.y == r.y0
    ensures WellFormed(r) ==> b.width >= 0.0 && b.height >= 0.0
  {
    Box(r.x0, r.y0, r.x1 - r.x0, r.y1 - r.y0)
  }

  /** The results of format_results: one dict per item, in the same order. */
  function Boxes(items: seq<Hit>): seq<Box> {
    seq(|items|, i requires 0 <= i < |items| => ToBox(HitRect(items[i])))
  }

  /** One dict per item, describing exactly that item's rectangle. */
  lemma BoxesMeaning(items: seq<Hit>)
    ensures |Boxes(items)| == |items|
    ensures forall i :: 0 <= i < |items| ==> Corners(Boxes(items)[i]) == HitRect(items[i])
  {
  }

  /** A dict made from a Quad never has a negative width or height. */
  lemma QuadBoxesNonNegative(items: seq<Hit>, i: nat)
    requires i < |items| && items[i].QuadHit?
    ensures Boxes(items)[i].width >= 0.0 && Boxes(items)[i].height >= 0.0
  {
  }

  function RectHits(rs: seq<Rect>): (hs: seq<Hit>)
    ensures |hs| == |rs| && forall i :: 0 <= i < |rs| ==> HitRect(hs[i]) == rs[i]
  {
    seq(|rs|, i requires 0 <= i < |rs| => RectHit(rs[i]))
  }

  /** format_results (identical in both scripts): builds the list of dicts by appending. */
  method FormatResults(items: seq<Hit>) returns (results: seq<Box>)
    ensures results == Boxes(items)
  {
    results := [];
    for k := 0 to |items|
      invariant |results| == k
      invariant forall i :: 0 <= i < k ==> results[i] == ToBox(HitRect(items[i]))
    {
      var rect := match items[k] case QuadHit(q) => Envelope(q) case RectHit(r) => r;
      results := results + [Box(rect.x0, rect.y0, rect.x1 - rect.x0, rect.y1 - rect.y0)];
    }
  }
}
