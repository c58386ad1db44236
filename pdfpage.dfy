/**
 * One PDF page as the scripts query it. PyMuPDF itself is not modelled: its
 * answers are data (`get_text()`, `get_text("words")`, `get_text("dict")`,
 * `page.rect`) or an uninterpreted function (`search_for`).
 */
module PdfPage {
  import opened Wrappers
  import opened Geometry

  /** One entry of `get_text("words")`: its rectangle and its text (block, line and word numbers are unused). */
  datatype WordBox = WordBox(rect: Rect, text: string)

  /** One line of a `get_text("dict")` block; only its bbox is read. */
  datatype Line = Line(bbox: Rect)

  /** One block of `get_text("dict")`; `lines` is None for a block without a "lines" key (an image block). */
  datatype Block = Block(lines: Option<seq<Line>>)

  /**
   * `text` is `get_text()`, `words` is `get_text("words")`, `blocks` is
   * `get_text("dict")["blocks"]`, `bounds` is `page.rect`, and `searchFor`
   * is `search_for(s, quads=True)`.
   */
  datatype Page = Page(
    text: string,
    words: seq<WordBox>,
    blocks: seq<Block>,
    bounds: Rect,
    searchFor: string -> seq<Quad>)

  /** `page.search_for(s, quads=True)` */
  function SearchQuads(page: Page, s: string): (hs: seq<Hit>)
    ensures |hs| == |page.searchFor(s)|
    ensures forall i :: 0 <= i < |hs| ==> hs[i] == QuadHit(page.searchFor(s)[i])
  {
    seq(|page.searchFor(s)|, i requires 0 <= i < |page.searchFor(s)| => QuadHit(page.searchFor(s)[i]))
  }

  /** `page.search_for(s)`: the same matches, each as the rectangle around its quad. */
  function SearchRects(page: Page, s: string): (rs: seq<Rect>)
    ensures |rs| == |page.searchFor(s)|
    ensures forall i :: 0 <= i < |rs| ==> rs[i] == Envelope(page.searchFor(s)[i])
  {
    seq(|page.searchFor(s)|, i requires 0 <= i < |page.searchFor(s)| => Envelope(page.searchFor(s)[i]))
  }

  /** Each rectangle `search_for` gives is well formed and contains the four corners of its match's quad. */
  lemma SearchRectsMeaning(page: Page, s: string)
    ensures |SearchRects(page, s)| == |page.searchFor(s)|
    ensures forall i :: 0 <= i < |SearchRects(page, s)| ==> WellFormed(SearchRects(page, s)[i])
    ensures forall i :: 0 <= i < |SearchRects(page, s)| ==>
      Contains(SearchRects(page, s)[i], page.searchFor(s)[i].ul) && Contains(SearchRects(page, s)[i], page.searchFor(s)[i].ur)
      && Contains(SearchRects(page, s)[i], page.searchFor(s)[i].ll) && Contains(SearchRects(page, s)[i], page.searchFor(s)[i].lr)
  {
    forall i | 0 <= i < |SearchRects(page, s)|
      ensures WellFormed(SearchRects(page, s)[i])
      ensures Contains(SearchRects(page, s)[i], page.searchFor(s)[i].ul) && Contains(SearchRects(page, s)[i], page.searchFor(s)[i].ur)
      ensures Contains(SearchRects(page, s)[i], page.searchFor(s)[i].ll) && Contains(SearchRects(page, s)[i], page.searchFor(s)[i].lr)
    {
      EnvelopeMeaning(page.searchFor(s)[i]);
    }
  }
}
