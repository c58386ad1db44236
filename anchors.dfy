/**
 * find_text_by_start_and_end_anchors and get_text_blocks_between_rects of
 * find_text_in_pdf.py: locate a long passage by its two ends, then return
 * either the matches of the passage itself or every text line lying
 * vertically between the two anchors.
 */
module Anchors {
  import opened Wrappers
  import opened PyText
  import opened Whitespace
  import opened Geometry
  import opened PdfPage

  /** `page.search_for(s)`, retried with normalize_whitespace(s) when that finds nothing. */
  function SearchOrCollapsed(page: Page, s: string): seq<Rect> {
    if SearchRects(page, s) != [] then SearchRects(page, s) else SearchRects(page, CollapseWhitespace(s))
  }

  /** A line lies between the anchors: it starts no higher than the start anchor and ends no lower than the end anchor. */
  predicate InBand(line: Rect, startRect: Rect, endRect: Rect) {
    line.y0 >= startRect.y0 && line.y1 <= endRect.y1
  }

  /** The lines of a block; a block without "lines" is skipped. */
  function BlockLines(b: Block): seq<Line> {
    if b.lines.Some? then b.lines.value else []
  }

  /** The rectangles of the first `n` lines that lie between the anchors, in order. */
  function LinesInBand(lines: seq<Line>, startRect: Rect, endRect: Rect, n: nat): seq<Rect>
    requires n <= |lines|
  {
    if n == 0 then []
    else
      LinesInBand(lines, startRect, endRect, n - 1)
      + (if InBand(lines[n - 1].bbox, startRect, endRect) then [lines[n - 1].bbox] else [])
  }

  /** The lines between the anchors in the first `k` blocks, in block order. */
  function BandUpTo(blocks: seq<Block>, startRect: Rect, endRect: Rect, k: nat): seq<Rect>
    requires k <= |blocks|
  {
    if k == 0 then []
    else
      BandUpTo(blocks, startRect, endRect, k - 1)
      + LinesInBand(BlockLines(blocks[k - 1]), startRect, endRect, |BlockLines(blocks[k - 1])|)
  }

  /** get_text_blocks_between_rects' result: the lines between the anchors, or None when there are none. */
  function Band(blocks: seq<Block>, startRect: Rect, endRect: Rect): Option<seq<Rect>> {
    var rs := BandUpTo(blocks, startRect, endRect, |blocks|);
    if rs == [] then None else Some(rs)
  }

  lemma {:induction false} LinesInBandMeaning(lines: seq<Line>, startRect: Rect, endRect: Rect, n: nat)
    requires n <= |lines|
    ensures forall r :: r in LinesInBand(lines, startRect, endRect, n) ==> InBand(r, startRect, endRect)
    ensures forall j :: 0 <= j < n && InBand(lines[j].bbox, startRect, endRect) ==>
      lines[j].bbox in LinesInBand(lines, startRect, endRect, n)
    ensures forall r :: r in LinesInBand(lines, startRect, endRect, n) ==> exists j :: 0 <= j < n && r == lines[j].bbox
  {
    if n > 0 {
      LinesInBandMeaning(lines, startRect, endRect, n - 1);
    }
  }

  lemma {:induction false} BandUpToMeaning(blocks: seq<Block>, startRect: Rect, endRect: Rect, k: nat)
    requires k <= |blocks|
    ensures forall r :: r in BandUpTo(blocks, startRect, endRect, k) ==> InBand(r, startRect, endRect)
    ensures forall b, j :: 0 <= b < k && 0 <= j < |BlockLines(blocks[b])| && InBand(BlockLines(blocks[b])[j].bbox, startRect, endRect) ==>
      BlockLines(blocks[b])[j].bbox in BandUpTo(blocks, startRect, endRect, k)
  {
    if k > 0 {
      BandUpToMeaning(blocks, startRect, endRect, k - 1);
      var lines := BlockLines(blocks[k - 1]);
      LinesInBandMeaning(lines, startRect, endRect, |lines|);
    }
  }

  /** Every rectangle in the band of the first `k` blocks is the box of one of their lines. */
  lemma {:induction false} BandUpToLines(blocks: seq<Block>, startRect: Rect, endRect: Rect, k: nat)
    requires k <= |blocks|
    ensures forall r :: r in BandUpTo(blocks, startRect, endRect, k) ==>
      exists b, j :: 0 <= b < k && 0 <= j < |BlockLines(blocks[b])| && r == BlockLines(blocks[b])[j].bbox
  {
    if k > 0 {
      BandUpToLines(blocks, startRect, endRect, k - 1);
      var lines := BlockLines(blocks[k - 1]);
      LinesInBandMeaning(lines, startRect, endRect, |lines|);
      var prev := BandUpTo(blocks, startRect, endRect, k - 1);
      var last := LinesInBand(lines, startRect, endRect, |lines|);
      assert BandUpTo(blocks, startRect, endRect, k) == prev + last;
      forall r | r in prev + last
        ensures exists b, j :: 0 <= b < k && 0 <= j < |BlockLines(blocks[b])| && r == BlockLines(blocks[b])[j].bbox
      {
        if r in prev {
          var b, j :| 0 <= b < k - 1 && 0 <= j < |BlockLines(blocks[b])| && r == BlockLines(blocks[b])[j].bbox;
        } else {
          assert r in last;
          var j :| 0 <= j < |lines| && r == lines[j].bbox;
          assert r == BlockLines(blocks[k - 1])[j].bbox;
        }
      }
    }
  }

  /**
   * The band holds exactly the text lines that lie between the anchors:
   * each returned rectangle is the box of such a line of a block with
   * "lines", every such line is returned, and None means there is none.
   */
  lemma BandMeaning(blocks: seq<Block>, startRect: Rect, endRect: Rect)
    ensures var band := Band(blocks, startRect, endRect);
      && (band.Some? ==> band.value != [] && forall r :: r in band.value ==> InBand(r, startRect, endRect))
      && (band.Some? ==> forall r :: r in band.value ==>
            exists b, j :: 0 <= b < |blocks| && 0 <= j < |BlockLines(blocks[b])| && r == BlockLines(blocks[b])[j].bbox)
      && (forall b, j :: 0 <= b < |blocks| && 0 <= j < |BlockLines(blocks[b])| && InBand(BlockLines(blocks[b])[j].bbox, startRect, endRect) ==>
            band.Some? && BlockLines(blocks[b])[j].bbox in band.value)
  {
    BandUpToMeaning(blocks, startRect, endRect, |blocks|);
    BandUpToLines(blocks, startRect, endRect, |blocks|);
  }

  /** The boxes of every line of every block with "lines", in block order and then line order. */
  function LineBoxes(blocks: seq<Block>): seq<Rect> {
    if blocks == [] then []
    else
      var lines := BlockLines(blocks[0]);
      seq(|lines|, j requires 0 <= j < |lines| => lines[j].bbox) + LineBoxes(blocks[1..])
  }

  /** The rectangles of `rs` that lie between the anchors, in their order. */
  function KeepInBand(rs: seq<Rect>, startRect: Rect, endRect: Rect): seq<Rect> {
    if rs == [] then []
    else (if InBand(rs[0], startRect, endRect) then [rs[0]] else []) + KeepInBand(rs[1..], startRect, endRect)
  }

  lemma {:induction false} KeepInBandAppend(a: seq<Rect>, b: seq<Rect>, startRect: Rect, endRect: Rect)
    ensures KeepInBand(a + b, startRect, endRect) == KeepInBand(a, startRect, endRect) + KeepInBand(b, startRect, endRect)
  {
    if a != [] {
      assert (a + b)[0] == a[0] && (a + b)[1..] == a[1..] + b;
      KeepInBandAppend(a[1..], b, startRect, endRect);
    } else {
      assert a + b == b;
    }
  }

  lemma {:induction false} LinesInBandIsKept(lines: seq<Line>, startRect: Rect, endRect: Rect, n: nat)
    requires n <= |lines|
    ensures LinesInBand(lines, startRect, endRect, n)
      == KeepInBand(seq(n, j requires 0 <= j < n => lines[j].bbox), startRect, endRect)
  {
    if n > 0 {
      LinesInBandIsKept(lines, startRect, endRect, n - 1);
      var front := seq(n - 1, j requires 0 <= j < n - 1 => lines[j].bbox);
      assert seq(n, j requires 0 <= j < n => lines[j].bbox) == front + [lines[n - 1].bbox];
      KeepInBandAppend(front, [lines[n - 1].bbox], startRect, endRect);
      assert KeepInBand([lines[n - 1].bbox], startRect, endRect)
        == if InBand(lines[n - 1].bbox, startRect, endRect) then [lines[n - 1].bbox] else [];
    }
  }

  lemma {:induction false} LineBoxesSnoc(blocks: seq<Block>)
    requires blocks != []
    ensures var lines := BlockLines(blocks[|blocks| - 1]);
      LineBoxes(blocks) == LineBoxes(blocks[..|blocks| - 1]) + seq(|lines|, j requires 0 <= j < |lines| => lines[j].bbox)
  {
    if |blocks| > 1 {
      assert blocks[1..][..|blocks[1..]| - 1] == blocks[..|blocks| - 1][1..];
      assert blocks[1..][|blocks[1..]| - 1] == blocks[|blocks| - 1];
      LineBoxesSnoc(blocks[1..]);
    } else {
      assert blocks[1..] == [] && blocks[..0] == [];
    }
  }

  /**
   * The band is the in-band part of all line boxes, flattened in block and
   * line order: the order in which the two loops visit them.
   */
  lemma {:induction false} BandOrder(blocks: seq<Block>, startRect: Rect, endRect: Rect, k: nat)
    requires k <= |blocks|
    ensures BandUpTo(blocks, startRect, endRect, k) == KeepInBand(LineBoxes(blocks[..k]), startRect, endRect)
  {
    if k > 0 {
      BandOrder(blocks, startRect, endRect, k - 1);
      var lines := BlockLines(blocks[k - 1]);
      var boxes := seq(|lines|, j requires 0 <= j < |lines| => lines[j].bbox);
      LineBoxesSnoc(blocks[..k]);
      assert blocks[..k][..k - 1] == blocks[..k - 1] && blocks[..k][k - 1] == blocks[k - 1];
      KeepInBandAppend(LineBoxes(blocks[..k - 1]), boxes, startRect, endRect);
      LinesInBandIsKept(lines, startRect, endRect, |lines|);
    } else {
      assert blocks[..0] == [];
    }
  }

  /** get_text_blocks_between_rects returns the in-band line boxes in block and line order, or None when there are none. */
  lemma BandIsInBandLineBoxes(blocks: seq<Block>, startRect: Rect, endRect: Rect)
    ensures var kept := KeepInBand(LineBoxes(blocks), startRect, endRect);
      Band(blocks, startRect, endRect) == if kept == [] then None else Some(kept)
  {
    BandOrder(blocks, startRect, endRect, |blocks|);
    assert blocks[..|blocks|] == blocks;
  }

  /** get_text_blocks_between_rects, with its two loops over blocks and their lines. */
  method GetTextBlocksBetweenRects(page: Page, startRect: Rect, endRect: Rect) returns (r: Option<seq<Rect>>)
    ensures r == Band(page.blocks, startRect, endRect)
  {
    var blocks := page.blocks;
    var resultRects: seq<Rect> := [];
    for k := 0 to |blocks|
      invariant resultRects == BandUpTo(blocks, startRect, endRect, k)
    {
      var block := blocks[k];
      if block.lines.Some? {
        var lines := block.lines.value;
        ghost var before := resultRects;
        for j := 0 to |lines|
          invariant resultRects == before + LinesInBand(lines, startRect, endRect, j)
        {
          var lineRect := lines[j].bbox;
          var startY := startRect.y0;
          var endY := endRect.y1;
          if lineRect.y0 >= startY && lineRect.y1 <= endY {
            resultRects := resultRects + [lineRect];
          }
        }
      }
    }
    if resultRects == [] {
      return None;
    }
    return Some(resultRects);
  }

  /**
   * Where the passage starts: in the lower-cased whitespace-collapsed page
   * text, or failing that, case-sensitively in the raw page text.
   */
  function LocateFullText(pageText: string, fullText: string): Option<nat> {
    var i := Find(Lower(CollapseWhitespace(pageText)), Lower(CollapseWhitespace(fullText)));
    if i >= 0 then Some(i)
    else
      var j := Find(pageText, fullText);
      if j >= 0 then Some(j) else None
  }

  /** The passage is located exactly when it occurs in one of the two forms, at the first place it does. */
  lemma LocateFullTextMeaning(pageText: string, fullText: string)
    ensures LocateFullText(pageText, fullText).None? <==>
      NowhereIn(Lower(CollapseWhitespace(pageText)), Lower(CollapseWhitespace(fullText))) && NowhereIn(pageText, fullText)
    ensures LocateFullText(pageText, fullText).Some? ==>
      OccursAt(Lower(CollapseWhitespace(pageText)), Lower(CollapseWhitespace(fullText)), LocateFullText(pageText, fullText).value)
      || OccursAt(pageText, fullText, LocateFullText(pageText, fullText).value)
  {
    FindMissing(Lower(CollapseWhitespace(pageText)), Lower(CollapseWhitespace(fullText)));
    FindMissing(pageText, fullText);
  }

  /** The end anchor: the one given, or else the last 50 characters of a passage longer than 50. */
  function EndAnchor(fullText: string, endText: Option<string>): Option<string> {
    if endText.Some? then endText
    else if |fullText| > 50 then Some(fullText[|fullText| - 50..])
    else None
  }

  /** find_text_by_start_and_end_anchors' result (None where the source returns None). */
  function FindByAnchors(page: Page, fullText: string, startText: string, endText: Option<string>): Option<seq<Rect>> {
    var endAnchor := EndAnchor(fullText, endText);
    if endAnchor.None? then None
    else
      var startRects := SearchOrCollapsed(page, startText);
      if startRects == [] then None
      else
        var endRects := SearchOrCollapsed(page, endAnchor.value);
        if endRects == [] then None
        else Cover(page, fullText, LocateFullText(page.text, fullText), startRects[0], endRects[0])
  }

  /**
   * Once both anchors are found and the passage looked up (`at`): the
   * located text's own matches, or else the lines between the anchors.
   */
  function Cover(page: Page, fullText: string, at: Option<nat>, startRect: Rect, endRect: Rect): Option<seq<Rect>> {
    if at.None? then None
    else
      var fullRects := SearchRects(page, Slice(page.text, at.value, at.value + |fullText|));
      if fullRects != [] then Some(fullRects)
      else Band(page.blocks, startRect, endRect)
  }

  /**
   * A result is never empty; it needs both anchors and the passage located
   * on the page; it is the located text's own matches when there are any,
   * and otherwise exactly the band between the first start match and the
   * first end match, so everything BandMeaning proves about the band holds.
   */
  lemma FindByAnchorsMeaning(page: Page, fullText: string, startText: string, endText: Option<string>)
    requires FindByAnchors(page, fullText, startText, endText).Some?
    ensures FindByAnchors(page, fullText, startText, endText).value != []
    ensures EndAnchor(fullText, endText).Some?
    ensures SearchOrCollapsed(page, startText) != [] && SearchOrCollapsed(page, EndAnchor(fullText, endText).value) != []
    ensures LocateFullText(page.text, fullText).Some?
    ensures var at := LocateFullText(page.text, fullText).value;
      var rs := FindByAnchors(page, fullText, startText, endText).value;
      SearchRects(page, Slice(page.text, at, at + |fullText|)) != [] ==> rs == SearchRects(page, Slice(page.text, at, at + |fullText|))
    ensures var at := LocateFullText(page.text, fullText).value;
      var rs := FindByAnchors(page, fullText, startText, endText).value;
      SearchRects(page, Slice(page.text, at, at + |fullText|)) == [] ==>
        Some(rs) == Band(page.blocks, SearchOrCollapsed(page, startText)[0], SearchOrCollapsed(page, EndAnchor(fullText, endText).value)[0])
    ensures var at := LocateFullText(page.text, fullText).value;
      var rs := FindByAnchors(page, fullText, startText, endText).value;
      SearchRects(page, Slice(page.text, at, at + |fullText|)) == [] ==>
        forall r :: r in rs ==> InBand(r, SearchOrCollapsed(page, startText)[0], SearchOrCollapsed(page, EndAnchor(fullText, endText).value)[0])
  {
    var startRects := SearchOrCollapsed(page, startText);
    var endRects := SearchOrCollapsed(page, EndAnchor(fullText, endText).value);
    BandMeaning(page.blocks, startRects[0], endRects[0]);
  }

  /** Without an end anchor, a passage of at most 50 characters is never located this way. */
  lemma ShortTextHasNoEndAnchor(page: Page, fullText: string, startText: string)
    requires |fullText| <= 50
    ensures FindByAnchors(page, fullText, startText, None) == None
  {
  }

  /** find_text_by_start_and_end_anchors. `fullLength` is accepted as in the source and never read. */
  method FindTextByStartAndEndAnchors(page: Page, fullText: string, startText: string, fullLength: int, endText: Option<string>)
    returns (r: Option<seq<Rect>>)
    ensures r == FindByAnchors(page, fullText, startText, endText)
  {
    var end := endText;
    if end.None? {
      if |fullText| > 50 {
        end := Some(fullText[|fullText| - 50..]);
      } else {
        return None;
      }
    }
    var startRects := SearchRects(page, startText);
    if startRects == [] {
      startRects := SearchRects(page, CollapseWhitespace(startText));
    }
    if startRects == [] {
      return None;
    }
    assert end == EndAnchor(fullText, endText);
    assert startRects == SearchOrCollapsed(page, startText);
    var endRects := SearchRects(page, end.value);
    if endRects == [] {
      endRects := SearchRects(page, CollapseWhitespace(end.value));
    }
    if endRects == [] {
      return None;
    }
    assert endRects == SearchOrCollapsed(page, end.value);
    var at := FindPassageStart(page.text, fullText);
    r := CoverPassage(page, fullText, at, startRects[0], endRects[0]);
  }

  /** The second half of find_text_by_start_and_end_anchors, once the passage has been looked up. */
  method CoverPassage(page: Page, fullText: string, at: Option<nat>, startRect: Rect, endRect: Rect) returns (r: Option<seq<Rect>>)
    ensures r == Cover(page, fullText, at, startRect, endRect)
  {
    if at.None? {
      return None;
    }
    var textStartIdx := at.value;
    var actualText := Slice(page.text, textStartIdx, textStartIdx + |fullText|);
    var fullRects := SearchRects(page, actualText);
    if fullRects != [] {
      return Some(fullRects);
    }
    r := GetTextBlocksBetweenRects(page, startRect, endRect);
  }

  /** The two `find` calls of find_text_by_start_and_end_anchors, normalised first, then raw. */
  method FindPassageStart(pageText: string, fullText: string) returns (at: Option<nat>)
    ensures at == LocateFullText(pageText, fullText)
  {
    var textStartIdx := Find(Lower(CollapseWhitespace(pageText)), Lower(CollapseWhitespace(fullText)));
    if textStartIdx == -1 {
      textStartIdx := Find(pageText, fullText);
      if textStartIdx == -1 {
        return None;
      }
    }
    return Some(textStartIdx);
  }
}
