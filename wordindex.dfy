/**
 * get_words_in_range (the same code in find_text_in_pdf.py and
 * get_pdf_selection_rects.py): maps a character range to the rectangles of
 * the words it touches, giving each word a synthetic offset.
 */
module WordIndex {
  import opened Geometry
  import opened PdfPage

  /** The total length of the texts of the first `n` words. */
  function LengthBefore(words: seq<WordBox>, n: nat): nat
    requires n <= |words|
  {
    if n == 0 then 0 else LengthBefore(words, n - 1) + |words[n - 1].text|
  }

  /** The synthetic offset of word `i`: the lengths of the earlier words plus one space after each. */
  function WordStart(words: seq<WordBox>, i: nat): nat
    requires i <= |words|
  {
    LengthBefore(words, i) + i
  }

  function WordEnd(words: seq<WordBox>, i: nat): nat
    requires i < |words|
  {
    WordStart(words, i) + |words[i].text|
  }

  /** The half-open overlap test `word_end > start_pos and word_start < end_pos`. */
  predicate Overlaps(words: seq<WordBox>, i: nat, startPos: int, endPos: int)
    requires i < |words|
  {
    WordEnd(words, i) > startPos && WordStart(words, i) < endPos
  }

  /** Consecutive words are exactly one synthetic space apart, so offsets strictly increase. */
  lemma OffsetsContiguous(words: seq<WordBox>, i: nat)
    requires i + 1 < |words|
    ensures WordStart(words, i + 1) == WordEnd(words, i) + 1
    ensures WordStart(words, i) < WordStart(words, i + 1)
  {
  }

  /** The indices of the words among the first `n` that overlap the range, in increasing order. */
  function SelectedUpTo(words: seq<WordBox>, startPos: int, endPos: int, n: nat): (idx: seq<nat>)
    requires n <= |words|
    ensures forall k :: 0 <= k < |idx| ==> idx[k] < n && Overlaps(words, idx[k], startPos, endPos)
    ensures forall k, l :: 0 <= k < l < |idx| ==> idx[k] < idx[l]
    ensures forall i :: 0 <= i < n && Overlaps(words, i, startPos, endPos) ==> i in idx
  {
    if n == 0 then []
    else SelectedUpTo(words, startPos, endPos, n - 1) + (if Overlaps(words, n - 1, startPos, endPos) then [n - 1] else [])
  }

  function RectsAt(words: seq<WordBox>, idx: seq<nat>): (rs: seq<Rect>)
    requires forall k :: 0 <= k < |idx| ==> idx[k] < |words|
    ensures |rs| == |idx| && forall k :: 0 <= k < |idx| ==> rs[k] == words[idx[k]].rect
  {
    seq(|idx|, k requires 0 <= k < |idx| => words[idx[k]].rect)
  }

  /** The indices of the words that get_words_in_range returns. */
  function Selected(words: seq<WordBox>, startPos: int, endPos: int): seq<nat> {
    SelectedUpTo(words, startPos, endPos, |words|)
  }

  /** What get_words_in_range returns: the rectangles of the selected words, in word order. */
  function WordsInRange(words: seq<WordBox>, startPos: int, endPos: int): seq<Rect> {
    RectsAt(words, Selected(words, startPos, endPos))
  }

  /**
   * A word is selected exactly when its synthetic range overlaps
   * [startPos, endPos); the result is the selected words' rectangles, as an
   * order-preserving subsequence of the word list.
   */
  lemma WordsInRangeMeaning(words: seq<WordBox>, startPos: int, endPos: int)
    ensures var idx := Selected(words, startPos, endPos);
      && (forall i :: 0 <= i < |words| ==> (i in idx <==> Overlaps(words, i, startPos, endPos)))
      && (forall k, l :: 0 <= k < l < |idx| ==> idx[k] < idx[l])
      && |WordsInRange(words, startPos, endPos)| == |idx|
      && (forall k :: 0 <= k < |idx| ==> WordsInRange(words, startPos, endPos)[k] == words[idx[k]].rect)
  {
  }

  /** Offsets start at 0, so a range that ends at or before 0 selects nothing. */
  lemma RangeBeforeTextSelectsNothing(words: seq<WordBox>, startPos: int, endPos: int)
    requires endPos <= 0
    ensures WordsInRange(words, startPos, endPos) == []
  {
    NoneSelectedUpTo(words, startPos, endPos, |words|);
  }

  lemma {:induction false} NoneSelectedUpTo(words: seq<WordBox>, startPos: int, endPos: int, n: nat)
    requires endPos <= 0 && n <= |words|
    ensures SelectedUpTo(words, startPos, endPos, n) == []
  {
    if n > 0 {
      NoneSelectedUpTo(words, startPos, endPos, n - 1);
      assert !Overlaps(words, n - 1, startPos, endPos);
    }
  }

  /**
   * get_words_in_range: walks the words once, advancing a `char_pos`
   * accumulator by each word's length plus one. `pageText` is accepted as in
   * the source and never read.
   */
  method GetWordsInRange(page: Page, startPos: int, endPos: int, pageText: string) returns (wordRects: seq<Rect>)
    ensures wordRects == WordsInRange(page.words, startPos, endPos)
  {
    var words := page.words;
    var charPos := 0;
    wordRects := [];
    for i := 0 to |words|
      invariant charPos == WordStart(words, i)
      invariant wordRects == RectsAt(words, SelectedUpTo(words, startPos, endPos, i))
    {
      var wordStart := charPos;
      var wordEnd := charPos + |words[i].text|;
      if wordEnd > startPos && wordStart < endPos {
        wordRects := wordRects + [words[i].rect];
      }
      charPos := wordEnd + 1;
    }
  }
}
