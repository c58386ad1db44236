/**
 * get_pdf_selection_rects.py: the reduced copy of the search cascade used
 * for text selections. It has its own whitespace normaliser
 * (`' '.join(text.split())`), a shorter aggressive normaliser, a fuzzy scan
 * that stops at the first excellent window, and four strategies.
 * get_words_in_range and format_results are the same code as in
 * find_text_in_pdf.py and are shared (WordIndex, Geometry).
 */
module SelectionRects {
  import opened PyText
  import opened Whitespace
  import opened Aggressive
  import opened Geometry
  import opened PdfPage
  import opened WordIndex
  import opened Scan
  import opened FindText

  // ----- normalize_whitespace -----

  /** normalize_whitespace: the words of `str.split()` joined by single spaces. */
  function NormalizeWhitespace(s: string): string {
    Join(Split(s), ' ')
  }

  ghost predicate AllWords(ws: seq<string>) {
    forall k :: 0 <= k < |ws| ==> IsWord(ws[k])
  }

  /** `TakeWord` stops exactly at the end of a word followed by whitespace or nothing. */
  lemma {:induction false} TakeWordOf(w: string, r: string)
    requires forall i :: 0 <= i < |w| ==> !IsSpace(w[i])
    requires r == [] || IsSpace(r[0])
    ensures TakeWord(w + r) == w
  {
    if w == [] {
      assert w + r == r;
    } else {
      assert (w + r)[1..] == w[1..] + r;
      TakeWordOf(w[1..], r);
    }
  }

  /** Joining `w` to a collapsed text that starts with a non-whitespace character keeps it collapsed. */
  lemma JoinStepCollapsed(w: string, r: string)
    requires IsWord(w) && Collapsed(r) && r != [] && !IsSpace(r[0])
    ensures Collapsed(w + [' '] + r)
  {
    var s := w + [' '] + r;
    forall c | c in s && IsSpace(c)
      ensures c == ' '
    {
      var k :| 0 <= k < |s| && s[k] == c;
      if k > |w| {
        assert s[k] == r[k - |w| - 1];
      }
    }
    forall i | 0 <= i < |s| - 1
      ensures !(IsSpace(s[i]) && IsSpace(s[i + 1]))
    {
      if i < |w| - 1 {
        assert s[i] == w[i];
      } else if i == |w| - 1 {
        assert s[i] == w[i];
      } else if i == |w| {
        assert s[i + 1] == r[0];
      } else {
        assert s[i] == r[i - |w| - 1] && s[i + 1] == r[i - |w|];
      }
    }
  }

  /**
   * Words joined by single spaces: empty exactly for no words, collapsed,
   * and starting and ending with the first and last word's characters.
   */
  lemma {:induction false} JoinWords(ws: seq<string>)
    requires AllWords(ws)
    ensures (Join(ws, ' ') == []) <==> (ws == [])
    ensures ws != [] ==> Join(ws, ' ')[0] == ws[0][0]
    ensures ws != [] ==> Join(ws, ' ')[|Join(ws, ' ')| - 1] == ws[|ws| - 1][|ws[|ws| - 1]| - 1]
    ensures Collapsed(Join(ws, ' '))
  {
    if |ws| == 1 {
      var w := ws[0];
      assert Join(ws, ' ') == w;
      forall c | c in w
        ensures !IsSpace(c)
      {
        var k :| 0 <= k < |w| && w[k] == c;
      }
    } else if |ws| > 1 {
      var w := ws[0];
      var rest := ws[1..];
      assert AllWords(rest) by {
        forall k | 0 <= k < |rest| ensures IsWord(rest[k]) {
          assert rest[k] == ws[k + 1];
        }
      }
      JoinWords(rest);
      var r := Join(rest, ' ');
      assert Join(ws, ' ') == w + [' '] + r;
      assert rest[|rest| - 1] == ws[|ws| - 1];
      JoinStepCollapsed(w, r);
    }
  }

  /** `LStrip` skips one leading whitespace character and goes on. */
  lemma LStripSpace(c: char, r: string)
    requires IsSpace(c)
    ensures LStrip([c] + r) == LStrip(r)
  {
    var s := [c] + r;
    assert s[0] == c && s[1..] == r;
    assert LStrip(s) == LStrip(s[1..]);
  }

  /** `split()` of a single word. */
  lemma SplitWord(w: string)
    requires IsWord(w)
    ensures Split(w) == [w]
  {
    assert LStrip(w) == w;
    TakeWordOf(w, []);
    assert w + [] == w;
    assert w[|w|..] == [];
  }

  /** `split()` of a word, a space and a text starting with a non-whitespace character. */
  lemma SplitFirstWord(w: string, r: string)
    requires IsWord(w) && r != [] && !IsSpace(r[0])
    ensures Split(w + [' '] + r) == [w] + Split(r)
  {
    var s := w + [' '] + r;
    assert s == w + ([' '] + r);
    assert LStrip(s) == s;
    TakeWordOf(w, [' '] + r);
    assert s[|w|..] == [' '] + r;
    LStripSpace(' ', r);
    assert LStrip(r) == r;
    assert Split([' '] + r) == Split(r);
  }

  lemma HeadTail(ws: seq<string>)
    requires ws != []
    ensures ws == [ws[0]] + ws[1..]
  {
  }

  /** Splitting words that were joined by single spaces gives the words back. */
  lemma {:induction false} SplitJoin(ws: seq<string>)
    requires AllWords(ws)
    ensures Split(Join(ws, ' ')) == ws
  {
    if |ws| == 1 {
      assert Join(ws, ' ') == ws[0];
      SplitWord(ws[0]);
    } else if |ws| > 1 {
      var rest := ws[1..];
      HeadTail(ws);
      assert AllWords(rest) by {
        forall k | 0 <= k < |rest| ensures IsWord(rest[k]) {
          assert rest[k] == ws[k + 1];
        }
      }
      JoinWords(rest);
      SplitJoin(rest);
      assert Join(ws, ' ') == ws[0] + [' '] + Join(rest, ' ');
      SplitFirstWord(ws[0], Join(rest, ' '));
    }
  }

  /**
   * normalize_whitespace gives collapsed text without whitespace at either
   * end, empty exactly when the input is all whitespace, and with the same
   * words as the input.
   */
  lemma NormalizeWhitespaceMeaning(s: string)
    ensures Collapsed(NormalizeWhitespace(s)) && Trimmed(NormalizeWhitespace(s))
    ensures NormalizeWhitespace(s) == [] <==> forall i :: 0 <= i < |s| ==> IsSpace(s[i])
    ensures Split(NormalizeWhitespace(s)) == Split(s)
  {
    var ws := Split(s);
    SplitWords(s);
    JoinWords(ws);
    JoinTrimmed(ws);
    SplitJoin(ws);
    SplitEmpty(s);
  }

  /** Words joined by single spaces have no whitespace at either end. */
  lemma JoinTrimmed(ws: seq<string>)
    requires AllWords(ws)
    ensures Trimmed(Join(ws, ' '))
  {
    JoinWords(ws);
    if ws != [] {
      assert IsWord(ws[0]) && IsWord(ws[|ws| - 1]);
    }
  }

  /** `split()` finds no word exactly in all-whitespace text. */
  lemma SplitEmpty(s: string)
    ensures Split(s) == [] <==> forall i :: 0 <= i < |s| ==> IsSpace(s[i])
  {
    var t := LStrip(s);
    if t != [] {
      assert !IsSpace(s[|s| - |t|]);
    }
  }

  /** normalize_whitespace is idempotent. */
  lemma NormalizeWhitespaceIdempotent(s: string)
    ensures NormalizeWhitespace(NormalizeWhitespace(s)) == NormalizeWhitespace(s)
  {
    NormalizeWhitespaceMeaning(s);
  }

  // ----- normalize_text_aggressive (the selection script's version) -----

  /** The selection script's normalize_text_aggressive: quotes, dashes, soft hyphens, whitespace, then `strip()`. */
  function NormalizeLite(s: string): string {
    Strip(CollapseWhitespace(DropSoftHyphens(FoldDashes(FoldQuotes(s)))))
  }

  /**
   * Its output has no quote, no dash code point, no soft hyphen, only
   * single plain spaces, no whitespace at either end, and is never longer
   * than its input.
   */
  lemma LiteClean(s: string)
    ensures |NormalizeLite(s)| <= |s|
    ensures NoQuotes(NormalizeLite(s)) && NoDashes(NormalizeLite(s)) && SoftHyphen !in NormalizeLite(s)
    ensures Collapsed(NormalizeLite(s)) && Trimmed(NormalizeLite(s))
  {
    var c := DropSoftHyphens(FoldDashes(FoldQuotes(s)));
    LiteCharPasses(s);
    LiteSpacePasses(c);
  }

  /** The character passes remove every quote, dash code point and soft hyphen. */
  lemma LiteCharPasses(s: string)
    ensures |DropSoftHyphens(FoldDashes(FoldQuotes(s)))| <= |s|
    ensures var c := DropSoftHyphens(FoldDashes(FoldQuotes(s)));
      NoQuotes(c) && NoDashes(c) && SoftHyphen !in c
  {
    var b := FoldDashes(FoldQuotes(s));
    assert NoQuotes(b) && NoDashes(b);
    DropSoftHyphensFacts(b);
  }

  /** Collapsing and stripping keep those characters out, and leave single spaces and trimmed ends. */
  lemma LiteSpacePasses(c: string)
    requires NoQuotes(c) && NoDashes(c) && SoftHyphen !in c
    ensures |Strip(CollapseWhitespace(c))| <= |c|
    ensures NoQuotes(Strip(CollapseWhitespace(c))) && NoDashes(Strip(CollapseWhitespace(c)))
    ensures SoftHyphen !in Strip(CollapseWhitespace(c))
    ensures Collapsed(Strip(CollapseWhitespace(c))) && Trimmed(Strip(CollapseWhitespace(c)))
  {
    var e := CollapseWhitespace(c);
    CollapseIsCollapsed(c);
    CollapseChars(c);
    assert NoQuotes(e) && NoDashes(e) && SoftHyphen !in e;
    StripKeepsChars(e);
    StripCollapsed(e);
  }

  /** Stripping collapsed text leaves it collapsed. */
  lemma StripCollapsed(e: string)
    requires Collapsed(e)
    ensures Collapsed(Strip(e))
  {
    StripKeepsChars(e);
    StripKeepsPairs(e);
    var r := Strip(e);
    var lo := |e| - |LStrip(e)|;
    forall i | 0 <= i < |r| - 1
      ensures !(IsSpace(r[i]) && IsSpace(r[i + 1]))
    {
      assert r[i] == e[lo + i] && r[i + 1] == e[lo + i + 1];
    }
  }

  /** The selection script's normalize_text_aggressive is idempotent. */
  lemma LiteIdempotent(s: string)
    ensures NormalizeLite(NormalizeLite(s)) == NormalizeLite(s)
  {
    var r := NormalizeLite(s);
    LiteClean(s);
    FoldQuotesFixes(r);
    FoldDashesFixes(r);
    DropSoftHyphensFixes(r);
    CollapseFixesCollapsed(r);
    StripUnchanged(r);
  }

  // ----- fuzzy_search_in_page (the selection script's version) -----

  /** `5 if search_len < 100 else 10` */
  function SelectionStep(n: nat): (s: Pos)
    ensures s == 5 || s == 10
    ensures s == 5 <==> n < 100
  {
    if n < 100 then 5 else 10
  }

  /**
   * The two scripts' window steps agree exactly below 100 characters and from
   * 200 on; in between the selection script steps by 10 where the other
   * steps by `len // 20`, which is less.
   */
  lemma StepsCompared(n: nat)
    ensures SelectionStep(n) == FuzzyStep(n) <==> n < 100 || n >= 200
    ensures 100 <= n < 200 ==> FuzzyStep(n) < SelectionStep(n)
  {
  }

  function SelectionWindows(page: Page, searchText: string, sim: (string, string) -> Ratio): Windows {
    Windows(sim, Lower(NormalizeLite(searchText)), Lower(NormalizeLite(page.text)),
            |searchText|, SelectionStep(|searchText|))
  }

  /**
   * The result of the selection script's fuzzy search over windows `w` of a
   * query of `n` characters: the early-exit scan's window, and its words
   * when its ratio reaches the threshold (which is never raised here).
   */
  function EarlyOver(words: seq<WordBox>, w: Windows, threshold: real, n: nat): FuzzyResult {
    var best := EarlyUpTo(w, Count(w)).0;
    var pos := Position(w, best);
    if best.ratio >= threshold then FuzzyResult(WordsInRange(words, pos, pos + n), best.ratio)
    else FuzzyResult([], best.ratio)
  }

  function SelectionFuzzy(page: Page, searchText: string, threshold: real, sim: (string, string) -> Ratio): FuzzyResult {
    EarlyOver(page.words, SelectionWindows(page, searchText, sim), threshold, |searchText|)
  }

  /**
   * A hit reaches the threshold, its ratio is the score of a real window,
   * every window scanned before the stop scores no more, and the rectangles
   * are the words overlapping that window, taken as `n` characters.
   */
  lemma EarlyHitMeaning(words: seq<WordBox>, w: Windows, threshold: real, n: nat)
    requires threshold > 0.0
    requires EarlyOver(words, w, threshold, n).rects != []
    ensures EarlyOver(words, w, threshold, n).ratio >= threshold
    ensures 0 <= EarlyUpTo(w, Count(w)).0.window < Count(w)
    ensures Score(w, EarlyUpTo(w, Count(w)).0.window) == EarlyOver(words, w, threshold, n).ratio
    ensures forall j :: 0 <= j <= EarlyUpTo(w, Count(w)).0.window ==> Score(w, j) <= EarlyOver(words, w, threshold, n).ratio
    ensures EarlyOver(words, w, threshold, n).rects ==
      WordsInRange(words, Start(w, EarlyUpTo(w, Count(w)).0.window), Start(w, EarlyUpTo(w, Count(w)).0.window) + n)
  {
    EarlyUpToMeaning(w, Count(w));
  }

  /** Without an excellent window the selection script's fuzzy search agrees with the full scan's. */
  lemma EarlyAgreesWithoutExcellent(words: seq<WordBox>, w: Windows, threshold: real, n: nat)
    requires forall j :: 0 <= j < Count(w) ==> Score(w, j) <= Excellent
    ensures EarlyOver(words, w, threshold, n) == FuzzyOver(words, w, threshold, n) <== n >= 50 || threshold >= 0.9
  {
    EarlyIsFullWithoutExcellent(w, Count(w));
  }

  /** The selection script's fuzzy_search_in_page. */
  method SelectionFuzzySearch(page: Page, searchText: string, threshold: real, sim: (string, string) -> Ratio)
    returns (wordRects: seq<Rect>, bestRatio: real)
    ensures FuzzyResult(wordRects, bestRatio) == SelectionFuzzy(page, searchText, threshold, sim)
  {
    var pageText := page.text;
    var searchLen := |searchText|;
    var stepSize := SelectionStep(searchLen);
    var searchNormalized := Lower(NormalizeLite(searchText));
    var pageNormalized := Lower(NormalizeLite(pageText));
    var w := Windows(sim, searchNormalized, pageNormalized, searchLen, stepSize);
    assert w == SelectionWindows(page, searchText, sim);
    wordRects, bestRatio := EarlyOverWindows(page, w, threshold, searchLen);
  }

  /** The early-exit scan and the look-up of the words, once the windows are known. */
  method EarlyOverWindows(page: Page, w: Windows, threshold: real, searchLen: nat) returns (wordRects: seq<Rect>, bestRatio: real)
    ensures FuzzyResult(wordRects, bestRatio) == EarlyOver(page.words, w, threshold, searchLen)
  {
    var bestPosition;
    bestRatio, bestPosition := ScanEarly(w);
    if bestRatio >= threshold {
      wordRects := GetWordsInRange(page, bestPosition, bestPosition + searchLen, page.text);
      return;
    }
    return [], bestRatio;
  }

  // ----- get_selection_rectangles -----

  datatype Stage = ExactQuads | WhitespaceQuads | AggressiveQuads | FuzzyWords

  /** The winning strategy and its items, or nothing. */
  datatype Selected = Selected(stage: Stage, hits: seq<Hit>) | Unmatched

  /** The answers of the four strategies, each computed on its own. */
  datatype Tries = Tries(exact: seq<Hit>, whitespace: seq<Hit>, aggressive: seq<Hit>, fuzzy: seq<Rect>)

  function SelectionTries(page: Page, selectedText: string, sim: (string, string) -> Ratio): Tries {
    Tries(SearchQuads(page, selectedText), SearchQuads(page, NormalizeWhitespace(selectedText)),
          SearchQuads(page, NormalizeLite(selectedText)), SelectionFuzzy(page, selectedText, 0.85, sim).rects)
  }

  /** The first non-empty answer, in the order of the strategies. */
  function Pick(t: Tries): Selected {
    if t.exact != [] then Selected(ExactQuads, t.exact)
    else if t.whitespace != [] then Selected(WhitespaceQuads, t.whitespace)
    else if t.aggressive != [] then Selected(AggressiveQuads, t.aggressive)
    else if t.fuzzy != [] then Selected(FuzzyWords, RectHits(t.fuzzy))
    else Unmatched
  }

  /**
   * A strategy wins only when all earlier ones found nothing; nothing is
   * selected exactly when all four found nothing; a winner is never empty
   * and is the answer of its own strategy.
   */
  lemma PickMeaning(t: Tries)
    ensures Pick(t).Unmatched? <==> t.exact == [] && t.whitespace == [] && t.aggressive == [] && t.fuzzy == []
    ensures Pick(t).Selected? ==> Pick(t).hits != []
    ensures Pick(t).Selected? && Pick(t).stage == ExactQuads ==> Pick(t).hits == t.exact
    ensures Pick(t).Selected? && Pick(t).stage == WhitespaceQuads ==> t.exact == [] && Pick(t).hits == t.whitespace
    ensures Pick(t).Selected? && Pick(t).stage == AggressiveQuads ==>
      t.exact == [] && t.whitespace == [] && Pick(t).hits == t.aggressive
    ensures Pick(t).Selected? && Pick(t).stage == FuzzyWords ==>
      t.exact == [] && t.whitespace == [] && t.aggressive == [] && Pick(t).hits == RectHits(t.fuzzy)
  {
  }

  function Select(page: Page, selectedText: string, sim: (string, string) -> Ratio): Selected {
    Pick(SelectionTries(page, selectedText, sim))
  }

  /** The rectangles returned for a selection. */
  function SelectionResults(page: Page, selectedText: string, sim: (string, string) -> Ratio): seq<Box> {
    var s := Select(page, selectedText, sim);
    if s.Selected? then Boxes(s.hits) else []
  }

  /** A fuzzy win has a ratio of at least 0.85 and covers the words of the window that scored it. */
  lemma FuzzyWinMeaning(page: Page, selectedText: string, sim: (string, string) -> Ratio)
    requires Select(page, selectedText, sim).Selected? && Select(page, selectedText, sim).stage == FuzzyWords
    ensures SelectionFuzzy(page, selectedText, 0.85, sim).ratio >= 0.85
    ensures Select(page, selectedText, sim).hits == RectHits(SelectionFuzzy(page, selectedText, 0.85, sim).rects)
  {
    var t := SelectionTries(page, selectedText, sim);
    PickMeaning(t);
    EarlyHitMeaning(page.words, SelectionWindows(page, selectedText, sim), 0.85, |selectedText|);
  }

  /** get_selection_rectangles on one page. */
  method GetSelectionRectangles(page: Page, selectedText: string, sim: (string, string) -> Ratio) returns (results: seq<Box>)
    ensures results == SelectionResults(page, selectedText, sim)
  {
    ghost var t := SelectionTries(page, selectedText, sim);
    ghost var picked := Pick(t);
    assert SelectionResults(page, selectedText, sim) == if picked.Selected? then Boxes(picked.hits) else [];
    // Strategy 1
    var quads := SearchQuads(page, selectedText);
    assert quads == t.exact;
    if quads != [] {
      results := FormatResults(quads);
      assert Pick(t) == Selected(ExactQuads, quads);
      return;
    }
    // Strategy 2
    var normalized := NormalizeWhitespace(selectedText);
    quads := SearchQuads(page, normalized);
    assert quads == t.whitespace;
    if quads != [] {
      results := FormatResults(quads);
      assert Pick(t) == Selected(WhitespaceQuads, quads);
      return;
    }
    // Strategy 3
    var aggressiveNorm := NormalizeLite(selectedText);
    quads := SearchQuads(page, aggressiveNorm);
    assert quads == t.aggressive;
    if quads != [] {
      results := FormatResults(quads);
      assert Pick(t) == Selected(AggressiveQuads, quads);
      return;
    }
    // Strategy 4
    var wordRects, similarity := SelectionFuzzySearch(page, selectedText, 0.85, sim);
    assert wordRects == t.fuzzy;
    if wordRects != [] {
      results := FormatResults(RectHits(wordRects));
      assert Pick(t) == Selected(FuzzyWords, RectHits(wordRects));
      return;
    }
    assert Pick(t) == Unmatched;
    return [];
  }
}
