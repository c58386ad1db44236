/**
 * find_text_in_pdf.py: the helpers not covered elsewhere (fuzzy search,
 * case-insensitive search, first-sentence extraction) and the cascade of
 * strategies that find_text_in_pdf tries in order, returning the first
 * non-empty answer.
 */
module FindText {
  import opened Wrappers
  import opened PyText
  import opened Whitespace
  import opened Aggressive
  import opened Geometry
  import opened PdfPage
  import opened WordIndex
  import opened Scan
  import opened Anchors
  import opened Expansion

  // ----- fuzzy_search_in_page -----

  /** `min(10, max(5, search_len // 20))` */
  function FuzzyStep(n: nat): (s: Pos)
    ensures 5 <= s <= 10
    ensures n < 100 ==> s == 5
    ensures 100 <= n < 200 ==> s == n / 20
    ensures n >= 200 ==> s == 10
  {
    if n / 20 < 5 then 5 else if n / 20 > 10 then 10 else n / 20
  }

  /** Queries shorter than 50 characters need a ratio of at least 0.9. */
  function EffectiveThreshold(threshold: real, n: nat): (t: real)
    ensures t >= threshold && (n < 50 ==> t >= 0.9)
    ensures n < 50 ==> t == threshold || t == 0.9
    ensures n >= 50 ==> t == threshold
  {
    if n < 50 then Max(threshold, 0.9) else threshold
  }

  /** The windows: the lower-cased aggressive normal forms, with the width of the raw query. */
  function FuzzyWindows(page: Page, searchText: string, sim: (string, string) -> Ratio): Windows {
    Windows(sim, Lower(NormalizeAggressive(searchText)), Lower(NormalizeAggressive(page.text)),
            |searchText|, FuzzyStep(|searchText|))
  }

  /** `(rects, similarity_ratio)` */
  datatype FuzzyResult = FuzzyResult(rects: seq<Rect>, ratio: real)

  /**
   * The result of fuzzy_search_in_page over windows `w` of a query of `n`
   * characters: the best window's words when its ratio reaches the
   * threshold. The window's offset in the normalised page text is used as
   * an offset of the word list as it is.
   */
  function FuzzyOver(words: seq<WordBox>, w: Windows, threshold: real, n: nat): FuzzyResult {
    var best := BestUpTo(w, Count(w));
    var pos := Position(w, best);
    if best.ratio >= EffectiveThreshold(threshold, n) then
      FuzzyResult(WordsInRange(words, pos, pos + n), best.ratio)
    else FuzzyResult([], best.ratio)
  }

  /** fuzzy_search_in_page on a page. */
  function Fuzzy(page: Page, searchText: string, threshold: real, sim: (string, string) -> Ratio): FuzzyResult {
    FuzzyOver(page.words, FuzzyWindows(page, searchText, sim), threshold, |searchText|)
  }

  /** The reported ratio is the highest over all windows. */
  lemma FuzzyRatioIsBest(words: seq<WordBox>, w: Windows, threshold: real, n: nat, j: nat)
    requires j < Count(w)
    ensures Score(w, j) <= FuzzyOver(words, w, threshold, n).ratio
  {
    BestIsMaximum(w, j);
  }

  /**
   * A fuzzy hit reaches the threshold (0.9 for queries under 50
   * characters), and its rectangles are the words overlapping the earliest
   * best-scoring window, taken as `len(search_text)` characters.
   */
  lemma FuzzyHitMeaning(words: seq<WordBox>, w: Windows, threshold: real, n: nat)
    requires threshold > 0.0
    requires FuzzyOver(words, w, threshold, n).rects != []
    ensures FuzzyOver(words, w, threshold, n).ratio >= threshold
    ensures n < 50 ==> FuzzyOver(words, w, threshold, n).ratio >= 0.9
    ensures 0 <= BestUpTo(w, Count(w)).window < Count(w)
    ensures Score(w, BestUpTo(w, Count(w)).window) == FuzzyOver(words, w, threshold, n).ratio
    ensures FuzzyOver(words, w, threshold, n).rects ==
      WordsInRange(words, Start(w, BestUpTo(w, Count(w)).window), Start(w, BestUpTo(w, Count(w)).window) + n)
  {
    BestUpToMeaning(w, Count(w));
  }

  /** fuzzy_search_in_page. */
  method FuzzySearchInPage(page: Page, searchText: string, threshold: real, sim: (string, string) -> Ratio)
    returns (rects: seq<Rect>, similarityRatio: real)
    ensures FuzzyResult(rects, similarityRatio) == Fuzzy(page, searchText, threshold, sim)
  {
    var pageText := page.text;
    var searchLen := |searchText|;
    var th := threshold;
    if searchLen < 50 {
      th := Max(th, 0.9);
    }
    var searchNormalized := Lower(NormalizeAggressive(searchText));
    var pageNormalized := Lower(NormalizeAggressive(pageText));
    var stepSize := FuzzyStep(searchLen);
    var w := Windows(sim, searchNormalized, pageNormalized, searchLen, stepSize);
    assert w == FuzzyWindows(page, searchText, sim);
    assert th == EffectiveThreshold(threshold, searchLen);
    rects, similarityRatio := FuzzyOverWindows(page, w, th, searchLen);
    assert FuzzyOver(page.words, w, threshold, searchLen) == FuzzyOver(page.words, w, th, searchLen);
  }

  /** The scan of fuzzy_search_in_page and its look-up of the words, once the windows and threshold are known. */
  method FuzzyOverWindows(page: Page, w: Windows, th: real, searchLen: nat) returns (rects: seq<Rect>, similarityRatio: real)
    requires th == EffectiveThreshold(th, searchLen)
    ensures FuzzyResult(rects, similarityRatio) == FuzzyOver(page.words, w, th, searchLen)
  {
    var bestRatio, bestPosition := ScanBest(w);
    if bestRatio >= th {
      var wordRects := GetWordsInRange(page, bestPosition, bestPosition + searchLen, page.text);
      if wordRects != [] {
        return wordRects, bestRatio;
      } else {
        return [], bestRatio;
      }
    }
    return [], bestRatio;
  }

  // ----- case_insensitive_search -----

  /**
   * case_insensitive_search: find the query case-insensitively in the page
   * text and search for the page's own spelling of it; failing that, if the
   * whitespace-collapsed forms match, search for the collapsed query.
   */
  function CaseInsensitive(page: Page, pageText: string, searchText: string): seq<Rect> {
    var i := Find(Lower(pageText), Lower(searchText));
    if i == -1 then
      if Find(Lower(CollapseWhitespace(pageText)), Lower(CollapseWhitespace(searchText))) == -1 then []
      else SearchRects(page, CollapseWhitespace(searchText))
    else SearchRects(page, Slice(pageText, i, i + |searchText|))
  }

  /** The text searched for in the first branch is the query with the page's casing: equal to it once lower-cased. */
  lemma CaseInsensitiveKeepsLetters(pageText: string, searchText: string)
    requires Find(Lower(pageText), Lower(searchText)) != -1
    ensures var i := Find(Lower(pageText), Lower(searchText));
      |Slice(pageText, i, i + |searchText|)| == |searchText|
      && Lower(Slice(pageText, i, i + |searchText|)) == Lower(searchText)
  {
    var i := Find(Lower(pageText), Lower(searchText));
    assert OccursAt(Lower(pageText), Lower(searchText), i);
    var actual := pageText[i..i + |searchText|];
    assert Slice(pageText, i, i + |searchText|) == actual;
    forall k | 0 <= k < |searchText|
      ensures Lower(actual)[k] == Lower(searchText)[k]
    {
      assert Lower(actual)[k] == LowerChar(pageText[i + k]) == Lower(pageText)[i + k];
    }
  }

  /** An answer needs the query to occur on the page, case-insensitively, raw or whitespace-collapsed. */
  lemma CaseInsensitiveNeedsOccurrence(page: Page, pageText: string, searchText: string)
    requires CaseInsensitive(page, pageText, searchText) != []
    ensures OccursAt(Lower(pageText), Lower(searchText), Find(Lower(pageText), Lower(searchText)))
      || OccursAt(Lower(CollapseWhitespace(pageText)), Lower(CollapseWhitespace(searchText)),
                  Find(Lower(CollapseWhitespace(pageText)), Lower(CollapseWhitespace(searchText))))
  {
    var i := Find(Lower(pageText), Lower(searchText));
    if i == -1 {
      var j := Find(Lower(CollapseWhitespace(pageText)), Lower(CollapseWhitespace(searchText)));
      assert OccursAt(Lower(CollapseWhitespace(pageText)), Lower(CollapseWhitespace(searchText)), j);
    } else {
      assert OccursAt(Lower(pageText), Lower(searchText), i);
    }
  }

  // ----- extract_first_sentence -----

  predicate IsSentenceEnd(c: char) { c == '.' || c == '!' || c == '?' }

  /** `[.!?](?:\s|$)` matches at `i`. */
  predicate BoundaryAt(text: string, i: int) {
    0 <= i < |text| && IsSentenceEnd(text[i]) && (i + 1 == |text| || IsSpace(text[i + 1]))
  }

  /** The first boundary at or after `from`, as `re.search` finds it. */
  function FirstBoundaryFrom(text: string, from: nat): (r: Option<nat>)
    decreases |text| - from
    ensures r.Some? ==> from <= r.value && BoundaryAt(text, r.value)
    ensures forall j :: from <= j && (r.None? || j < r.value) ==> !BoundaryAt(text, j)
  {
    if from >= |text| then None
    else if BoundaryAt(text, from) then Some(from)
    else FirstBoundaryFrom(text, from + 1)
  }

  /** `match.end()`: the mark and the whitespace character after it, if any. */
  function MatchEnd(text: string, i: nat): (e: nat)
    requires BoundaryAt(text, i)
    ensures i < e <= |text|
  {
    if i + 1 < |text| then i + 2 else i + 1
  }

  /** extract_first_sentence: `text[:match.end()].strip()`, or None without a boundary. */
  function ExtractFirstSentence(text: string): Option<string> {
    match FirstBoundaryFrom(text, 0)
    case None => None
    case Some(i) => Some(Strip(text[..MatchEnd(text, i)]))
  }

  lemma {:induction false} StripKeepsLast(t: string, i: nat)
    requires i < |t| && !IsSpace(t[i])
    requires forall j :: i < j < |t| ==> IsSpace(t[j])
    ensures Strip(t) != [] && Strip(t)[|Strip(t)| - 1] == t[i]
  {
    var u := LStrip(t);
    var d := |t| - |u|;
    assert u == t[d..];
    assert d <= i;
    var r := RStrip(u);
    assert r == u[..|r|];
    assert u[i - d] == t[i];
    assert |r| > i - d;
    assert |r| <= i - d + 1;
  }

  /** `s` ends with the mark of the boundary at `i` of `text`, and `text` has no boundary before `i`. */
  ghost predicate EndsAtFirstBoundary(s: string, text: string, i: nat) {
    i < |text| && s != [] && s[|s| - 1] == text[i] && IsSentenceEnd(s[|s| - 1])
    && forall j :: 0 <= j < i ==> !BoundaryAt(text, j)
  }

  /** `s` is `text` up to and including position `i`, without the leading whitespace. */
  ghost predicate SentenceUpTo(s: string, text: string, i: nat) {
    i < |text| &&
    exists d :: 0 <= d <= i && (forall j :: 0 <= j < d ==> IsSpace(text[j])) && !IsSpace(text[d]) && s == text[d..i + 1]
  }

  /**
   * A first sentence exists exactly when the text has a boundary; it is
   * then the text up to and including that first boundary's mark, stripped
   * of its leading whitespace, and no earlier position is a boundary.
   */
  lemma FirstSentenceMeaning(text: string)
    ensures ExtractFirstSentence(text).None? <==> forall j :: 0 <= j < |text| ==> !BoundaryAt(text, j)
    ensures ExtractFirstSentence(text).Some? ==>
      FirstBoundaryFrom(text, 0).Some?
      && EndsAtFirstBoundary(ExtractFirstSentence(text).value, text, FirstBoundaryFrom(text, 0).value)
      && SentenceUpTo(ExtractFirstSentence(text).value, text, FirstBoundaryFrom(text, 0).value)
  {
    var b := FirstBoundaryFrom(text, 0);
    if b.Some? {
      FirstSentenceEnd(text, b.value);
      FirstSentenceCut(text, b.value);
    }
  }

  /** `strip()` of a string whose last non-whitespace character is at `i` runs from its first non-whitespace `d` to `i`. */
  lemma StripToLast(t: string, i: nat) returns (d: nat)
    requires i < |t| && !IsSpace(t[i])
    requires forall j :: i < j < |t| ==> IsSpace(t[j])
    ensures d <= i && (forall j :: 0 <= j < d ==> IsSpace(t[j])) && !IsSpace(t[d])
    ensures Strip(t) == t[d..i + 1]
  {
    var u := LStrip(t);
    d := |t| - |u|;
    assert u == t[d..];
    assert d <= i;
    assert u[0] == t[d];
    var r := RStrip(u);
    assert r == u[..|r|];
    assert u[i - d] == t[i];
    assert |r| > i - d;
  }

  /** `text[:match.end()].strip()` is `text[d..i + 1]`, `d` being the first non-whitespace position. */
  lemma FirstSentenceCut(text: string, i: nat)
    requires BoundaryAt(text, i)
    ensures SentenceUpTo(Strip(text[..MatchEnd(text, i)]), text, i)
  {
    var t := text[..MatchEnd(text, i)];
    assert t[i] == text[i];
    assert forall j :: i < j < |t| ==> IsSpace(t[j]) by {
      if |t| == i + 2 {
        assert t[i + 1] == text[i + 1];
      }
    }
    var d := StripToLast(t, i);
    SentenceFrom(text, t, i, d);
  }

  /** The witness step: a cut `t` of `text` past `i`, stripped to `t[d..i+1]`, is the sentence up to `i`. */
  lemma SentenceFrom(text: string, t: string, i: nat, d: nat)
    requires i < |t| <= |text| && t == text[..|t|] && d <= i
    requires (forall j :: 0 <= j < d ==> IsSpace(t[j])) && !IsSpace(t[d]) && Strip(t) == t[d..i + 1]
    ensures SentenceUpTo(Strip(t), text, i)
  {
    assert forall k :: d <= k <= i ==> t[k] == text[k];
    assert t[d..i + 1] == text[d..i + 1];
    assert t[d] == text[d];
    forall j | 0 <= j < d
      ensures IsSpace(text[j])
    {
      assert t[j] == text[j];
    }
  }

  /** The sentence cut at the first boundary `i` ends with the mark at `i`. */
  lemma FirstSentenceEnd(text: string, i: nat)
    requires FirstBoundaryFrom(text, 0) == Some(i)
    ensures EndsAtFirstBoundary(Strip(text[..MatchEnd(text, i)]), text, i)
  {
    var t := text[..MatchEnd(text, i)];
    assert t[i] == text[i] && !IsSpace(t[i]);
    StripKeepsLast(t, i);
  }

  // ----- find_text_in_pdf -----

  datatype Strategy =
    | Exact                 // Strategy 1
    | WhitespaceNormalized  // Strategy 2
    | FuzzyMatch            // Strategy 2.8
    | CaseInsensitiveMatch  // Strategy 3
    | FirstSentence         // Strategy 4
    | StartEndAnchors       // Strategy 5
    | FirstHundred          // Strategy 6

  /** What the cascade ends with: the winning strategy and its items, nothing, or an exception (which yields []). */
  datatype Outcome = Found(strategy: Strategy, hits: seq<Hit>) | NotFound | Failed

  /** Strategies 4 to 6 only run for queries longer than this. */
  const LongText: nat := 100

  predicate IsLongStrategy(s: Strategy) {
    s == FirstSentence || s == StartEndAnchors || s == FirstHundred
  }

  /** Strategy 4, when its first sentence is found on the page. */
  function FirstSentenceOutcome(page: Page, searchText: string, sentence: string, found: seq<Rect>): Outcome {
    var anchored := FindByAnchors(page, searchText, sentence, None);
    if anchored.Some? && anchored.value != [] then Found(FirstSentence, RectHits(anchored.value))
    else match Expand(found, |sentence|, |searchText|, page.bounds)
      case None => Failed
      case Some(e) => Found(FirstSentence, RectHits(e))
  }

  /** Strategy 4 applies: the first sentence exists, is over 20 characters, and is found on the page. */
  predicate SentenceFound(page: Page, searchText: string) {
    var sentence := ExtractFirstSentence(searchText);
    sentence.Some? && |sentence.value| > 20 && SearchOrCollapsed(page, sentence.value) != []
  }

  /** Strategy 5's answer: the 50-character anchors. */
  function EdgeAnchors(page: Page, searchText: string): Option<seq<Rect>>
    requires |searchText| > LongText
  {
    FindByAnchors(page, searchText, searchText[..50], Some(searchText[|searchText| - 50..]))
  }

  /** Strategies 4, 5 and 6, for a long query. */
  function LocateLong(page: Page, searchText: string): Outcome
    requires |searchText| > LongText
  {
    if SentenceFound(page, searchText) then
      var sentence := ExtractFirstSentence(searchText).value;
      FirstSentenceOutcome(page, searchText, sentence, SearchOrCollapsed(page, sentence))
    else AnchorsOrPrefix(page, searchText)
  }

  /** Strategies 5 and 6. */
  function AnchorsOrPrefix(page: Page, searchText: string): Outcome
    requires |searchText| > LongText
  {
    var anchored := EdgeAnchors(page, searchText);
    if anchored.Some? && anchored.value != [] then Found(StartEndAnchors, RectHits(anchored.value))
    else
      var prefix := SearchOrCollapsed(page, searchText[..100]);
      if prefix == [] then NotFound
      else match Expand(prefix, 100, |searchText|, page.bounds)
        case None => Failed
        case Some(e) => Found(FirstHundred, RectHits(e))
  }

  /** The answers of strategies 1, 2, 2.8 and 3, each computed on its own. */
  datatype Attempts = Attempts(exact: seq<Hit>, collapsed: seq<Hit>, fuzzy: seq<Rect>, caseless: seq<Rect>)

  function ShortAttempts(page: Page, searchText: string, sim: (string, string) -> Ratio): Attempts {
    Attempts(SearchQuads(page, searchText), SearchQuads(page, CollapseWhitespace(searchText)),
             Fuzzy(page, searchText, 0.85, sim).rects, CaseInsensitive(page, page.text, searchText))
  }

  /** The first non-empty answer among strategies 1 to 3, in order, else what the long-text strategies give. */
  function Choose(a: Attempts, long: Outcome): Outcome {
    if a.exact != [] then Found(Exact, a.exact)
    else if a.collapsed != [] then Found(WhitespaceNormalized, a.collapsed)
    else if a.fuzzy != [] then Found(FuzzyMatch, RectHits(a.fuzzy))
    else if a.caseless != [] then Found(CaseInsensitiveMatch, RectHits(a.caseless))
    else long
  }

  /** Strategies 4 to 6 run only for queries longer than 100 characters. */
  function LongOutcome(page: Page, searchText: string): Outcome {
    if |searchText| > LongText then LocateLong(page, searchText) else NotFound
  }

  /** The cascade of find_text_in_pdf: the first strategy with a non-empty answer wins. */
  function Locate(page: Page, searchText: string, sim: (string, string) -> Ratio): Outcome {
    Choose(ShortAttempts(page, searchText, sim), LongOutcome(page, searchText))
  }

  /** The JSON list printed for an outcome. */
  function Results(o: Outcome): seq<Box> {
    if o.Found? then Boxes(o.hits) else []
  }

  /** The strategies are tried in order; a later one is consulted only when every earlier one found nothing. */
  lemma ChooseOrder(a: Attempts, long: Outcome)
    ensures Choose(a, long).Found? && Choose(a, long).strategy == WhitespaceNormalized ==> a.exact == []
    ensures Choose(a, long).Found? && Choose(a, long).strategy == FuzzyMatch ==> a.exact == [] && a.collapsed == []
    ensures Choose(a, long).Found? && Choose(a, long).strategy == CaseInsensitiveMatch ==> a.exact == [] && a.collapsed == [] && a.fuzzy == []
    ensures Choose(a, long) == long <== a.exact == [] && a.collapsed == [] && a.fuzzy == [] && a.caseless == []
    ensures Choose(a, long) != long ==> Choose(a, long).Found? && Choose(a, long).hits != []
    ensures Choose(a, long).Failed? ==> long.Failed?
    ensures Choose(a, long).Found? && IsLongStrategy(Choose(a, long).strategy) ==> Choose(a, long) == long
  {
  }

  /** Strategy 4 never answers with an empty list when a rectangle was found for its sentence. */
  lemma FirstSentenceNonEmpty(page: Page, searchText: string, sentence: string, found: seq<Rect>)
    requires found != [] && |sentence| > 20
    requires FirstSentenceOutcome(page, searchText, sentence, found).Found?
    ensures FirstSentenceOutcome(page, searchText, sentence, found).hits != []
  {
    var anchored := FindByAnchors(page, searchText, sentence, None);
    if !(anchored.Some? && anchored.value != []) {
      ExpandKeepsEveryRect(found, |sentence|, |searchText|, page.bounds);
    }
  }

  /** Every long-text strategy that wins has something to show. */
  lemma LocateLongNonEmpty(page: Page, searchText: string)
    requires |searchText| > LongText
    requires LocateLong(page, searchText).Found?
    ensures LocateLong(page, searchText).hits != []
  {
    var sentence := ExtractFirstSentence(searchText);
    var found := if sentence.Some? && |sentence.value| > 20 then SearchOrCollapsed(page, sentence.value) else [];
    if found != [] {
      FirstSentenceNonEmpty(page, searchText, sentence.value, found);
    } else {
      var prefix := SearchOrCollapsed(page, searchText[..100]);
      if prefix != [] && Expand(prefix, 100, |searchText|, page.bounds).Some? {
        ExpandKeepsEveryRect(prefix, 100, |searchText|, page.bounds);
      }
    }
  }

  /**
   * Strategies 4, 5 and 6 are tried in order: strategy 4 decides whenever its
   * sentence (over 20 characters) is found; 5 wins only when 4 did not apply
   * and its anchors give rectangles; 6, and the final "nothing found", only
   * when 5 gave nothing either.
   */
  lemma LongOrder(page: Page, searchText: string)
    requires |searchText| > LongText
    ensures SentenceFound(page, searchText) ==>
      LocateLong(page, searchText) == FirstSentenceOutcome(page, searchText, ExtractFirstSentence(searchText).value,
        SearchOrCollapsed(page, ExtractFirstSentence(searchText).value))
    ensures LocateLong(page, searchText).Found? && LocateLong(page, searchText).strategy == FirstSentence ==>
      SentenceFound(page, searchText)
    ensures LocateLong(page, searchText).Found? && LocateLong(page, searchText).strategy == StartEndAnchors <==>
      !SentenceFound(page, searchText) && EdgeAnchors(page, searchText).Some? && EdgeAnchors(page, searchText).value != []
    ensures LocateLong(page, searchText).Found? && LocateLong(page, searchText).strategy == FirstHundred ==>
      !SentenceFound(page, searchText) && (EdgeAnchors(page, searchText).None? || EdgeAnchors(page, searchText).value == [])
      && SearchOrCollapsed(page, searchText[..100]) != []
    ensures LocateLong(page, searchText).NotFound? <==>
      !SentenceFound(page, searchText) && (EdgeAnchors(page, searchText).None? || EdgeAnchors(page, searchText).value == [])
      && SearchOrCollapsed(page, searchText[..100]) == []
  {
    var sentence := ExtractFirstSentence(searchText);
    if SentenceFound(page, searchText) {
      var o := FirstSentenceOutcome(page, searchText, sentence.value, SearchOrCollapsed(page, sentence.value));
      assert o.Found? ==> o.strategy == FirstSentence;
    }
  }

  /** Every strategy that wins has something to show: a found outcome is never empty. */
  lemma LocateFoundNonEmpty(page: Page, searchText: string, sim: (string, string) -> Ratio)
    requires Locate(page, searchText, sim).Found?
    ensures Locate(page, searchText, sim).hits != []
  {
    var a := ShortAttempts(page, searchText, sim);
    var long := LongOutcome(page, searchText);
    ChooseOrder(a, long);
    if Choose(a, long) == long && |searchText| > LongText {
      LocateLongNonEmpty(page, searchText);
    }
  }

  /** Strategies 4 to 6, and the expander's exception, happen only for queries longer than 100 characters. */
  lemma LongStrategiesNeedLongText(page: Page, searchText: string, sim: (string, string) -> Ratio)
    requires Locate(page, searchText, sim).Failed? || (Locate(page, searchText, sim).Found? && IsLongStrategy(Locate(page, searchText, sim).strategy))
    ensures |searchText| > LongText
  {
    ChooseOrder(ShortAttempts(page, searchText, sim), LongOutcome(page, searchText));
  }

  /**
   * The long-text strategies fail only when the expander divides by zero: a
   * rectangle found for the first sentence or for the first 100 characters
   * has zero width and sits in the rightmost 5% of the page.
   */
  lemma LocateLongFailed(page: Page, searchText: string)
    requires |searchText| > LongText
    requires LocateLong(page, searchText).Failed?
    ensures exists s :: ((s == searchText[..100] || ExtractFirstSentence(searchText) == Some(s))
      && exists i :: 0 <= i < |SearchOrCollapsed(page, s)| && Unexpandable(SearchOrCollapsed(page, s)[i], page.bounds))
  {
    var sentence := ExtractFirstSentence(searchText);
    var found := if sentence.Some? && |sentence.value| > 20 then SearchOrCollapsed(page, sentence.value) else [];
    if found != [] {
      ExpandFailsExactly(found, |sentence.value|, |searchText|, page.bounds);
      var i :| 0 <= i < |found| && Unexpandable(found[i], page.bounds);
      assert ExtractFirstSentence(searchText) == Some(sentence.value);
    } else {
      var prefix := SearchOrCollapsed(page, searchText[..100]);
      ExpandFailsExactly(prefix, 100, |searchText|, page.bounds);
      var i :| 0 <= i < |prefix| && Unexpandable(prefix[i], page.bounds);
    }
  }

  /** The cascade fails only for a long query with an unexpandable rectangle (see LocateLongFailed). */
  lemma FailedMeansUnexpandable(page: Page, searchText: string, sim: (string, string) -> Ratio)
    requires Locate(page, searchText, sim).Failed?
    ensures |searchText| > LongText
    ensures exists s :: ((s == searchText[..100] || ExtractFirstSentence(searchText) == Some(s))
      && exists i :: 0 <= i < |SearchOrCollapsed(page, s)| && Unexpandable(SearchOrCollapsed(page, s)[i], page.bounds))
  {
    LongStrategiesNeedLongText(page, searchText, sim);
    ChooseOrder(ShortAttempts(page, searchText, sim), LongOutcome(page, searchText));
    LocateLongFailed(page, searchText);
  }

  /** find_text_in_pdf on one page: strategies 1 to 3, then the long-text strategies. */
  method FindTextInPdf(page: Page, searchText: string, sim: (string, string) -> Ratio) returns (results: seq<Box>)
    ensures results == Results(Locate(page, searchText, sim))
  {
    ghost var a := ShortAttempts(page, searchText, sim);
    ghost var long := LongOutcome(page, searchText);
    assert Locate(page, searchText, sim) == Choose(a, long);
    // Strategy 1
    var textInstances := SearchQuads(page, searchText);
    if textInstances != [] {
      results := FormatResults(textInstances);
      return;
    }
    // Strategy 2
    var normalizedSearch := CollapseWhitespace(searchText);
    textInstances := SearchQuads(page, normalizedSearch);
    if textInstances != [] {
      results := FormatResults(textInstances);
      return;
    }
    var pageText := page.text;
    // Strategy 2.8
    var fuzzyRects, similarityRatio := FuzzySearchInPage(page, searchText, 0.85, sim);
    if fuzzyRects != [] {
      results := FormatResults(RectHits(fuzzyRects));
      return;
    }
    // Strategy 3
    var caseless := CaseInsensitive(page, pageText, searchText);
    if caseless != [] {
      results := FormatResults(RectHits(caseless));
      return;
    }
    assert Choose(a, long) == long;
    if |searchText| > 100 {
      results := FindLongText(page, searchText);
      return;
    }
    return [];
  }

  /** Strategies 4, 5 and 6 of find_text_in_pdf, each guarded by `len(search_text) > 100` in the source. */
  method FindLongText(page: Page, searchText: string) returns (results: seq<Box>)
    requires |searchText| > LongText
    ensures results == Results(LocateLong(page, searchText))
  {
    // Strategy 4
    var firstSentence := ExtractFirstSentence(searchText);
    if firstSentence.Some? && |firstSentence.value| > 20 {
      var found := SearchRects(page, firstSentence.value);
      if found == [] {
        found := SearchRects(page, CollapseWhitespace(firstSentence.value));
      }
      if found != [] {
        results := FirstSentenceResults(page, searchText, firstSentence.value, found);
        return;
      }
    }
    results := AnchorsOrPrefixResults(page, searchText);
  }

  /** Strategies 5 and 6 of find_text_in_pdf. */
  method AnchorsOrPrefixResults(page: Page, searchText: string) returns (results: seq<Box>)
    requires |searchText| > LongText
    ensures results == Results(AnchorsOrPrefix(page, searchText))
  {
    // Strategy 5
    var startText := searchText[..50];
    var endText := searchText[|searchText| - 50..];
    var anchored := FindTextByStartAndEndAnchors(page, searchText, startText, |searchText|, Some(endText));
    if anchored.Some? && anchored.value != [] {
      results := FormatResults(RectHits(anchored.value));
      return;
    }
    // Strategy 6
    var shortText := searchText[..100];
    var found := SearchRects(page, shortText);
    if found == [] {
      found := SearchRects(page, CollapseWhitespace(shortText));
    }
    if found != [] {
      var expanded := ExpandRectanglesForLongText(found, 100, |searchText|, page);
      if expanded.None? {
        // the exception reaches the outer handler
        return [];
      }
      results := FormatResults(RectHits(expanded.value));
      return;
    }
    return [];
  }

  /** Strategy 4 once its sentence is found: the anchors' answer, else the expansion of the sentence's rectangles. */
  method FirstSentenceResults(page: Page, searchText: string, sentence: string, found: seq<Rect>) returns (results: seq<Box>)
    ensures results == Results(FirstSentenceOutcome(page, searchText, sentence, found))
  {
    var anchored := FindTextByStartAndEndAnchors(page, searchText, sentence, |searchText|, None);
    if anchored.Some? && anchored.value != [] {
      results := FormatResults(RectHits(anchored.value));
      return;
    }
    var expanded := ExpandRectanglesForLongText(found, |sentence|, |searchText|, page);
    if expanded.None? {
      // the exception reaches the outer handler
      return [];
    }
    results := FormatResults(RectHits(expanded.value));
  }
}
