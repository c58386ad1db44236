# Text location on a PDF page, and EPUB section markers

This project models, in Dafny, three Python scripts of a document-reading worker.

- `find_text_in_pdf.py` finds a passage on one PDF page and returns highlight rectangles. It tries these strategies in order and keeps the first one that gives a non-empty answer:
  1. exact search;
  2. search for the query with its whitespace collapsed;
  3. a fuzzy sliding-window match;
  4. case-insensitive search;
  5. for queries longer than 100 characters only:
     - the first sentence, with the text between anchors or an extrapolation of its rectangles;
     - start and end anchors of 50 characters each;
     - the first 100 characters, extrapolated to the full length.
- `get_pdf_selection_rects.py` is the reduced copy of that cascade used for text selections. It runs four strategies: exact, whitespace-normalised, lightly normalised, and fuzzy with an early exit.
- `docling_extract_epub.py` is modelled only for its pure helpers:
  - the section-marker slug (`generate_section_marker`);
  - the heading level read from an item label;
  - the metadata derived for each chunk.

PyMuPDF is not modelled. A page is data plus one uninterpreted function (`PdfPage.Page`):
- `get_text()` is the page text;
- `get_text("words")` is a sequence of (rectangle, word);
- `get_text("dict")` is a sequence of blocks with optional lines;
- `page.rect` is the page bounds;
- `search_for(s, quads=True)` is a function from strings to sequences of quads.

`search_for(s)` without quads is the same matches, each reduced to the rectangle around its quad.

`difflib.SequenceMatcher(None, a, b).ratio()` is the parameter `sim`, whose only property is that it returns a value in [0, 1]. Two lemmas take `sim(q, q) == 1.0` as a hypothesis to show what a window equal to the query does to the scans.

Python floats are exact reals. A `ZeroDivisionError` in the rectangle expander is `None`, and the cascade then returns `[]`, as the source's outer `try/except` does.

Imperative source code is modelled as methods:
- the word-offset loop;
- the window scans;
- the block and line loops;
- the expander's two loops;
- the result formatting;
- the cascades.

Each method is proved equal to a specification function. The properties are proved as lemmas about those functions. The normalisers, the sentence extractor and the slug helpers are pure in the source and are functions here.

Modules, in dependency order:
- `Wrappers`: Option;
- `PyText`: the `str` built-ins used;
- `Whitespace`, `Aggressive`: the normalisers of `find_text_in_pdf.py`;
- `Geometry`, `PdfPage`: rectangles, quads, result dicts and the page;
- `WordIndex`: `get_words_in_range`;
- `Scan`: the sliding-window scans;
- `Expansion`: the rectangle expander;
- `Anchors`: the anchor locator and the line band;
- `FindText`: the rest of `find_text_in_pdf.py` and its cascade;
- `SelectionRects`: the selection script;
- `EpubSections`: the EPUB helpers.

Quirks of the code that the model keeps:
- Both fuzzy scans measure their windows with the length of the raw query, over the normalised page text.
- The best window's offset in the normalised text is used unchanged as an offset of the word list.
- The anchor locator looks the passage up in the collapsed, lower-cased page text. It then uses that offset to slice the raw page text.
- Strategy "2.5" of `find_text_in_pdf` computes and searches, but it never returns. Its searches have no effect, so it is not a step of the model.
- The first sentence must be longer than 20 characters.
- The number of estimated lines is `int(full / chars_per_line) + 1`.
- There is no second search for the original text: the offset found in the normalised text is used as it is.
- In the selection script:
  - the lightly normalised string is passed straight to `search_for`;
  - there is no raised threshold for short queries;
  - the step is 5 or 10;
  - the scan stops after the first improvement above 0.95.

## Model

| member | source | states |
|---|---|---|
| WordIndex.GetWordsInRange | worker/scripts/find_text_in_pdf.py:28-69 | The loop with its `char_pos` accumulator returns exactly the rectangles of the words whose synthetic range overlaps the requested range, in word order. `page_text` is never read. |
| WordIndex.WordsInRangeMeaning | worker/scripts/find_text_in_pdf.py:49-69 | A word is selected if and only if `word_end > start_pos and word_start < end_pos`. The selected indices strictly increase, and the result is their rectangles, in the same order. |
| WordIndex.OffsetsContiguous | worker/scripts/find_text_in_pdf.py:56-67 | The next word starts one position after the previous word ends, so the synthetic offsets strictly increase. |
| WordIndex.SelectedUpTo | worker/scripts/get_pdf_selection_rects.py:59-74 | Among the first n words, an index is selected only if it overlaps the range, and every overlapping index is selected, in increasing order. This is the same loop as in the other script. |
| WordIndex.RangeBeforeTextSelectsNothing | worker/scripts/find_text_in_pdf.py:49-61 | Offsets start at 0, so a range ending at or before 0 selects no word. |
| Scan.CountMeaning | worker/scripts/find_text_in_pdf.py:108-109 | Window j is scanned if and only if its start `j * step` is below `len(page) - len(query) + 1`, that is, if and only if the window fits in the text. |
| Scan.Window | worker/scripts/find_text_in_pdf.py:108-109 | Every scanned window has exactly `len(search_text)` characters. |
| Scan.ScanBest | worker/scripts/find_text_in_pdf.py:96-115 | The stepped loop leaves `best_ratio` and `best_position` equal to the full scan's best window, or 0.0 and -1. |
| Scan.BestUpToMeaning | worker/scripts/find_text_in_pdf.py:108-115 | The full scan's ratio is at least every window's score. The best window scores it, and every earlier window scores strictly less, so ties go to the earliest window. The position stays -1 exactly when all windows score 0. |
| Scan.BestIsMaximum | worker/scripts/find_text_in_pdf.py:108-115 | No window scores more than the reported ratio. |
| Scan.ScanEarly | worker/scripts/get_pdf_selection_rects.py:93-107 | The loop with `break` leaves the best ratio and position of the early-exit scan. |
| Scan.EarlyUpToMeaning | worker/scripts/get_pdf_selection_rects.py:97-107 | The early-exit scan's window really scores its ratio, or is -1 with ratio 0. Nothing scanned before the stop scores more. It stops only with a ratio above 0.95. |
| Scan.EarlyIsFullWithoutExcellent | worker/scripts/get_pdf_selection_rects.py:101-107 | While no window scores above 0.95, the early-exit scan equals the full scan. |
| Scan.EarlyStaysStopped | worker/scripts/get_pdf_selection_rects.py:105-107 | After the `break`, later windows change nothing. |
| Scan.EarlyStopsAtFirstExcellent | worker/scripts/get_pdf_selection_rects.py:101-107 | The answer is the first window above 0.95, whatever follows it. |
| Scan.ExactWindowIsBest | worker/scripts/find_text_in_pdf.py:108-115 | If `sim` rates a string against itself 1.0, a window equal to the query makes the full scan's best ratio 1.0. |
| Scan.ExactWindowStopsEarly | worker/scripts/get_pdf_selection_rects.py:97-107 | With such an oracle, the early-exit scan stops at a window equal to the query with ratio 1.0, unless an earlier window scored above 0.95. |
| FindText.FuzzyStep | worker/scripts/find_text_in_pdf.py:105 | `min(10, max(5, n // 20))` is 5 for queries under 100 characters, `n // 20` from 100 to 199, and 10 from 200 on. It always lies between 5 and 10. |
| FindText.EffectiveThreshold | worker/scripts/find_text_in_pdf.py:92-94 | The threshold is never lowered, and is unchanged for queries of 50 characters or more. Under 50 it is at least 0.9, and is either the given threshold or 0.9. |
| FindText.FuzzySearchInPage | worker/scripts/find_text_in_pdf.py:71-145 | fuzzy_search_in_page returns the rectangles and ratio of the fuzzy-search function over the aggressive, lower-cased page (window width `len(search_text)`, step FuzzyStep). |
| FindText.FuzzyOverWindows | worker/scripts/find_text_in_pdf.py:107-145 | Once the windows are known: the best ratio, with the words of the best window when the ratio reaches the threshold, else `[]`. |
| FindText.FuzzyRatioIsBest | worker/scripts/find_text_in_pdf.py:108-117 | The reported similarity is at least every window's score. |
| FindText.FuzzyHitMeaning | worker/scripts/find_text_in_pdf.py:120-139 | A non-empty fuzzy answer has a ratio at least the threshold, and at least 0.9 for short queries. It comes from a real window, and its rectangles are the words overlapping `[best_position, best_position + len(search_text))`. |
| Whitespace.CollapseWhitespace | worker/scripts/find_text_in_pdf.py:344-351 | The output is never longer than the input, and it is empty only for empty input. It starts with whitespace exactly when the input does, because the front is not stripped. |
| Whitespace.CollapseIsCollapsed | worker/scripts/find_text_in_pdf.py:350 | The output has no whitespace but ' ', and never two whitespace characters in a row. |
| Whitespace.CollapseChars | worker/scripts/find_text_in_pdf.py:350 | The output has no character that the input lacks, except ' '. |
| Whitespace.CollapseKeepsText | worker/scripts/find_text_in_pdf.py:350 | The non-whitespace characters are kept, in order. |
| Whitespace.CollapseKeepsEnd | worker/scripts/find_text_in_pdf.py:344-351 | The back is not stripped either: the output ends in a space exactly when the input ends in whitespace. |
| Whitespace.CollapseFixesCollapsed | worker/scripts/find_text_in_pdf.py:350 | Collapsed text is left unchanged. |
| Whitespace.CollapseIdempotent | worker/scripts/find_text_in_pdf.py:344-351 | normalize_whitespace is idempotent. |
| Aggressive.DropSoftHyphensFacts | worker/scripts/find_text_in_pdf.py:376 | No U+00AD is left, and no character is added. |
| Aggressive.JoinHyphenatedFacts | worker/scripts/find_text_in_pdf.py:379 | After `re.sub(r'-\s+', '', s)`, no '-' is followed by whitespace, and no character is added. |
| Aggressive.CollapsePreservesNoHyphenBreak | worker/scripts/find_text_in_pdf.py:379-380 | Collapsing whitespace cannot create a '-' followed by whitespace. |
| Aggressive.DropSpaceBeforePunctFacts | worker/scripts/find_text_in_pdf.py:383 | On collapsed text, the pass leaves no whitespace before `,.!?;:`, no double space and no hyphen break. |
| Aggressive.SpaceAfterPunctFixes | worker/scripts/find_text_in_pdf.py:384 | On collapsed text, the space-after-punctuation rewrite changes nothing. |
| Aggressive.StripClean | worker/scripts/find_text_in_pdf.py:387 | `strip()` keeps every cleanliness property and adds trimmed ends. |
| Aggressive.AggressiveClean | worker/scripts/find_text_in_pdf.py:353-389 | The output has no quote code point, no U+2010–U+2015 or U+2212, no U+00AD, no '-' before whitespace, only single plain spaces, no space before `,.!?;:` and no whitespace at either end. It is never longer than the input. |
| Aggressive.FoldQuotesFixes | worker/scripts/find_text_in_pdf.py:368 | Text without quotes is unchanged by the quote substitution. |
| Aggressive.FoldDashesFixes | worker/scripts/find_text_in_pdf.py:372 | Text without dash code points is unchanged by the dash substitution. |
| Aggressive.DropSoftHyphensFixes | worker/scripts/find_text_in_pdf.py:376 | Text without soft hyphens is unchanged. |
| Aggressive.JoinHyphenatedFixes | worker/scripts/find_text_in_pdf.py:379 | Text without a hyphen break is unchanged. |
| Aggressive.DropSpaceBeforePunctFixes | worker/scripts/find_text_in_pdf.py:383 | Collapsed text without a space before punctuation is unchanged. |
| Aggressive.AggressiveIdempotent | worker/scripts/find_text_in_pdf.py:353-389 | normalize_text_aggressive is idempotent. |
| PyText.Find | worker/scripts/find_text_in_pdf.py:399 | `str.find` returns -1 or an index where the needle occurs, and no occurrence lies before it. |
| PyText.FindMissing | worker/scripts/find_text_in_pdf.py:399-407 | `find` returns -1 exactly when the needle occurs nowhere. |
| PyText.Slice | worker/scripts/find_text_in_pdf.py:415 | Python slicing clamps to the length. Within bounds it is the ordinary slice. An end past the length gives the rest from `lo`, and a start at or past the length, or not before the end, gives ''. |
| FindText.CaseInsensitiveKeepsLetters | worker/scripts/find_text_in_pdf.py:395-418 | In the first branch, the text searched for has the query's length and lower-cases to the lower-cased query: it is the page's own spelling of the query. |
| FindText.CaseInsensitiveNeedsOccurrence | worker/scripts/find_text_in_pdf.py:395-412 | An answer needs the query to occur case-insensitively, raw or whitespace-collapsed. |
| FindText.FirstBoundaryFrom | worker/scripts/find_text_in_pdf.py:432 | Returns the first position at which `[.!?](?:\s\|$)` matches, and no earlier position matches. |
| FindText.MatchEnd | worker/scripts/find_text_in_pdf.py:432-434 | `match.end()` lies after the mark and within the text. |
| FindText.FirstSentenceMeaning | worker/scripts/find_text_in_pdf.py:426-435 | The result is None if and only if no '.', '!' or '?' is followed by whitespace or the end of the text. Otherwise it is the text up to and including the first such mark, without its leading whitespace: `text[d..i+1]`, with `d` the first non-whitespace position. |
| FindText.FirstSentenceEnd | worker/scripts/find_text_in_pdf.py:432-434 | `text[:match.end()].strip()` ends with the boundary's mark. |
| FindText.FirstSentenceCut | worker/scripts/find_text_in_pdf.py:432-434 | `text[:match.end()].strip()` is `text[d..i+1]`, where `i` is the mark and `text[..d]` is all whitespace. The whitespace that `match.end()` takes after the mark is stripped again. |
| Anchors.FindTextByStartAndEndAnchors | worker/scripts/find_text_in_pdf.py:437-515 | The method returns the anchor-locator function's answer, including each `None` return. |
| Anchors.FindByAnchorsMeaning | worker/scripts/find_text_in_pdf.py:460-510 | An answer is never empty. It needs an end anchor, both anchors found (raw or collapsed), and the passage located. If the located text has matches, the answer is those matches. Otherwise it is exactly the band between the first start match and the first end match, so only in-band lines. |
| Anchors.ShortTextHasNoEndAnchor | worker/scripts/find_text_in_pdf.py:462-466 | Without an end text, a passage of at most 50 characters gives None. |
| Anchors.LocateFullTextMeaning | worker/scripts/find_text_in_pdf.py:488-496 | The passage is not located if and only if it occurs neither in the collapsed lower-cased page nor in the raw page. A location is an occurrence in one of the two. |
| Anchors.FindPassageStart | worker/scripts/find_text_in_pdf.py:488-496 | The two `find` calls give the location above. |
| Anchors.CoverPassage | worker/scripts/find_text_in_pdf.py:498-510 | It returns the search result for the slice `page_text[idx:idx + len(full_text)]`. When that is empty, it returns the line band. |
| Anchors.GetTextBlocksBetweenRects | worker/scripts/find_text_in_pdf.py:517-552 | The block loop and the line loop together return the band: the lines in block and line order, or None when there are none. |
| Anchors.BandMeaning | worker/scripts/find_text_in_pdf.py:534-552 | Every returned rectangle has `y0 >= start.y0` and `y1 <= end.y1`, and is the bbox of a line of a block that has "lines". Every such in-band line is returned, and None means there is none. |
| Anchors.BandOrder | worker/scripts/find_text_in_pdf.py:534-552 | After the first k blocks, the result list is the in-band part of those blocks' line boxes, flattened in block order and then line order. |
| Anchors.BandIsInBandLineBoxes | worker/scripts/find_text_in_pdf.py:517-552 | The result is exactly the in-band line boxes in block and line order, and None when there are none. |
| Expansion.ExpandRectanglesForLongText | worker/scripts/find_text_in_pdf.py:554-633 | The outer loop returns the expansion function: `[]` for no input, None on a division by zero, else the expansions in order. |
| Expansion.ExpandRect | worker/scripts/find_text_in_pdf.py:586-631 | The body for one rectangle equals ExpandOne. |
| Expansion.StackLines | worker/scripts/find_text_in_pdf.py:611-628 | The inner loop emits the rectangle, then the estimated lines that end above the page bottom. |
| Expansion.Trunc | worker/scripts/find_text_in_pdf.py:607 | `int()` on a float truncates toward zero. |
| Expansion.ExpandFailsExactly | worker/scripts/find_text_in_pdf.py:576-607 | The expander fails if and only if there is input and either matched_length is 0, or some rectangle has zero width and already reaches the rightmost 5% of the page. |
| Expansion.ExpandOneFails | worker/scripts/find_text_in_pdf.py:588-606 | One rectangle fails exactly when it is unexpandable (`rect.width / char_width` with a zero char_width). |
| Expansion.SingleLineIsProportional | worker/scripts/find_text_in_pdf.py:588-601 | Away from the edge, x0, y0 and y1 are kept, and x1 becomes `x0 + char_width * full_length`. |
| Expansion.CharsPerLine | worker/scripts/find_text_in_pdf.py:606 | `chars_per_line` is the matched length again. |
| Expansion.MultiLineShape | worker/scripts/find_text_in_pdf.py:604-628 | Near the edge, the output starts with the rectangle itself and has at most `int(full / matched) + 1` items. Each later item keeps x0, is clipped at the page's right edge, and ends within the page. |
| Expansion.NearEdgeStacks | worker/scripts/find_text_in_pdf.py:604-608 | Near the edge, with some width, a rectangle becomes the stack of `int(full / matched) + 1` estimated lines, because `chars_per_line` is the matched length. |
| Expansion.LineNumberOf | worker/scripts/find_text_in_pdf.py:611-628 | Emitted rectangle `i >= 1` among k lines is estimated line n, for the returned `1 <= n < k`, and that line ends above the page bottom. |
| Expansion.LinesUpToSound | worker/scripts/find_text_in_pdf.py:611-628 | After the rectangle itself, every emitted rectangle is an estimated line `1 <= n < k` that ends above the page bottom. |
| Expansion.LinesUpToComplete | worker/scripts/find_text_in_pdf.py:611-628 | Every estimated line `1 <= n < k` that ends above the page bottom is emitted. |
| Expansion.MultiLineLines | worker/scripts/find_text_in_pdf.py:604-628 | Near the edge, with k = `int(full / matched) + 1`, the expansion succeeds. Each rectangle after the first is estimated line n, for some `1 <= n < k`, ending within the page. Every estimated line whose `y1` is within the page is emitted. |
| Expansion.LineRectOffset | worker/scripts/find_text_in_pdf.py:619-624 | Estimated line n starts and ends `1.2 * height * n` below the rectangle, and keeps its left edge. |
| Expansion.LinesUpToAbove | worker/scripts/find_text_in_pdf.py:619-624 | With k estimated lines, no emitted rectangle starts lower than `y0 + 1.2 * height * (k - 1)`, the offset of the last one. |
| Expansion.LinesUpToDescend | worker/scripts/find_text_in_pdf.py:619-628 | For a rectangle with height, each emitted line lies strictly below the one before it. |
| Expansion.ExpandKeepsEveryRect | worker/scripts/find_text_in_pdf.py:586-633 | A successful expansion gives at least one output per input rectangle. |
| Geometry.EnvelopeMeaning | worker/scripts/find_text_in_pdf.py:648-650 | A quad's `.rect` is well formed and contains all four corners. |
| Geometry.ToBox | worker/scripts/find_text_in_pdf.py:655-660 | A dict has `x = x0`, `y = y0`, `width = x1 - x0` and `height = y1 - y0`, so it describes exactly its rectangle. |
| Geometry.BoxesMeaning | worker/scripts/get_pdf_selection_rects.py:117-134 | There is one dict per item, in order, each describing the item's rectangle (a quad's `.rect`, or the rect itself). |
| Geometry.QuadBoxesNonNegative | worker/scripts/find_text_in_pdf.py:648-660 | A dict made from a quad never has a negative width or height. |
| Geometry.FormatResults | worker/scripts/find_text_in_pdf.py:635-662 | The append loop builds exactly the list of dicts described above. |
| PdfPage.SearchRectsMeaning | worker/scripts/find_text_in_pdf.py:469 | `search_for(s)` gives one rectangle per match, in order. Each is well formed and contains the four corners of its match's quad. |
| FindText.FindTextInPdf | worker/scripts/find_text_in_pdf.py:152-342 | The cascade returns the dicts of the cascade function's outcome, and `[]` when nothing is found or the expander raises. |
| FindText.FindLongText | worker/scripts/find_text_in_pdf.py:258-331 | Strategies 4, 5 and 6, each guarded by `len(search_text) > 100`, give the long-text outcome; its order is proved in LongOrder. |
| FindText.AnchorsOrPrefixResults | worker/scripts/find_text_in_pdf.py:292-329 | Strategies 5 and 6 give the outcome of the 50-character anchors, else of the first 100 characters. |
| FindText.LongOrder | worker/scripts/find_text_in_pdf.py:258-331 | Strategy 4 decides exactly when the first sentence exists, is over 20 characters and is found on the page, and it then wins with the anchors' answer or the expansion. Strategy 5 wins exactly when 4 did not apply and the 50-character anchors give rectangles. Strategy 6 wins only when both gave nothing and the first 100 characters are found. Nothing is found exactly when all three find nothing. |
| FindText.FirstSentenceResults | worker/scripts/find_text_in_pdf.py:267-290 | Strategy 4, once its sentence is found, returns the anchors' answer, or else the expansion of the sentence's rectangles. |
| FindText.ChooseOrder | worker/scripts/find_text_in_pdf.py:177-256 | Strategy 2 wins only after exact search found nothing, 2.8 only after 1 and 2, and 3 only after 1, 2 and 2.8. Any earlier win is non-empty. When all four found nothing, the long-text outcome is the answer, and a long strategy or the expander's failure can come only from there. |
| FindText.LocateFoundNonEmpty | worker/scripts/find_text_in_pdf.py:177-331 | Whatever strategy wins, it returns at least one rectangle. |
| FindText.LocateLongNonEmpty | worker/scripts/find_text_in_pdf.py:258-331 | A winning long-text strategy returns at least one rectangle. |
| FindText.FirstSentenceNonEmpty | worker/scripts/find_text_in_pdf.py:267-290 | Strategy 4 never answers with an empty list. |
| FindText.LongStrategiesNeedLongText | worker/scripts/find_text_in_pdf.py:258-313 | Strategies 4 to 6, and the expander's exception, occur only for queries longer than 100 characters. |
| FindText.LocateLongFailed | worker/scripts/find_text_in_pdf.py:284-331 | The long strategies fail only when a rectangle found for the first sentence or the first 100 characters is unexpandable. |
| FindText.FailedMeansUnexpandable | worker/scripts/find_text_in_pdf.py:339-342 | The cascade's exception path is reached only through that division by zero. |
| PyText.SplitWords | worker/scripts/get_pdf_selection_rects.py:27 | Every piece of `str.split()` is a non-empty run of non-whitespace. |
| SelectionRects.JoinWords | worker/scripts/get_pdf_selection_rects.py:27 | `' '.join(words)` is empty exactly for no words. It is collapsed, starts with the first word's first character and ends with the last word's last character. |
| SelectionRects.SplitJoin | worker/scripts/get_pdf_selection_rects.py:27 | Splitting words joined by single spaces gives the words back. |
| SelectionRects.SplitEmpty | worker/scripts/get_pdf_selection_rects.py:27 | `split()` finds no word exactly when the text is all whitespace. |
| SelectionRects.NormalizeWhitespaceMeaning | worker/scripts/get_pdf_selection_rects.py:25-27 | The output has single plain spaces and no whitespace at either end. It is empty exactly for all-whitespace input, and it has the same words as the input. |
| SelectionRects.NormalizeWhitespaceIdempotent | worker/scripts/get_pdf_selection_rects.py:25-27 | This normalize_whitespace is idempotent. |
| SelectionRects.LiteClean | worker/scripts/get_pdf_selection_rects.py:30-46 | The output has no quote, no U+2010–U+2015 or U+2212, no U+00AD, only single plain spaces and no whitespace at either end. It is never longer than the input. |
| SelectionRects.LiteIdempotent | worker/scripts/get_pdf_selection_rects.py:30-46 | This normalize_text_aggressive is idempotent. |
| SelectionRects.StepsCompared | worker/scripts/get_pdf_selection_rects.py:87 | The selection script's step equals the other script's step exactly for queries under 100 characters or of 200 and more. In between it is larger. |
| SelectionRects.SelectionFuzzySearch | worker/scripts/get_pdf_selection_rects.py:77-114 | fuzzy_search_in_page returns the early-exit fuzzy result over the lightly normalised, lower-cased page. |
| SelectionRects.EarlyOverWindows | worker/scripts/get_pdf_selection_rects.py:93-114 | Once the windows are known: the early scan, then the words when the ratio reaches the threshold, which is never raised. |
| SelectionRects.EarlyHitMeaning | worker/scripts/get_pdf_selection_rects.py:109-112 | A hit reaches the threshold. Its ratio is a real window's score that no window scanned before the stop exceeds, and its rectangles are the words overlapping that window. |
| SelectionRects.EarlyAgreesWithoutExcellent | worker/scripts/get_pdf_selection_rects.py:96-114 | Without a window above 0.95, this search agrees with the other script's wherever that one does not raise the threshold. |
| SelectionRects.PickMeaning | worker/scripts/get_pdf_selection_rects.py:155-194 | A strategy wins only when every earlier one found nothing, and with its own answer. Nothing is selected if and only if all four found nothing. |
| SelectionRects.FuzzyWinMeaning | worker/scripts/get_pdf_selection_rects.py:181-189 | A fuzzy win has a ratio of at least 0.85 and consists of its window's word rectangles. |
| SelectionRects.GetSelectionRectangles | worker/scripts/get_pdf_selection_rects.py:137-198 | The four-step cascade returns the dicts of the selected strategy, or `[]`. |
| PyText.Format03 | worker/scripts/docling_extract_epub.py:48 | `f"{n:03d}"` for n ≥ 0 is digits whose value is n, exactly max(3, digit count) long, so leading zeros only pad to 3. For n < 0 it is '-' and then digits of value -n, with the sign counting towards the width of 3. |
| PyText.ParseInt | worker/scripts/docling_extract_epub.py:91 | `int(s)` succeeds only on text that is not blank once stripped; what it accepts is stated in ParseIntMeaning. |
| PyText.ParseIntMeaning | worker/scripts/docling_extract_epub.py:91 | `int(s) == v` exactly when the stripped text is an integer literal of value v: a numeral of ASCII digits, optionally after '+' or '-'. |
| PyText.ParseDigits | worker/scripts/docling_extract_epub.py:91 | `int()` of a decimal numeral gives its number back. |
| EpubSections.Fallback | worker/scripts/docling_extract_epub.py:48 | `section_` is followed, for a non-negative index, by digits whose value is the index, max(3, digit count) of them. So 12 gives `section_012` and never `section_0012`. A negative index gives '-' and the digits of its magnitude. |
| EpubSections.FallbackExample | worker/scripts/docling_extract_epub.py:45-48 | An empty heading with index 12 gives "section_012". |
| EpubSections.GenerateSectionMarker | worker/scripts/docling_extract_epub.py:33-66 | The marker is never empty. |
| EpubSections.MarkerMeaning | worker/scripts/docling_extract_epub.py:47-66 | The fallback is used exactly when the heading is empty or cleans to nothing. Otherwise the result is the slug: slug-shaped, and between 1 and 50 characters long. |
| EpubSections.KeepSlugChars | worker/scripts/docling_extract_epub.py:55 | A character is in the result exactly when it is alphanumeric or '_' and occurs in the input. |
| EpubSections.KeepOne | worker/scripts/docling_extract_epub.py:55 | One character is kept exactly when it is alphanumeric or '_'. |
| EpubSections.KeepSplit | worker/scripts/docling_extract_epub.py:55 | The filter distributes over concatenation. With KeepOne, every slug character is kept in order and every other character dropped. |
| EpubSections.KeepFixes | worker/scripts/docling_extract_epub.py:55 | Text made only of slug characters is kept whole. |
| EpubSections.KeptChars | worker/scripts/docling_extract_epub.py:51-55 | After the character passes, only lower-case ASCII letters, digits and '_' remain. |
| EpubSections.SqueezeNoDouble | worker/scripts/docling_extract_epub.py:57 | `re.sub(r'_+', '_', s)` leaves no two adjacent underscores. |
| EpubSections.SqueezeChars | worker/scripts/docling_extract_epub.py:57 | Squeezing keeps the slug characters. |
| EpubSections.StripShaped | worker/scripts/docling_extract_epub.py:59 | `strip('_')` of squeezed text gives a slug shape that neither starts nor ends with '_'. |
| EpubSections.CleanedShape | worker/scripts/docling_extract_epub.py:50-59 | The cleaned heading is slug-shaped and does not end with '_'. |
| EpubSections.Truncate | worker/scripts/docling_extract_epub.py:62-63 | A slug longer than 50 characters keeps exactly its first 50. A shorter one is unchanged. |
| EpubSections.SlugShape | worker/scripts/docling_extract_epub.py:50-63 | A slug has only lower-case letters, digits and single underscores, does not start with '_', and has at most 50 characters. It ends with '_' only when the 50-character cut fell just after one. |
| EpubSections.CleanSlugFixed | worker/scripts/docling_extract_epub.py:50-66 | A heading that is already a clean slug is its own marker. |
| EpubSections.DocstringExample | worker/scripts/docling_extract_epub.py:44 | "Chapter 3: Introduction to Physics" gives "chapter_3_introduction_to_physics". |
| EpubSections.AfterLast | worker/scripts/docling_extract_epub.py:91 | `split('_')[-1]` is a suffix without '_', preceded by '_' unless it is the whole label. |
| EpubSections.AfterLastUnique | worker/scripts/docling_extract_epub.py:91 | That suffix is the only one with those properties. |
| EpubSections.LevelFromSuffix | worker/scripts/docling_extract_epub.py:88-93 | The level of `prefix_suffix` is read from the text after the last '_'. |
| EpubSections.HeadingLevelMeaning | worker/scripts/docling_extract_epub.py:88-93 | A label ending in '_' and a numeral has that number as its level. |
| EpubSections.HeadingLevelDefault | worker/scripts/docling_extract_epub.py:88-93 | When the text after the last '_' is no integer, or there is no '_', the level is 1. |
| EpubSections.HeadingLevelLiteral | worker/scripts/docling_extract_epub.py:88-91 | When the text after the last '_' strips to an integer literal of value v, the level is v. |
| EpubSections.LevelWithLeadingZeros | worker/scripts/docling_extract_epub.py:88-91 | Leading zeros are ignored: "title_01" has level 1. |
| EpubSections.LevelWithPlus | worker/scripts/docling_extract_epub.py:88-91 | A '+' sign is read: "title_+2" has level 2. |
| EpubSections.LevelWithMinus | worker/scripts/docling_extract_epub.py:88-91 | A '-' sign is read: `prefix_-n` has level -n. |
| EpubSections.LevelWithSpaces | worker/scripts/docling_extract_epub.py:88-91 | Whitespace around the digits is stripped: "title_ 3" has level 3. |
| EpubSections.TitleOne | worker/scripts/docling_extract_epub.py:87 | "title_1" has level 1. |
| EpubSections.TitleBare | worker/scripts/docling_extract_epub.py:88-89 | A label without '_' ("title") has level 1. |
| EpubSections.DeriveChunk | worker/scripts/docling_extract_epub.py:182-186 | A chunk's section marker is never empty. |
| EpubSections.DeriveChunkMeaning | worker/scripts/docling_extract_epub.py:182-220 | The marker is `section_NNN` without headings, and otherwise the marker of the last heading. heading_path is the headings, and heading_level is their number. |

## Left out

- PyMuPDF itself is supplied data or an uninterpreted function:
  - `fitz.open`;
  - the page lookup `doc[page_num - 1]`;
  - `doc.close()`;
  - the internals of `get_text` and `search_for`.
- `search_for(s)` without quads is modelled as the rectangles around the quads that `search_for(s, quads=True)` returns. No other relation between the two calls is assumed.
- `difflib.SequenceMatcher` is not modelled. Its `ratio()` is the parameter `sim`, with values in [0, 1].
- Logging to stderr, `sys.argv` parsing, JSON printing and stdout flushing are left out of every script.
- Exceptions other than the expander's division by zero are not modelled. They can come only from PyMuPDF or difflib, which are oracles here. This covers:
  - the `([], 0.0)` path of `fuzzy_search_in_page`;
  - the `None` path of the anchor locator;
  - the outer `[]` path of both cascades.

  The division by zero is modelled: `full_length / matched_length`, and `rect.width / char_width` with a zero character width.
- Strategy 2.5 of `find_text_in_pdf` is left out. Its searches are pure and its result is discarded, so it cannot change the answer.
- `best_match`, the original-text slice kept by the fuzzy search, is left out because it is only logged.
- Floats are exact reals, with no rounding.
- `Rect.width` and `Rect.height` are `max(x1 - x0, 0)` and `max(y1 - y0, 0)`, as PyMuPDF defines them.
- `str.lower()` and `str.isalnum()` are modelled on ASCII only. Unicode case mapping and Unicode letters are left out.
- `str.isspace()`, `\s` and `str.split()` use one fixed list of Unicode whitespace code points.
- PyText.ParseInt: does not accept digit-group underscores or non-ASCII digits, which Python's `int()` does.
- In the chunk loop of `extract_epub_html`:
  - `page_start`, `page_end` and `bboxes` are constant None and are not carried in `ChunkMeta`;
  - the provenance offsets are computed but never written to the chunk, so they are left out.
- Only the level parse of `extract_html_structure` is modelled (item label to level). Left out:
  - the `'title' in label` test and the `hasattr` dispatch;
  - the tables, lists and sections it collects.
- The EPUB conversion (`DocumentConverter`, `HybridChunker`), temporary files and progress messages are left out. A chunk's `index` and `content` pass through unchanged, so `ChunkMeta` does not carry them.
- The unused `full_length` and `page_text` parameters are accepted and never read, as in the source.
