/**
 * The aggressive normaliser of find_text_in_pdf.py: a chain of regular
 * expression rewrites, each modelled as one pass over the string.
 */
module Aggressive {
  import opened PyText
  import opened Whitespace

  /** The quote code points mapped to '@': " ' ` U+00B4 and U+2018 to U+201F. */
  predicate IsQuote(c: char) {
    c == '"' || c == '\'' || c == '`' || c == '\U{B4}' || '\U{2018}' <= c <= '\U{201F}'
  }

  /** The dash code points mapped to '-': U+2010 to U+2015 and U+2212. */
  predicate IsDash(c: char) {
    '\U{2010}' <= c <= '\U{2015}' || c == '\U{2212}'
  }

  const SoftHyphen: char := '\U{AD}'

  /** The class `[,.!?;:]`. */
  predicate IsPunct(c: char) {
    c == ',' || c == '.' || c == '!' || c == '?' || c == ';' || c == ':'
  }

  ghost predicate NoQuotes(s: string) {
    forall c :: c in s ==> !IsQuote(c)
  }

  ghost predicate NoDashes(s: string) {
    forall c :: c in s ==> !IsDash(c)
  }

  /** No '-' is directly followed by whitespace. */
  ghost predicate NoHyphenBreak(s: string) {
    forall i :: 0 <= i < |s| - 1 ==> !(s[i] == '-' && IsSpace(s[i + 1]))
  }

  /** No whitespace directly precedes one of `,.!?;:`. */
  ghost predicate NoSpaceBeforePunct(s: string) {
    forall i :: 0 <= i < |s| - 1 ==> !(IsSpace(s[i]) && IsPunct(s[i + 1]))
  }

  /** No leading or trailing whitespace. */
  ghost predicate Trimmed(s: string) {
    s == [] || (!IsSpace(s[0]) && !IsSpace(s[|s| - 1]))
  }

  /** The first substitution: every quote code point becomes '@'. */
  function FoldQuotes(s: string): string {
    seq(|s|, i requires 0 <= i < |s| => if IsQuote(s[i]) then '@' else s[i])
  }

  /** The second substitution: every dash code point becomes '-'. */
  function FoldDashes(s: string): string {
    seq(|s|, i requires 0 <= i < |s| => if IsDash(s[i]) then '-' else s[i])
  }

  /** The soft hyphens U+00AD are removed. */
  function DropSoftHyphens(s: string): (r: string)
    ensures |r| <= |s|
  {
    if s == [] then [] else (if s[0] == SoftHyphen then [] else [s[0]]) + DropSoftHyphens(s[1..])
  }

  /** `re.sub(r'-\s+', '', s)`: a hyphen and the whitespace run after it disappear. */
  function JoinHyphenated(s: string): (r: string)
    decreases |s|
    ensures |r| <= |s|
    ensures r != [] && IsSpace(r[0]) ==> IsSpace(s[0])
  {
    if s == [] then []
    else if s[0] == '-' && |s| > 1 && IsSpace(s[1]) then JoinHyphenated(LStrip(s[1..]))
    else [s[0]] + JoinHyphenated(s[1..])
  }

  /** `re.sub(r'\s+([,.!?;:])', r'\1', s)`: a whitespace run before punctuation disappears. */
  function DropSpaceBeforePunct(s: string): (r: string)
    decreases |s|
    ensures |r| <= |s|
    ensures r != [] ==> r[0] == s[0] || (IsSpace(s[0]) && IsPunct(r[0]))
  {
    if s == [] then []
    else if IsSpace(s[0]) && LStrip(s) != [] && IsPunct(LStrip(s)[0]) then
      var t := LStrip(s);
      [t[0]] + DropSpaceBeforePunct(t[1..])
    else [s[0]] + DropSpaceBeforePunct(s[1..])
  }

  /** `re.sub(r'([,.!?;:])\s+', r'\1 ', s)`: the whitespace run after punctuation becomes one space. */
  function SpaceAfterPunct(s: string): string
    decreases |s|
  {
    if s == [] then []
    else if IsPunct(s[0]) && |s| > 1 && IsSpace(s[1]) then [s[0], ' '] + SpaceAfterPunct(LStrip(s[1..]))
    else [s[0]] + SpaceAfterPunct(s[1..])
  }

  /** find_text_in_pdf.py's normalize_text_aggressive: the passes in the source's order, then `strip()`. */
  function NormalizeAggressive(s: string): string {
    Strip(SpaceAfterPunct(DropSpaceBeforePunct(CollapseWhitespace(
      JoinHyphenated(DropSoftHyphens(FoldDashes(FoldQuotes(s))))))))
  }

  // ----- facts about the individual passes -----

  lemma ConsNoHyphenBreak(x: char, t: string)
    requires NoHyphenBreak(t) && (t == [] || !(x == '-' && IsSpace(t[0])))
    ensures NoHyphenBreak([x] + t)
  {
    var r := [x] + t;
    forall i | 0 <= i < |r| - 1 ensures !(r[i] == '-' && IsSpace(r[i + 1])) {
      if i > 0 { assert r[i] == t[i - 1] && r[i + 1] == t[i]; }
    }
  }

  lemma ConsNoDoubleSpace(x: char, t: string)
    requires NoDoubleSpace(t) && (t == [] || !(IsSpace(x) && IsSpace(t[0])))
    ensures NoDoubleSpace([x] + t)
  {
    var r := [x] + t;
    forall i | 0 <= i < |r| - 1 ensures !(IsSpace(r[i]) && IsSpace(r[i + 1])) {
      if i > 0 { assert r[i] == t[i - 1] && r[i + 1] == t[i]; }
    }
  }

  lemma ConsNoSpaceBeforePunct(x: char, t: string)
    requires NoSpaceBeforePunct(t) && (t == [] || !(IsSpace(x) && IsPunct(t[0])))
    ensures NoSpaceBeforePunct([x] + t)
  {
    var r := [x] + t;
    forall i | 0 <= i < |r| - 1 ensures !(IsSpace(r[i]) && IsPunct(r[i + 1])) {
      if i > 0 { assert r[i] == t[i - 1] && r[i + 1] == t[i]; }
    }
  }

  /** Each property of adjacent pairs survives dropping a prefix. */
  lemma SuffixNoHyphenBreak(s: string, a: nat)
    requires a <= |s| && NoHyphenBreak(s)
    ensures NoHyphenBreak(s[a..])
  {
    var t := s[a..];
    forall i | 0 <= i < |t| - 1 ensures !(t[i] == '-' && IsSpace(t[i + 1])) {
      assert t[i] == s[a + i] && t[i + 1] == s[a + i + 1];
    }
  }

  lemma SuffixNoSpaceBeforePunct(s: string, a: nat)
    requires a <= |s| && NoSpaceBeforePunct(s)
    ensures NoSpaceBeforePunct(s[a..])
  {
    var t := s[a..];
    forall i | 0 <= i < |t| - 1 ensures !(IsSpace(t[i]) && IsPunct(t[i + 1])) {
      assert t[i] == s[a + i] && t[i + 1] == s[a + i + 1];
    }
  }

  lemma SuffixCollapsed(s: string, a: nat)
    requires a <= |s| && Collapsed(s)
    ensures Collapsed(s[a..])
  {
    var t := s[a..];
    forall i | 0 <= i < |t| - 1 ensures !(IsSpace(t[i]) && IsSpace(t[i + 1])) {
      assert t[i] == s[a + i] && t[i + 1] == s[a + i + 1];
    }
    assert forall c :: c in t ==> c in s;
  }

  lemma StripIsSlice(s: string)
    ensures var a := |s| - |LStrip(s)|; a + |Strip(s)| <= |s| && Strip(s) == s[a..a + |Strip(s)|]
  {
  }

  lemma {:induction false} DropSoftHyphensFacts(s: string)
    ensures SoftHyphen !in DropSoftHyphens(s)
    ensures forall c :: c in DropSoftHyphens(s) ==> c in s
  {
    if s != [] {
      DropSoftHyphensFacts(s[1..]);
    }
  }

  lemma {:induction false} JoinHyphenatedFacts(s: string)
    decreases |s|
    ensures NoHyphenBreak(JoinHyphenated(s))
    ensures forall c :: c in JoinHyphenated(s) ==> c in s
  {
    if s != [] {
      if s[0] == '-' && |s| > 1 && IsSpace(s[1]) {
        JoinHyphenatedFacts(LStrip(s[1..]));
        LStripChars(s[1..]);
      } else {
        JoinHyphenatedFacts(s[1..]);
        var r := JoinHyphenated(s[1..]);
        assert JoinHyphenated(s) == [s[0]] + r;
      }
    }
  }

  lemma {:induction false} DropSpaceBeforePunctChars(s: string)
    decreases |s|
    ensures forall c :: c in DropSpaceBeforePunct(s) ==> c in s
  {
    if s != [] {
      if IsSpace(s[0]) && LStrip(s) != [] && IsPunct(LStrip(s)[0]) {
        var t := LStrip(s);
        DropSpaceBeforePunctChars(t[1..]);
        LStripChars(s);
        assert forall c :: c in t[1..] ==> c in t;
      } else {
        DropSpaceBeforePunctChars(s[1..]);
      }
    }
  }

  /** On collapsed text the punctuation pass looks at most one character ahead. */
  lemma DropSpaceBeforePunctStep(s: string)
    requires Collapsed(s) && s != []
    ensures IsSpace(s[0]) && |s| > 1 && IsPunct(s[1]) ==>
      DropSpaceBeforePunct(s) == [s[1]] + DropSpaceBeforePunct(s[2..])
    ensures !(IsSpace(s[0]) && |s| > 1 && IsPunct(s[1])) ==>
      DropSpaceBeforePunct(s) == [s[0]] + DropSpaceBeforePunct(s[1..])
  {
    if IsSpace(s[0]) && |s| > 1 {
      assert !IsSpace(s[1]);
      assert LStrip(s) == s[1..];
    }
  }

  /** On collapsed text the punctuation pass keeps it collapsed and removes every space before punctuation. */
  lemma {:induction false} DropSpaceBeforePunctFacts(s: string)
    decreases |s|
    requires Collapsed(s) && NoHyphenBreak(s)
    ensures NoDoubleSpace(DropSpaceBeforePunct(s))
    ensures NoHyphenBreak(DropSpaceBeforePunct(s))
    ensures NoSpaceBeforePunct(DropSpaceBeforePunct(s))
  {
    if s != [] {
      DropSpaceBeforePunctStep(s);
      var k := if IsSpace(s[0]) && |s| > 1 && IsPunct(s[1]) then 1 else 0;
      SuffixCollapsed(s, k + 1);
      SuffixNoHyphenBreak(s, k + 1);
      DropSpaceBeforePunctFacts(s[k + 1..]);
      var t := DropSpaceBeforePunct(s[k + 1..]);
      if k == 0 && |s| > 1 {
        assert !(IsSpace(s[0]) && IsSpace(s[1]));
      }
      ConsNoDoubleSpace(s[k], t);
      ConsNoHyphenBreak(s[k], t);
      ConsNoSpaceBeforePunct(s[k], t);
    }
  }

  // ----- each pass leaves its own output alone -----

  lemma FoldQuotesFixes(s: string)
    requires NoQuotes(s)
    ensures FoldQuotes(s) == s
  {
  }

  lemma FoldDashesFixes(s: string)
    requires NoDashes(s)
    ensures FoldDashes(s) == s
  {
  }

  lemma {:induction false} DropSoftHyphensFixes(s: string)
    requires SoftHyphen !in s
    ensures DropSoftHyphens(s) == s
  {
    if s != [] {
      DropSoftHyphensFixes(s[1..]);
    }
  }

  lemma {:induction false} JoinHyphenatedFixes(s: string)
    requires NoHyphenBreak(s)
    ensures JoinHyphenated(s) == s
  {
    if s != [] {
      SuffixNoHyphenBreak(s, 1);
      JoinHyphenatedFixes(s[1..]);
    }
  }

  lemma {:induction false} DropSpaceBeforePunctFixes(s: string)
    requires Collapsed(s) && NoSpaceBeforePunct(s)
    ensures DropSpaceBeforePunct(s) == s
  {
    if s != [] {
      if IsSpace(s[0]) && |s| > 1 {
        assert !IsSpace(s[1]) && !IsPunct(s[1]);
        assert LStrip(s) == s[1..];
      }
      SuffixCollapsed(s, 1);
      SuffixNoSpaceBeforePunct(s, 1);
      DropSpaceBeforePunctFixes(s[1..]);
      assert DropSpaceBeforePunct(s) == [s[0]] + DropSpaceBeforePunct(s[1..]);
      assert s == [s[0]] + s[1..];
    }
  }

  lemma {:induction false} SpaceAfterPunctFixes(s: string)
    decreases |s|
    requires Collapsed(s)
    ensures SpaceAfterPunct(s) == s
  {
    if s != [] {
      if IsPunct(s[0]) && |s| > 1 && IsSpace(s[1]) {
        SpaceAfterPunctStep(s);
        SuffixCollapsed(s, 2);
        SpaceAfterPunctFixes(s[2..]);
        assert s == [s[0], s[1]] + s[2..];
      } else {
        SuffixCollapsed(s, 1);
        SpaceAfterPunctFixes(s[1..]);
        assert s == [s[0]] + s[1..];
      }
    }
  }

  /** On collapsed text the space after punctuation is a single plain space, kept as it is. */
  lemma SpaceAfterPunctStep(s: string)
    requires Collapsed(s) && |s| > 1 && IsPunct(s[0]) && IsSpace(s[1])
    ensures s[1] == ' '
    ensures SpaceAfterPunct(s) == [s[0], ' '] + SpaceAfterPunct(s[2..])
  {
    assert s[1] in s;
    assert s[2..] == [] || !IsSpace(s[2]);
    assert LStrip(s[1..]) == s[2..];
  }

  // ----- the normaliser as a whole -----

  /** The character-level passes, before whitespace is touched. */
  function CharPasses(s: string): string {
    JoinHyphenated(DropSoftHyphens(FoldDashes(FoldQuotes(s))))
  }

  lemma CharPassesClean(s: string)
    ensures var d := CharPasses(s);
      |d| <= |s| && NoQuotes(d) && NoDashes(d) && SoftHyphen !in d && NoHyphenBreak(d)
  {
    var a := FoldQuotes(s);
    var b := FoldDashes(a);
    var c := DropSoftHyphens(b);
    assert NoQuotes(a);
    assert NoQuotes(b) && NoDashes(b);
    DropSoftHyphensFacts(b);
    assert NoQuotes(c) && NoDashes(c);
    JoinHyphenatedFacts(c);
  }

  /** The whitespace passes on the output of the character passes. */
  lemma SpacePassesClean(d: string)
    requires NoQuotes(d) && NoDashes(d) && SoftHyphen !in d && NoHyphenBreak(d)
    ensures var f := DropSpaceBeforePunct(CollapseWhitespace(d));
      && |f| <= |d| && NoQuotes(f) && NoDashes(f) && SoftHyphen !in f
      && NoHyphenBreak(f) && Collapsed(f) && NoSpaceBeforePunct(f)
  {
    var e := CollapseWhitespace(d);
    CollapseIsCollapsed(d);
    CollapseChars(d);
    assert NoQuotes(e) && NoDashes(e) && SoftHyphen !in e;
    CollapsePreservesNoHyphenBreak(d);
    DropSpaceBeforePunctChars(e);
    DropSpaceBeforePunctFacts(e);
  }

  /**
   * normalize_text_aggressive's output: no quote (they are '@'), no dash
   * code point, no soft hyphen, no '-' before whitespace, only single plain
   * spaces, no space before `,.!?;:`, no whitespace at either end, and never
   * longer than the input.
   */
  lemma AggressiveClean(s: string)
    ensures var r := NormalizeAggressive(s);
      && |r| <= |s|
      && NoQuotes(r) && NoDashes(r) && SoftHyphen !in r
      && NoHyphenBreak(r) && Collapsed(r) && NoSpaceBeforePunct(r) && Trimmed(r)
  {
    var d := CharPasses(s);
    CharPassesClean(s);
    SpacePassesClean(d);
    var f := DropSpaceBeforePunct(CollapseWhitespace(d));
    SpaceAfterPunctFixes(f);
    StripClean(f);
    assert NormalizeAggressive(s) == Strip(f);
  }

  /** Stripping the ends keeps every property of a clean string and adds Trimmed. */
  lemma StripClean(f: string)
    requires NoQuotes(f) && NoDashes(f) && SoftHyphen !in f
    requires NoHyphenBreak(f) && Collapsed(f) && NoSpaceBeforePunct(f)
    ensures var r := Strip(f);
      && |r| <= |f|
      && NoQuotes(r) && NoDashes(r) && SoftHyphen !in r
      && NoHyphenBreak(r) && Collapsed(r) && NoSpaceBeforePunct(r) && Trimmed(r)
  {
    StripKeepsChars(f);
    StripKeepsPairs(f);
  }

  /** The characters of the stripped string all come from the string. */
  lemma StripKeepsChars(f: string)
    ensures forall c :: c in Strip(f) ==> c in f
  {
    var r := Strip(f);
    StripIsSlice(f);
    var lo := |f| - |LStrip(f)|;
    forall c | c in r
      ensures c in f
    {
      var k :| 0 <= k < |r| && r[k] == c;
      assert f[lo + k] == c;
    }
  }

  /** The stripped string is a slice, so its adjacent pairs are pairs of the string. */
  lemma StripKeepsPairs(f: string)
    ensures forall i :: 0 <= i < |Strip(f)| ==> Strip(f)[i] == f[|f| - |LStrip(f)| + i]
  {
    StripIsSlice(f);
  }

  /** Collapsing keeps "no hyphen before whitespace": whitespace stays whitespace, other characters stay put. */
  lemma {:induction false} CollapsePreservesNoHyphenBreak(s: string)
    decreases |s|
    requires NoHyphenBreak(s)
    ensures NoHyphenBreak(CollapseWhitespace(s))
  {
    if s != [] {
      var t := if IsSpace(s[0]) then LStrip(s[1..]) else s[1..];
      assert t == s[|s| - |t|..];
      SuffixNoHyphenBreak(s, |s| - |t|);
      CollapsePreservesNoHyphenBreak(t);
      var r := CollapseWhitespace(t);
      var x := if IsSpace(s[0]) then ' ' else s[0];
      assert CollapseWhitespace(s) == [x] + r;
      ConsNoHyphenBreak(x, r);
    }
  }

  /** normalize_text_aggressive is idempotent. */
  lemma AggressiveIdempotent(s: string)
    ensures NormalizeAggressive(NormalizeAggressive(s)) == NormalizeAggressive(s)
  {
    var r := NormalizeAggressive(s);
    AggressiveClean(s);
    FoldQuotesFixes(r);
    FoldDashesFixes(r);
    DropSoftHyphensFixes(r);
    JoinHyphenatedFixes(r);
    CollapseFixesCollapsed(r);
    DropSpaceBeforePunctFixes(r);
    SpaceAfterPunctFixes(r);
    StripUnchanged(r);
  }
}
