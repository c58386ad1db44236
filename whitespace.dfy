/**
 * The whitespace normaliser of find_text_in_pdf.py: every maximal run of
 * whitespace becomes one ASCII space, and the ends are not stripped.
 */
module Whitespace {
  import opened PyText

  /** Every whitespace character is a plain space. */
  ghost predicate OnlyPlainSpaces(s: string) {
    forall c :: c in s && IsSpace(c) ==> c == ' '
  }

  /** No two whitespace characters are adjacent. */
  ghost predicate NoDoubleSpace(s: string) {
    forall i :: 0 <= i < |s| - 1 ==> !(IsSpace(s[i]) && IsSpace(s[i + 1]))
  }

  /** What `re.sub(r'\s+', ' ', s)` leaves behind. */
  ghost predicate Collapsed(s: string) {
    OnlyPlainSpaces(s) && NoDoubleSpace(s)
  }

  /** The non-whitespace characters of `s`, in order. */
  function NonSpace(s: string): string {
    if s == [] then [] else (if IsSpace(s[0]) then [] else [s[0]]) + NonSpace(s[1..])
  }

  lemma {:induction false} NonSpaceLStrip(s: string)
    ensures NonSpace(LStrip(s)) == NonSpace(s)
  {
    if s != [] && IsSpace(s[0]) {
      NonSpaceLStrip(s[1..]);
    }
  }

  lemma {:induction false} LStripChars(s: string)
    ensures forall c :: c in LStrip(s) ==> c in s
  {
    var r := LStrip(s);
    assert s == s[..|s| - |r|] + r;
  }

  /**
   * find_text_in_pdf.py's normalize_whitespace, `re.sub(r'\s+', ' ', text)`.
   * It is never longer than its input, empty only for empty input, and begins
   * with whitespace exactly when the input does (the front is not stripped).
   */
  function CollapseWhitespace(s: string): (r: string)
    decreases |s|
    ensures |r| <= |s| && (r == [] <==> s == [])
    ensures r != [] ==> (IsSpace(r[0]) <==> IsSpace(s[0]))
  {
    if s == [] then []
    else if IsSpace(s[0]) then [' '] + CollapseWhitespace(LStrip(s[1..]))
    else [s[0]] + CollapseWhitespace(s[1..])
  }

  /** Putting a character in front of collapsed text keeps it collapsed when that character is no second space. */
  lemma ConsCollapsed(c: char, r: string)
    requires Collapsed(r)
    requires IsSpace(c) ==> c == ' ' && (r == [] || !IsSpace(r[0]))
    ensures Collapsed([c] + r)
  {
    var s := [c] + r;
    forall i | 0 <= i < |s| - 1
      ensures !(IsSpace(s[i]) && IsSpace(s[i + 1]))
    {
      if i > 0 {
        assert s[i] == r[i - 1] && s[i + 1] == r[i];
      }
    }
    forall x | x in s && IsSpace(x)
      ensures x == ' '
    {
      if x != c {
        assert x in r;
      }
    }
  }

  /** The output has only plain spaces and never two in a row. */
  lemma {:induction false} CollapseIsCollapsed(s: string)
    decreases |s|
    ensures Collapsed(CollapseWhitespace(s))
  {
    if s != [] {
      var t := if IsSpace(s[0]) then LStrip(s[1..]) else s[1..];
      CollapseIsCollapsed(t);
      ConsCollapsed(if IsSpace(s[0]) then ' ' else s[0], CollapseWhitespace(t));
    }
  }

  /** The output has no character the input lacks, except the plain space. */
  lemma {:induction false} CollapseChars(s: string)
    decreases |s|
    ensures forall c :: c in CollapseWhitespace(s) ==> c in s || c == ' '
  {
    if s != [] {
      var t := if IsSpace(s[0]) then LStrip(s[1..]) else s[1..];
      CollapseChars(t);
      LStripChars(s[1..]);
      assert forall c :: c in t ==> c in s;
    }
  }

  /** Every non-whitespace character survives, in order. */
  lemma {:induction false} CollapseKeepsText(s: string)
    decreases |s|
    ensures NonSpace(CollapseWhitespace(s)) == NonSpace(s)
  {
    if s != [] {
      if IsSpace(s[0]) {
        CollapseKeepsText(LStrip(s[1..]));
        NonSpaceLStrip(s[1..]);
      } else {
        CollapseKeepsText(s[1..]);
      }
    }
  }

  /** The back is not stripped either: the output ends in a space exactly when the input ends in whitespace. */
  lemma {:induction false} CollapseKeepsEnd(s: string)
    decreases |s|
    requires s != []
    ensures IsSpace(CollapseWhitespace(s)[|CollapseWhitespace(s)| - 1]) <==> IsSpace(s[|s| - 1])
  {
    var t := if IsSpace(s[0]) then LStrip(s[1..]) else s[1..];
    if t != [] {
      CollapseKeepsEnd(t);
      assert t[|t| - 1] == s[|s| - 1];
    }
  }

  /** The collapse leaves collapsed text unchanged. */
  lemma {:induction false} CollapseFixesCollapsed(s: string)
    requires Collapsed(s)
    ensures CollapseWhitespace(s) == s
  {
    if s != [] {
      assert Collapsed(s[1..]) by {
        assert forall c :: c in s[1..] ==> c in s;
      }
      CollapseFixesCollapsed(s[1..]);
      if IsSpace(s[0]) {
        assert s[1..] == [] || !IsSpace(s[1]);
        assert LStrip(s[1..]) == s[1..];
      }
    }
  }

  /** normalize_whitespace is idempotent. */
  lemma CollapseIdempotent(s: string)
    ensures CollapseWhitespace(CollapseWhitespace(s)) == CollapseWhitespace(s)
  {
    CollapseIsCollapsed(s);
    CollapseFixesCollapsed(CollapseWhitespace(s));
  }
}
