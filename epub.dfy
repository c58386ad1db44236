/**
 * The pure helpers of docling_extract_epub.py: the section-marker slug
 * (generate_section_marker), the heading level read from an item label, and the
 * metadata derived for each chunk.
 */
module EpubSections {
  import opened Wrappers
  import opened PyText

  // ----- generate_section_marker -----

  /** `f"section_{index:03d}"` */
  function Fallback(index: int): (m: string)
    ensures |m| >= 11 && m[..8] == "section_"
    ensures index >= 0 ==> AllDigits(m[8..]) && DecimalValue(m[8..]) == index
    ensures index >= 0 ==> |m| == 8 + if |Digits(index)| >= 3 then |Digits(index)| else 3
    ensures index < 0 ==> m[8] == '-' && AllDigits(m[9..]) && DecimalValue(m[9..]) == -index
  {
    var m := "section_" + Format03(index);
    assert m[8..] == Format03(index);
    assert m[9..] == Format03(index)[1..];
    m
  }

  /** The two `replace` calls: spaces and hyphens become underscores. */
  function Underscored(s: string): (r: string)
    ensures |r| == |s|
    ensures forall i :: 0 <= i < |s| ==> r[i] == (if s[i] == ' ' || s[i] == '-' then '_' else s[i])
  {
    seq(|s|, i requires 0 <= i < |s| => if s[i] == ' ' || s[i] == '-' then '_' else s[i])
  }

  /** The characters a slug may keep: `c.isalnum() or c == '_'`. */
  predicate SlugChar(c: char) {
    IsAlnum(c) || c == '_'
  }

  /** `''.join(c for c in s if c.isalnum() or c == '_')` */
  function KeepSlugChars(s: string): (r: string)
    ensures |r| <= |s|
    ensures forall i :: 0 <= i < |r| ==> SlugChar(r[i])
    ensures forall c :: c in r <==> c in s && SlugChar(c)
  {
    if s == [] then []
    else
      var t := KeepSlugChars(s[1..]);
      if SlugChar(s[0]) then [s[0]] + t else t
  }

  /** The underscores at the front of `s` removed (`lstrip('_')`). */
  function LStripUnderscores(s: string): (r: string)
    ensures |r| <= |s| && r == s[|s| - |r|..]
    ensures r == [] || r[0] != '_'
    ensures forall j :: 0 <= j < |s| - |r| ==> s[j] == '_'
  {
    if s != [] && s[0] == '_' then LStripUnderscores(s[1..]) else s
  }

  /** The underscores at the back of `s` removed (`rstrip('_')`). */
  function RStripUnderscores(s: string): (r: string)
    ensures |r| <= |s| && r == s[..|r|]
    ensures r == [] || r[|r| - 1] != '_'
  {
    if s != [] && s[|s| - 1] == '_' then RStripUnderscores(s[..|s| - 1]) else s
  }

  /** `strip('_')` */
  function StripUnderscores(s: string): (r: string)
    ensures r == [] || (r[0] != '_' && r[|r| - 1] != '_')
  {
    RStripUnderscores(LStripUnderscores(s))
  }

  /** `re.sub(r'_+', '_', s)`: every run of underscores becomes one. */
  function SqueezeUnderscores(s: string): (r: string)
    decreases |s|
    ensures |r| <= |s|
    ensures forall c :: c in r ==> c in s
    ensures r != [] ==> s != [] && r[0] == s[0]
  {
    if s == [] then []
    else if s[0] == '_' then ['_'] + SqueezeUnderscores(LStripUnderscores(s[1..]))
    else [s[0]] + SqueezeUnderscores(s[1..])
  }

  /** No two underscores are adjacent. */
  ghost predicate NoDoubleUnderscore(s: string) {
    forall i :: 0 <= i < |s| - 1 ==> !(s[i] == '_' && s[i + 1] == '_')
  }

  /** `slug[:50]` when it is longer than 50 characters. */
  const MaxSlug: nat := 50

  function Truncate(s: string, n: nat): (r: string)
    ensures |r| <= n && |r| <= |s| && r == s[..|r|]
    ensures |s| <= n ==> r == s
    ensures |s| > n ==> |r| == n
  {
    if |s| > n then s[..n] else s
  }

  /** The character passes: lower-case, underscores for spaces and hyphens, then the filter. */
  function Kept(s: string): string {
    KeepSlugChars(Underscored(Lower(s)))
  }

  /** The cleaned heading before the length limit. */
  function Cleaned(heading: string): string {
    StripUnderscores(SqueezeUnderscores(Kept(heading)))
  }

  /** The slug of a heading: the cleaned heading cut to 50 characters. */
  function Slug(heading: string): string {
    Truncate(Cleaned(heading), MaxSlug)
  }

  /** generate_section_marker. */
  function GenerateSectionMarker(heading: string, index: int): (m: string)
    ensures m != []
  {
    if heading == [] then Fallback(index)
    else
      var slug := Slug(heading);
      if slug != [] then slug else Fallback(index)
  }

  // ----- what a slug looks like -----

  /** Lower-case slug characters only. */
  ghost predicate SlugChars(s: string) {
    forall i :: 0 <= i < |s| ==> SlugChar(s[i]) && !IsUpper(s[i])
  }

  /** A slug as the cleaning leaves it: lower-case letters, digits and single underscores, not starting with '_'. */
  ghost predicate SlugShaped(s: string) {
    SlugChars(s) && NoDoubleUnderscore(s)
    && (s == [] || s[0] != '_')
  }

  lemma {:induction false} SqueezeNoDouble(s: string)
    decreases |s|
    ensures NoDoubleUnderscore(SqueezeUnderscores(s))
  {
    if s != [] {
      var t := if s[0] == '_' then LStripUnderscores(s[1..]) else s[1..];
      SqueezeNoDouble(t);
      var r := SqueezeUnderscores(t);
      assert s[0] == '_' ==> r == [] || r[0] != '_';
      ConsNoDouble(s[0], r);
    }
  }

  /** One character before a string without double underscores keeps it so, unless both are '_'. */
  lemma ConsNoDouble(x: char, r: string)
    requires NoDoubleUnderscore(r)
    requires x == '_' ==> r == [] || r[0] != '_'
    ensures NoDoubleUnderscore([x] + r)
  {
    var u := [x] + r;
    forall i | 0 <= i < |u| - 1
      ensures !(u[i] == '_' && u[i + 1] == '_')
    {
      if i > 0 {
        assert u[i] == r[i - 1] && u[i + 1] == r[i];
      }
    }
  }

  /** Every property of SlugShaped survives taking a contiguous slice that does not start with '_'. */
  lemma SliceShaped(s: string, a: nat, b: nat)
    requires a <= b <= |s|
    requires SlugChars(s) && NoDoubleUnderscore(s)
    requires a == b || s[a] != '_'
    ensures SlugShaped(s[a..b])
  {
    var r := s[a..b];
    forall i | 0 <= i < |r| - 1
      ensures !(r[i] == '_' && r[i + 1] == '_')
    {
      assert r[i] == s[a + i] && r[i + 1] == s[a + i + 1];
    }
  }

  /** The character passes leave only lower-case slug characters. */
  lemma KeptChars(heading: string)
    ensures SlugChars(Kept(heading))
  {
    var a := Underscored(Lower(heading));
    var c := KeepSlugChars(a);
    forall i | 0 <= i < |c|
      ensures !IsUpper(c[i])
    {
      assert c[i] in a;
    }
  }

  /** Squeezing keeps the characters and leaves no double underscore. */
  lemma SqueezeChars(c: string)
    requires SlugChars(c)
    ensures SlugChars(SqueezeUnderscores(c)) && NoDoubleUnderscore(SqueezeUnderscores(c))
  {
    var d := SqueezeUnderscores(c);
    SqueezeNoDouble(c);
    forall i | 0 <= i < |d|
      ensures SlugChar(d[i]) && !IsUpper(d[i])
    {
      assert d[i] in c;
    }
  }

  /** Stripping the underscores of squeezed slug characters gives a slug shape not ending with '_'. */
  lemma StripShaped(d: string)
    requires SlugChars(d) && NoDoubleUnderscore(d)
    ensures SlugShaped(StripUnderscores(d))
    ensures StripUnderscores(d) == [] || StripUnderscores(d)[|StripUnderscores(d)| - 1] != '_'
  {
    var lo, hi := StripSlice(d);
    SliceShaped(d, lo, hi);
  }

  /** `strip('_')` leaves a contiguous slice that does not start with '_'. */
  lemma StripSlice(d: string) returns (lo: nat, hi: nat)
    ensures lo <= hi <= |d| && StripUnderscores(d) == d[lo..hi]
    ensures lo == hi || d[lo] != '_'
  {
    var l := LStripUnderscores(d);
    lo := |d| - |l|;
    var e := RStripUnderscores(l);
    hi := lo + |e|;
    assert l == d[lo..] && e == l[..|e|];
    assert e != [] ==> d[lo] == l[0];
  }

  /** The cleaned heading: shaped as a slug, and not ending with '_'. */
  lemma CleanedShape(heading: string)
    ensures SlugShaped(Cleaned(heading))
    ensures Cleaned(heading) == [] || Cleaned(heading)[|Cleaned(heading)| - 1] != '_'
  {
    KeptChars(heading);
    SqueezeChars(Kept(heading));
    StripShaped(SqueezeUnderscores(Kept(heading)));
  }

  /**
   * A slug has only lower-case ASCII letters, digits and '_', never two
   * '_' in a row, does not start with '_' and has at most 50 characters;
   * it ends with '_' only when the cut at 50 characters fell right after one.
   */
  lemma SlugShape(heading: string)
    ensures SlugShaped(Slug(heading)) && |Slug(heading)| <= MaxSlug
    ensures Slug(heading) != [] && Slug(heading)[|Slug(heading)| - 1] == '_' ==>
      |Cleaned(heading)| > MaxSlug && |Slug(heading)| == MaxSlug
  {
    CleanedShape(heading);
    TruncateShaped(Cleaned(heading));
  }

  /** Cutting a slug-shaped text that does not end with '_' keeps its shape; a trailing '_' comes only from the cut. */
  lemma TruncateShaped(e: string)
    requires SlugShaped(e) && (e == [] || e[|e| - 1] != '_')
    ensures SlugShaped(Truncate(e, MaxSlug))
    ensures Truncate(e, MaxSlug) != [] && Truncate(e, MaxSlug)[|Truncate(e, MaxSlug)| - 1] == '_' ==>
      |e| > MaxSlug && |Truncate(e, MaxSlug)| == MaxSlug
  {
    var f := Truncate(e, MaxSlug);
    SliceShaped(e, 0, |f|);
    assert e[0..|f|] == f;
  }

  /**
   * generate_section_marker falls back to `section_NNN` exactly when the
   * heading is empty or cleans to nothing; otherwise it gives the slug.
   */
  lemma MarkerMeaning(heading: string, index: int)
    ensures heading == [] || Slug(heading) == [] ==> GenerateSectionMarker(heading, index) == Fallback(index)
    ensures heading != [] && Slug(heading) != [] ==>
      GenerateSectionMarker(heading, index) == Slug(heading) && SlugShaped(Slug(heading))
      && 0 < |Slug(heading)| <= MaxSlug
    ensures Slug(heading) == [] <==> Cleaned(heading) == []
  {
    SlugShape(heading);
  }

  /** The empty heading's marker, e.g. index 12 gives "section_012". */
  lemma FallbackExample()
    ensures GenerateSectionMarker("", 12) == "section_012"
  {
    assert Digits(12) == Digits(1) + [DigitChar(2)];
    assert Digits(12) == "12";
    assert Format03(12) == "012";
  }

  // ----- a clean slug is its own marker -----

  /** An already clean slug: shaped as a slug, not ending with '_', with no ' ' or '-', and at most 50 characters. */
  ghost predicate CleanSlug(s: string) {
    SlugShaped(s) && (s == [] || s[|s| - 1] != '_') && |s| <= MaxSlug
  }

  lemma LowerFixes(s: string)
    requires forall i :: 0 <= i < |s| ==> !IsUpper(s[i])
    ensures Lower(s) == s
  {
  }

  lemma {:induction false} KeepFixes(s: string)
    requires forall i :: 0 <= i < |s| ==> SlugChar(s[i])
    ensures KeepSlugChars(s) == s
  {
    if s != [] {
      KeepFixes(s[1..]);
      assert s == [s[0]] + s[1..];
    }
  }

  /** One character is kept exactly when it is a slug character. */
  lemma KeepOne(c: char)
    ensures KeepSlugChars([c]) == if SlugChar(c) then [c] else []
  {
    assert [c][1..] == [];
  }

  /** The filter works piece by piece: with KeepOne, every slug character of `s` is kept, in order, and nothing else. */
  lemma {:induction false} KeepSplit(a: string, b: string)
    ensures KeepSlugChars(a + b) == KeepSlugChars(a) + KeepSlugChars(b)
  {
    if a != [] {
      KeepSplit(a[1..], b);
      assert (a + b)[1..] == a[1..] + b;
    } else {
      assert a + b == b;
    }
  }

  lemma {:induction false} SqueezeFixes(s: string)
    requires NoDoubleUnderscore(s)
    ensures SqueezeUnderscores(s) == s
  {
    if s != [] {
      assert NoDoubleUnderscore(s[1..]) by {
        forall i | 0 <= i < |s[1..]| - 1
          ensures !(s[1..][i] == '_' && s[1..][i + 1] == '_')
        {
          assert s[1..][i] == s[i + 1] && s[1..][i + 1] == s[i + 2];
        }
      }
      SqueezeFixes(s[1..]);
      if s[0] == '_' {
        assert s[1..] == [] || s[1] != '_';
        assert LStripUnderscores(s[1..]) == s[1..];
      }
      assert s == [s[0]] + s[1..];
    }
  }

  /** A clean slug passes through every step unchanged. */
  lemma CleanSlugFixed(s: string, index: int)
    requires s != [] && CleanSlug(s)
    ensures GenerateSectionMarker(s, index) == s
  {
    LowerFixes(s);
    assert Underscored(s) == s;
    KeepFixes(s);
    SqueezeFixes(s);
    assert LStripUnderscores(s) == s;
    assert RStripUnderscores(s) == s;
  }

  /** The character passes work piece by piece. */
  lemma KeptSplit(a: string, b: string)
    ensures Kept(a + b) == Kept(a) + Kept(b)
  {
    assert Lower(a + b) == Lower(a) + Lower(b);
    assert Underscored(Lower(a) + Lower(b)) == Underscored(Lower(a)) + Underscored(Lower(b));
    KeepSplit(Underscored(Lower(a)), Underscored(Lower(b)));
  }

  /** A piece the character passes only lower-case. */
  lemma KeptWord(w: string, lw: string)
    requires Underscored(Lower(w)) == lw
    requires forall i :: 0 <= i < |lw| ==> SlugChar(lw[i])
    ensures Kept(w) == lw
  {
    KeepFixes(lw);
  }

  /** The example of the source's docstring. */
  lemma DocstringExample()
    ensures GenerateSectionMarker("Chapter 3: Introduction to Physics", 0) == "chapter_3_introduction_to_physics"
  {
    ExampleKept();
    ExampleClean();
  }

  /** The example heading, piece by piece: the colon is dropped and the spaces become underscores. */
  lemma ExampleKept()
    ensures Kept("Chapter 3: Introduction to Physics") == "chapter_3_introduction_to_physics"
  {
    var p1, p2, p3, p4, p5 := "Chapter", " 3:", " Introduction", " to", " Physics";
    ExampleSplit();
    KeptSplit(p1 + p2 + p3 + p4, p5);
    KeptSplit(p1 + p2 + p3, p4);
    KeptSplit(p1 + p2, p3);
    KeptSplit(p1, p2);
    ExampleChapter();
    ExampleThree();
    ExampleWords();
    ExampleJoined();
  }

  lemma ExampleSplit()
    ensures "Chapter 3: Introduction to Physics" == "Chapter" + " 3:" + " Introduction" + " to" + " Physics"
  {
  }

  lemma ExampleJoined()
    ensures "chapter" + "_3" + "_introduction" + "_to" + "_physics" == "chapter_3_introduction_to_physics"
  {
  }

  lemma ExampleChapter()
    ensures Kept("Chapter") == "chapter"
  {
    assert Underscored(Lower("Chapter")) == "chapter";
    KeptWord("Chapter", "chapter");
  }

  lemma ExampleThree()
    ensures Kept(" 3:") == "_3"
  {
    assert Underscored(Lower(" 3:")) == "_3" + ":";
    KeepSplit("_3", ":");
    KeepFixes("_3");
    assert KeepSlugChars(":") == [];
  }

  lemma ExampleWords()
    ensures Kept(" Introduction") == "_introduction" && Kept(" to") == "_to" && Kept(" Physics") == "_physics"
  {
    ExampleIntroduction();
    ExampleTo();
    ExamplePhysics();
  }

  lemma ExampleIntroduction()
    ensures Kept(" Introduction") == "_introduction"
  {
    assert Underscored(Lower(" Introduction")) == "_introduction";
    KeptWord(" Introduction", "_introduction");
  }

  lemma ExampleTo()
    ensures Kept(" to") == "_to"
  {
    assert Underscored(Lower(" to")) == "_to";
    KeptWord(" to", "_to");
  }

  lemma ExamplePhysics()
    ensures Kept(" Physics") == "_physics"
  {
    assert Underscored(Lower(" Physics")) == "_physics";
    KeptWord(" Physics", "_physics");
  }

  /** The filtered example has no double underscore and none at either end, and is short enough. */
  lemma ExampleClean()
    ensures StripUnderscores(SqueezeUnderscores("chapter_3_introduction_to_physics")) == "chapter_3_introduction_to_physics"
  {
    var s := "chapter_3_introduction_to_physics";
    assert NoDoubleUnderscore(s) by {
      forall i | 0 <= i < |s| - 1
        ensures !(s[i] == '_' && s[i + 1] == '_')
      {
      }
    }
    SqueezeFixes(s);
    assert LStripUnderscores(s) == s by {
      assert s[0] == 'c';
    }
    assert RStripUnderscores(s) == s by {
      assert s[|s| - 1] == 's';
    }
  }

  // ----- heading levels -----

  /** `s.split(sep)[-1]`: the text after the last separator, or all of `s` when there is none. */
  function AfterLast(s: string, sep: char): (r: string)
    ensures |r| <= |s| && r == s[|s| - |r|..]
    ensures sep !in r
    ensures |r| < |s| ==> s[|s| - |r| - 1] == sep
  {
    if s == [] || s[|s| - 1] == sep then [] else AfterLast(s[..|s| - 1], sep) + [s[|s| - 1]]
  }

  /** The text after the last separator is the one suffix without a separator that follows one. */
  lemma AfterLastUnique(s: string, sep: char, d: string)
    requires |d| <= |s| && d == s[|s| - |d|..] && sep !in d
    requires |d| < |s| ==> s[|s| - |d| - 1] == sep
    ensures AfterLast(s, sep) == d
  {
    var r := AfterLast(s, sep);
    assert |r| == |d|;
  }

  /** The level read from a heading's label: `int(label.split('_')[-1])`, or 1 without '_' or when that is no integer. */
  function HeadingLevel(itemLabel: string): int {
    if '_' !in itemLabel then 1
    else PieceLevel(AfterLast(itemLabel, '_'))
  }

  /** `int(piece)`, or 1 when the piece is no integer. */
  function PieceLevel(piece: string): int {
    match ParseInt(piece)
    case Some(n) => n
    case None => 1
  }

  /** The level is read from the text after the last '_'. */
  lemma LevelFromSuffix(prefix: string, suffix: string)
    requires '_' !in suffix
    ensures HeadingLevel(prefix + "_" + suffix) == PieceLevel(suffix)
  {
    var s := prefix + "_" + suffix;
    assert s[|prefix|] == '_';
    assert s[|s| - |suffix|..] == suffix;
    AfterLastUnique(s, '_', suffix);
  }

  /** A label ending in '_' and a decimal numeral has that number as its level. */
  lemma HeadingLevelMeaning(prefix: string, n: nat)
    ensures HeadingLevel(prefix + "_" + Digits(n)) == n
  {
    var d := Digits(n);
    assert '_' !in d by {
      forall i | 0 <= i < |d| ensures d[i] != '_' {
        assert IsDigit(d[i]);
      }
    }
    LevelFromSuffix(prefix, d);
    ParseDigits(n);
  }

  /** A label whose text after the last '_' is an integer literal of value `v` has level `v`. */
  lemma HeadingLevelLiteral(prefix: string, suffix: string, v: int)
    requires '_' !in suffix && IntLiteralOf(Strip(suffix), v)
    ensures HeadingLevel(prefix + "_" + suffix) == v
  {
    LevelFromSuffix(prefix, suffix);
    ParseIntMeaning(suffix, v);
  }

  /** A numeral contains no '_'. */
  lemma NumeralHasNoUnderscore(d: string)
    requires AllDigits(d)
    ensures '_' !in d
  {
    forall i | 0 <= i < |d| ensures d[i] != '_' {
      assert IsDigit(d[i]);
    }
  }

  /** `int()` ignores leading zeros: `prefix_00…0n` has level `n` (so "title_01" has level 1). */
  lemma LevelWithLeadingZeros(prefix: string, k: nat, n: nat)
    ensures HeadingLevel(prefix + "_" + (Zeros(k) + Digits(n))) == n
  {
    var d := Zeros(k) + Digits(n);
    LeadingZeros(k, Digits(n));
    DigitsRoundTrip(n);
    NumeralHasNoUnderscore(d);
    assert IsDigit(d[0]) && IsDigit(d[|d| - 1]);
    DigitNotSpace(d[0]);
    DigitNotSpace(d[|d| - 1]);
    StripUnchanged(d);
    assert IntLiteralOf(Strip(d), n) by {
      assert Numeral(d) && n == DecimalValue(d);
    }
    HeadingLevelLiteral(prefix, d, n);
  }

  /** A sign in front of a numeral: no '_', unchanged by `strip()`. */
  lemma SignedNumeral(sign: char, n: nat)
    requires sign == '+' || sign == '-'
    ensures var p := [sign] + Digits(n);
      '_' !in p && Strip(p) == p && p[1..] == Digits(n) && Numeral(Digits(n)) && DecimalValue(Digits(n)) == n
  {
    var d := Digits(n);
    var p := [sign] + d;
    DigitsRoundTrip(n);
    NumeralHasNoUnderscore(d);
    assert p[1..] == d;
    assert '_' !in p by {
      forall c | c in p ensures c != '_' {
        assert c == sign || c in d;
      }
    }
    assert IsDigit(d[|d| - 1]) && p[|p| - 1] == d[|d| - 1];
    DigitNotSpace(d[|d| - 1]);
    assert !IsSpace(p[0]) && !IsSpace(p[|p| - 1]);
    StripUnchanged(p);
  }

  /** `int()` reads a '+' sign: `prefix_+n` has level `n` (so "title_+2" has level 2). */
  lemma LevelWithPlus(prefix: string, n: nat)
    ensures HeadingLevel(prefix + "_" + ("+" + Digits(n))) == n
  {
    var d := Digits(n);
    var p := "+" + d;
    SignedNumeral('+', n);
    assert p == ['+'] + d;
    assert IntLiteralOf(Strip(p), n) by {
      assert Strip(p) == "+" + d && Numeral(d) && n == DecimalValue(d);
    }
    HeadingLevelLiteral(prefix, p, n);
  }

  /** `int()` reads a '-' sign: `prefix_-n` has level `-n`. */
  lemma LevelWithMinus(prefix: string, n: nat)
    ensures HeadingLevel(prefix + "_" + ("-" + Digits(n))) == -(n as int)
  {
    var d := Digits(n);
    var p := "-" + d;
    SignedNumeral('-', n);
    assert p == ['-'] + d;
    assert IntLiteralOf(Strip(p), -(n as int)) by {
      assert Strip(p) == "-" + d && Numeral(d) && -(n as int) == -(DecimalValue(d) as int);
    }
    HeadingLevelLiteral(prefix, p, -(n as int));
  }

  /** `lstrip()` removes exactly a whitespace prefix in front of a non-whitespace character. */
  lemma {:induction false} LStripSpaces(ws: string, d: string)
    requires forall i :: 0 <= i < |ws| ==> IsSpace(ws[i])
    requires d != [] && !IsSpace(d[0])
    ensures LStrip(ws + d) == d
  {
    if ws == [] {
      assert ws + d == d;
    } else {
      assert (ws + d)[1..] == ws[1..] + d;
      LStripSpaces(ws[1..], d);
    }
  }

  /** `int()` strips surrounding whitespace: `prefix_` then spaces, a numeral and spaces has that level (so "title_ 3" has level 3). */
  lemma LevelWithSpaces(prefix: string, before: string, n: nat, after: string)
    requires forall i :: 0 <= i < |before| ==> IsSpace(before[i]) && before[i] != '_'
    requires forall i :: 0 <= i < |after| ==> IsSpace(after[i]) && after[i] != '_'
    ensures HeadingLevel(prefix + "_" + (before + Digits(n) + after)) == n
  {
    var d := Digits(n);
    var p := before + d + after;
    DigitsRoundTrip(n);
    NumeralHasNoUnderscore(d);
    assert '_' !in p by {
      forall i | 0 <= i < |p| ensures p[i] != '_' {
        if i < |before| {
          assert p[i] == before[i];
        } else if i < |before| + |d| {
          assert p[i] == d[i - |before|];
        } else {
          assert p[i] == after[i - |before| - |d|];
        }
      }
    }
    assert IsDigit(d[0]) && IsDigit(d[|d| - 1]);
    DigitNotSpace(d[0]);
    DigitNotSpace(d[|d| - 1]);
    assert p == before + (d + after);
    LStripSpaces(before, d + after);
    RStripSpaces(d, after);
    assert Strip(p) == d;
    assert IntLiteralOf(Strip(p), n) by {
      assert Numeral(d) && n == DecimalValue(d);
    }
    HeadingLevelLiteral(prefix, p, n);
  }

  /** `rstrip()` removes exactly a whitespace suffix behind a non-whitespace character. */
  lemma {:induction false} RStripSpaces(d: string, ws: string)
    requires forall i :: 0 <= i < |ws| ==> IsSpace(ws[i])
    requires d != [] && !IsSpace(d[|d| - 1])
    ensures RStrip(d + ws) == d
  {
    if ws == [] {
      assert d + ws == d;
    } else {
      assert (d + ws)[..|d + ws| - 1] == d + ws[..|ws| - 1];
      RStripSpaces(d, ws[..|ws| - 1]);
    }
  }

  /** A label without '_', or whose text after the last '_' is no integer, has level 1. */
  lemma HeadingLevelDefault(prefix: string, suffix: string)
    requires '_' !in suffix && ParseInt(suffix).None?
    ensures HeadingLevel(prefix + "_" + suffix) == 1
    ensures HeadingLevel(suffix) == 1
  {
    LevelFromSuffix(prefix, suffix);
  }

  /** What the source's comment promises: "title_1" has level 1. */
  lemma TitleOne()
    ensures HeadingLevel("title_1") == 1
  {
    TitleLabel();
    HeadingLevelMeaning("title", 1);
  }

  /** A label without '_' has level 1. */
  lemma TitleBare()
    ensures HeadingLevel("title") == 1
  {
    assert '_' !in "title" by {
      assert forall i :: 0 <= i < |"title"| ==> "title"[i] != '_';
    }
  }

  lemma TitleLabel()
    ensures "title" + "_" + Digits(1) == "title_1"
  {
    assert Digits(1) == "1";
  }

  // ----- per-chunk metadata -----

  /**
   * The metadata written for each chunk. `page_start`, `page_end` and
   * `bboxes` are always None for an EPUB and are not carried.
   */
  datatype ChunkMeta = ChunkMeta(headingPath: seq<string>, headingLevel: nat, sectionMarker: string)

  /** The metadata of chunk `idx` with headings `headings` (the body of the chunk loop of extract_epub_html). */
  function DeriveChunk(idx: nat, headings: seq<string>): (m: ChunkMeta)
    ensures m.sectionMarker != []
  {
    var marker := if headings == [] then Fallback(idx) else GenerateSectionMarker(headings[|headings| - 1], idx);
    ChunkMeta(headings, |headings|, marker)
  }

  /**
   * The heading path is the chunk's headings and its level their number;
   * the marker is `section_NNN` without headings and otherwise the marker
   * of the last heading, so a chunk whose last heading is a clean slug is
   * marked by it.
   */
  lemma DeriveChunkMeaning(idx: nat, headings: seq<string>)
    ensures DeriveChunk(idx, headings).headingPath == headings
    ensures DeriveChunk(idx, headings).headingLevel == |headings|
    ensures headings == [] ==> DeriveChunk(idx, headings).sectionMarker == Fallback(idx)
    ensures headings != [] ==> DeriveChunk(idx, headings).sectionMarker == GenerateSectionMarker(headings[|headings| - 1], idx)
    ensures headings != [] && headings[|headings| - 1] != [] && CleanSlug(headings[|headings| - 1]) ==>
      DeriveChunk(idx, headings).sectionMarker == headings[|headings| - 1]
  {
    if headings != [] && headings[|headings| - 1] != [] && CleanSlug(headings[|headings| - 1]) {
      CleanSlugFixed(headings[|headings| - 1], idx);
    }
  }
}
