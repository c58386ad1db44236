/**
 * Models of the Python `str` built-ins that the scripts rely on: whitespace
 * classification, `lower()`, `isalnum()`, `strip()`, `find()`, slicing,
 * `split()`/`join()`, `int()` and the `{:03d}` format.
 */
module PyText {
  import opened Wrappers

  /** `str.isspace()`; the same set is matched by `\s` in a `str` regex and split on by `str.split()`. */
  predicate IsSpace(c: char) {
    c == ' ' || '\t' <= c <= '\r' || '\U{1C}' <= c <= '\U{1F}' || c == '\U{85}' || c == '\U{A0}'
    || c == '\U{1680}' || '\U{2000}' <= c <= '\U{200A}' || c == '\U{2028}' || c == '\U{2029}'
    || c == '\U{202F}' || c == '\U{205F}' || c == '\U{3000}'
  }

  predicate IsUpper(c: char) { 'A' <= c <= 'Z' }

  predicate IsDigit(c: char) { '0' <= c <= '9' }

  /** `str.isalnum()`, restricted to ASCII letters and digits. */
  predicate IsAlnum(c: char) { 'a' <= c <= 'z' || IsUpper(c) || IsDigit(c) }

  /** `str.lower()` on one character, restricted to ASCII. */
  function LowerChar(c: char): (d: char)
    ensures !IsUpper(d)
    ensures !IsUpper(c) ==> d == c
    ensures IsSpace(d) <==> IsSpace(c)
  {
    if IsUpper(c) then (c as int + 32) as char else c
  }

  /** `str.lower()`: a length-preserving, character-by-character map. */
  function Lower(s: string): (r: string)
    ensures |r| == |s|
    ensures forall i :: 0 <= i < |s| ==> r[i] == LowerChar(s[i])
  {
    seq(|s|, i requires 0 <= i < |s| => LowerChar(s[i]))
  }

  /** `str.lstrip()`: drops the leading whitespace. */
  function LStrip(s: string): (r: string)
    ensures |r| <= |s| && r == s[|s| - |r|..]
    ensures forall j :: 0 <= j < |s| - |r| ==> IsSpace(s[j])
    ensures r == [] || !IsSpace(r[0])
  {
    if s != [] && IsSpace(s[0]) then LStrip(s[1..]) else s
  }

  /** `str.rstrip()`: drops the trailing whitespace. */
  function RStrip(s: string): (r: string)
    ensures |r| <= |s| && r == s[..|r|]
    ensures forall j :: |r| <= j < |s| ==> IsSpace(s[j])
    ensures r == [] || !IsSpace(r[|r| - 1])
  {
    if s != [] && IsSpace(s[|s| - 1]) then RStrip(s[..|s| - 1]) else s
  }

  /** `str.strip()`. */
  function Strip(s: string): (r: string)
    ensures |r| <= |s|
    ensures r == [] || (!IsSpace(r[0]) && !IsSpace(r[|r| - 1]))
  {
    RStrip(LStrip(s))
  }

  /** A digit is not whitespace. */
  lemma DigitNotSpace(c: char)
    requires IsDigit(c)
    ensures !IsSpace(c)
  {
  }

  /** `strip()` leaves a string without leading or trailing whitespace alone. */
  lemma StripUnchanged(s: string)
    requires s == [] || (!IsSpace(s[0]) && !IsSpace(s[|s| - 1]))
    ensures Strip(s) == s
  {
  }

  predicate OccursAt(hay: string, needle: string, i: int) {
    0 <= i && i + |needle| <= |hay| && hay[i..i + |needle|] == needle
  }

  function FindFrom(hay: string, needle: string, from: nat): (r: int)
    decreases |hay| - from
    ensures r == -1 || (from <= r && OccursAt(hay, needle, r))
    ensures forall j :: from <= j && (r == -1 || j < r) ==> !OccursAt(hay, needle, j)
  {
    if from + |needle| > |hay| then -1
    else if hay[from..from + |needle|] == needle then from
    else FindFrom(hay, needle, from + 1)
  }

  /** `hay.find(needle)`: the lowest index where `needle` occurs, or -1. */
  function Find(hay: string, needle: string): (r: int)
    ensures r == -1 || OccursAt(hay, needle, r)
    ensures forall j :: 0 <= j && (r == -1 || j < r) ==> !OccursAt(hay, needle, j)
  {
    FindFrom(hay, needle, 0)
  }

  /** `needle` occurs nowhere in `hay`. */
  ghost predicate NowhereIn(hay: string, needle: string) {
    forall i :: 0 <= i ==> !OccursAt(hay, needle, i)
  }

  /** `find` answers -1 exactly when the needle occurs nowhere. */
  lemma FindMissing(hay: string, needle: string)
    ensures Find(hay, needle) == -1 <==> NowhereIn(hay, needle)
  {
    var r := Find(hay, needle);
    if r != -1 {
      assert OccursAt(hay, needle, r);
    }
  }

  /** Python's `s[lo:hi]` for non-negative bounds: both ends are clamped to the length. */
  function Slice(s: string, lo: nat, hi: nat): (r: string)
    ensures hi <= |s| && lo <= hi ==> r == s[lo..hi]
    ensures lo <= |s| < hi ==> r == s[lo..]
    ensures |s| <= lo || hi <= lo ==> r == []
    ensures |r| <= |s|
  {
    var a := if lo < |s| then lo else |s|;
    var b := if hi < |s| then hi else |s|;
    if b <= a then [] else s[a..b]
  }

  /** The maximal run of non-whitespace at the front of `s`. */
  function TakeWord(s: string): (w: string)
    ensures |w| <= |s| && w == s[..|w|]
    ensures forall i :: 0 <= i < |w| ==> !IsSpace(w[i])
    ensures |w| == |s| || IsSpace(s[|w|])
  {
    if s == [] || IsSpace(s[0]) then [] else [s[0]] + TakeWord(s[1..])
  }

  /** `str.split()` with no separator: the maximal runs of non-whitespace, in order. */
  function Split(s: string): (ws: seq<string>)
    decreases |s|
  {
    var t := LStrip(s);
    if t == [] then []
    else
      var w := TakeWord(t);
      assert w != [];
      [w] + Split(t[|w|..])
  }

  /** Every piece `split()` returns is a non-empty run of non-whitespace. */
  lemma {:induction false} SplitWords(s: string)
    decreases |s|
    ensures forall k :: 0 <= k < |Split(s)| ==> IsWord(Split(s)[k])
  {
    var t := LStrip(s);
    if t != [] {
      var w := TakeWord(t);
      assert w != [];
      var rest := t[|w|..];
      SplitWords(rest);
      assert IsWord(w);
      assert Split(s) == [w] + Split(rest);
      ConsWords(w, Split(rest));
    }
  }

  lemma ConsWords(w: string, ws: seq<string>)
    requires IsWord(w) && forall k :: 0 <= k < |ws| ==> IsWord(ws[k])
    ensures forall k :: 0 <= k < |[w] + ws| ==> IsWord(([w] + ws)[k])
  {
    forall k | 0 <= k < |[w] + ws|
      ensures IsWord(([w] + ws)[k])
    {
      if k > 0 {
        assert ([w] + ws)[k] == ws[k - 1];
      }
    }
  }

  /** A non-empty run of non-whitespace characters. */
  predicate IsWord(w: string) {
    w != [] && forall i :: 0 <= i < |w| ==> !IsSpace(w[i])
  }

  /** `sep.join(ws)` for a one-character separator. */
  function Join(ws: seq<string>, sep: char): string {
    if ws == [] then [] else if |ws| == 1 then ws[0] else ws[0] + [sep] + Join(ws[1..], sep)
  }

  predicate AllDigits(s: string) {
    forall i :: 0 <= i < |s| ==> IsDigit(s[i])
  }

  function DigitChar(d: nat): (c: char)
    requires d < 10
    ensures IsDigit(c) && c as int - '0' as int == d
  {
    ('0' as int + d) as char
  }

  /** The decimal numeral of `n`, without leading zeros. */
  function Digits(n: nat): (s: string)
    decreases n
    ensures |s| >= 1 && AllDigits(s)
  {
    if n < 10 then [DigitChar(n)] else Digits(n / 10) + [DigitChar(n % 10)]
  }

  /** The value of a string of decimal digits. */
  function DecimalValue(s: string): nat
    requires AllDigits(s)
  {
    if s == [] then 0 else DecimalValue(s[..|s| - 1]) * 10 + (s[|s| - 1] as int - '0' as int)
  }

  lemma {:induction false} DigitsRoundTrip(n: nat)
    ensures DecimalValue(Digits(n)) == n
  {
    if n >= 10 {
      DigitsRoundTrip(n / 10);
      var s := Digits(n);
      assert s[..|s| - 1] == Digits(n / 10);
    }
  }

  /** Leading zeros never change a decimal value. */
  lemma {:induction false} LeadingZeros(k: nat, s: string)
    requires AllDigits(s)
    ensures AllDigits(Zeros(k) + s) && DecimalValue(Zeros(k) + s) == DecimalValue(s)
  {
    if s == [] {
      ZerosValue(k);
      assert Zeros(k) + s == Zeros(k);
    } else {
      LeadingZeros(k, s[..|s| - 1]);
      assert (Zeros(k) + s)[..|Zeros(k) + s| - 1] == Zeros(k) + s[..|s| - 1];
    }
  }

  lemma {:induction false} ZerosValue(k: nat)
    ensures AllDigits(Zeros(k)) && DecimalValue(Zeros(k)) == 0
  {
    if k > 0 {
      ZerosValue(k - 1);
      assert Zeros(k)[..k - 1] == Zeros(k - 1);
    }
  }

  function Zeros(k: nat): (z: string)
    ensures |z| == k && forall i :: 0 <= i < k ==> z[i] == '0'
  {
    if k == 0 then [] else Zeros(k - 1) + ['0']
  }

  /** Left-pads `s` with '0' to at least `width` characters. */
  function ZeroPad(s: string, width: nat): (r: string)
    ensures |r| == if |s| >= width then |s| else width
    ensures r[|r| - |s|..] == s
  {
    if |s| >= width then s else Zeros(width - |s|) + s
  }

  /** Python's `f"{n:03d}"`: the sign counts towards the minimum width of 3. */
  function Format03(n: int): (r: string)
    ensures |r| >= 3
    ensures n >= 0 ==> AllDigits(r) && DecimalValue(r) == n
    ensures n >= 0 ==> |r| == if |Digits(n)| >= 3 then |Digits(n)| else 3
    ensures n < 0 ==> r[0] == '-' && AllDigits(r[1..]) && DecimalValue(r[1..]) == -n
    ensures n < 0 ==> |r| == if |Digits(-n)| >= 2 then 1 + |Digits(-n)| else 3
  {
    if n >= 0 then
      FormatNonNegative(n);
      ZeroPad(Digits(n), 3)
    else
      FormatNegative(-n);
      "-" + ZeroPad(Digits(-n), 2)
  }

  lemma FormatNegative(n: nat)
    ensures var r := "-" + ZeroPad(Digits(n), 2);
      r[1..] == ZeroPad(Digits(n), 2) && AllDigits(r[1..]) && DecimalValue(r[1..]) == n
  {
    DigitsRoundTrip(n);
    var d := Digits(n);
    if |d| < 2 {
      LeadingZeros(2 - |d|, d);
    }
  }

  lemma FormatNonNegative(n: nat)
    ensures AllDigits(ZeroPad(Digits(n), 3)) && DecimalValue(ZeroPad(Digits(n), 3)) == n
  {
    DigitsRoundTrip(n);
    var d := Digits(n);
    if |d| < 3 {
      LeadingZeros(3 - |d|, d);
    }
  }

  /**
   * Python's `int(s)` on a `str`: surrounding whitespace, an optional sign and
   * one or more ASCII digits. (Digit-group underscores and non-ASCII digits are
   * not modelled.) `None` stands for the `ValueError`.
   */
  function ParseInt(s: string): (r: Option<int>)
    ensures r.Some? ==> Strip(s) != []
  {
    ParseLiteral(Strip(s))
  }

  /** `int()` on text already stripped: an optional sign, then one or more ASCII digits. */
  function ParseLiteral(t: string): Option<int> {
    if t != [] && (t[0] == '+' || t[0] == '-') then
      var body := t[1..];
      if body != [] && AllDigits(body) then
        Some(if t[0] == '-' then -(DecimalValue(body) as int) else DecimalValue(body) as int)
      else None
    else if t != [] && AllDigits(t) then Some(DecimalValue(t) as int)
    else None
  }

  /** A numeral: one or more ASCII digits. */
  predicate Numeral(d: string) {
    d != [] && AllDigits(d)
  }

  /** `t` is an integer literal with value `v`: a numeral, with an optional '+' or '-' in front. */
  ghost predicate IntLiteralOf(t: string, v: int) {
    || (Numeral(t) && v == DecimalValue(t))
    || (exists d :: t == "+" + d && Numeral(d) && v == DecimalValue(d))
    || (exists d :: t == "-" + d && Numeral(d) && v == -(DecimalValue(d) as int))
  }

  /** `int(s)` succeeds with `v` exactly when the stripped text is an integer literal of value `v`. */
  lemma ParseIntMeaning(s: string, v: int)
    ensures ParseInt(s) == Some(v) <==> IntLiteralOf(Strip(s), v)
  {
    var t := Strip(s);
    if ParseLiteral(t) == Some(v) {
      LiteralParsed(t, v);
    }
    if IntLiteralOf(t, v) {
      ParsedLiteral(t, v);
    }
  }

  lemma LiteralParsed(t: string, v: int)
    requires ParseLiteral(t) == Some(v)
    ensures IntLiteralOf(t, v)
  {
    if t[0] == '+' || t[0] == '-' {
      var d := t[1..];
      assert t == [t[0]] + d;
      if t[0] == '+' {
        assert t == "+" + d;
      } else {
        assert t == "-" + d;
      }
    }
  }

  lemma ParsedLiteral(t: string, v: int)
    requires IntLiteralOf(t, v)
    ensures ParseLiteral(t) == Some(v)
  {
    if Numeral(t) && v == DecimalValue(t) {
      assert IsDigit(t[0]);
    } else if exists d :: t == "+" + d && Numeral(d) && v == DecimalValue(d) {
      var d :| t == "+" + d && Numeral(d) && v == DecimalValue(d);
      assert t[0] == '+' && t[1..] == d;
    } else {
      var d :| t == "-" + d && Numeral(d) && v == -(DecimalValue(d) as int);
      assert t[0] == '-' && t[1..] == d;
    }
  }

  /** `int()` inverts the decimal numeral. */
  lemma ParseDigits(n: nat)
    ensures ParseInt(Digits(n)) == Some(n)
  {
    var d := Digits(n);
    StripUnchanged(d);
    DigitsRoundTrip(n);
  }
}
