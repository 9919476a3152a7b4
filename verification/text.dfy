/** The handful of Python string operations the client relies on:
    `str.upper`/`str.lower`, `str.startswith`, `str.replace(pat, "")`, the
    decimal `str(int)` / `int(str)` pair and the texts `float(str)` reads. */
module Text {
  import opened Wrappers

  // ---------------------------------------------------------------------------
  // Characters
  // ---------------------------------------------------------------------------

  predicate IsUpperChar(c: char) {
    'A' <= c <= 'Z'
  }

  predicate IsLowerChar(c: char) {
    'a' <= c <= 'z'
  }

  predicate IsDigitChar(c: char) {
    '0' <= c <= '9'
  }

  function UpperChar(c: char): (r: char)
    ensures !IsLowerChar(r)
    ensures !IsLowerChar(c) ==> r == c
  {
    if IsLowerChar(c) then (c as int - 32) as char else c
  }

  function LowerChar(c: char): (r: char)
    ensures !IsUpperChar(r)
    ensures !IsUpperChar(c) ==> r == c
  {
    if IsUpperChar(c) then (c as int + 32) as char else c
  }

  predicate IsAsciiChar(c: char) {
    c as int < 128
  }

  predicate IsAscii(s: string) {
    forall i :: 0 <= i < |s| ==> IsAsciiChar(s[i])
  }

  /** The non-ASCII characters whose full upper case under `str.upper()`
      is ASCII text: dotless i, long s, sharp s and the Latin ligatures ff,
      fi, fl, ffi, ffl, long s t and st. */
  function SpecialUpper(c: char): (r: Option<string>)
    ensures r.Some? ==> !IsAsciiChar(c) && |r.value| > 0 && IsAscii(r.value)
  {
    match c
    case '\U{131}' => Some("I")
    case '\U{17F}' => Some("S")
    case '\U{DF}' => Some("SS")
    case '\U{FB00}' => Some("FF")
    case '\U{FB01}' => Some("FI")
    case '\U{FB02}' => Some("FL")
    case '\U{FB03}' => Some("FFI")
    case '\U{FB04}' => Some("FFL")
    case '\U{FB05}' => Some("ST")
    case '\U{FB06}' => Some("ST")
    case _ => None
  }

  /** The upper case of one character: ASCII through the ASCII map, the
      characters above through their expansion, any other character kept.
      Python's upper case of such a character holds a non-ASCII character
      too, so a kept character stands in for it wherever the result is
      only compared with ASCII text. */
  function UpperOf(c: char): (r: string)
    ensures IsAscii(r) <==> IsAsciiChar(c) || SpecialUpper(c).Some?
  {
    if IsAsciiChar(c) then [UpperChar(c)]
    else match SpecialUpper(c)
      case Some(t) => t
      case None => assert [c][0] == c; [c]
  }

  lemma AsciiConcat(a: string, b: string)
    ensures IsAscii(a + b) <==> IsAscii(a) && IsAscii(b)
  {
    if IsAscii(a) && IsAscii(b) {
      forall i | 0 <= i < |a + b| ensures IsAsciiChar((a + b)[i]) {
        if i >= |a| {
          assert (a + b)[i] == b[i - |a|];
        }
      }
    }
    if IsAscii(a + b) {
      forall i | 0 <= i < |a| ensures IsAsciiChar(a[i]) {
        assert (a + b)[i] == a[i];
      }
      forall i | 0 <= i < |b| ensures IsAsciiChar(b[i]) {
        assert (a + b)[|a| + i] == b[i];
      }
    }
  }

  /** `str.upper()`, exact on every text whose upper case is ASCII. It
      keeps the length and maps each character through the ASCII map on
      ASCII text, and its result is ASCII exactly when every character is
      ASCII or one of the special characters. */
  function Upper(s: string): (r: string)
    ensures IsAscii(s) ==> |r| == |s| && forall i :: 0 <= i < |s| ==> r[i] == UpperChar(s[i])
    ensures IsAscii(r) <==> forall i :: 0 <= i < |s| ==> IsAsciiChar(s[i]) || SpecialUpper(s[i]).Some?
    decreases |s|
  {
    if |s| == 0 then []
    else
      var head, tail := UpperOf(s[0]), Upper(s[1..]);
      AsciiConcat(head, tail);
      assert (forall i :: 0 <= i < |s| ==> IsAsciiChar(s[i]) || SpecialUpper(s[i]).Some?)
             <==> (IsAsciiChar(s[0]) || SpecialUpper(s[0]).Some?)
                  && (forall i :: 0 <= i < |s[1..]| ==> IsAsciiChar(s[1..][i]) || SpecialUpper(s[1..][i]).Some?);
      head + tail
  }

  /** `str.lower()` on ASCII text. */
  function Lower(s: string): (r: string)
    ensures |r| == |s|
    ensures forall i :: 0 <= i < |s| ==> r[i] == LowerChar(s[i])
  {
    seq(|s|, i requires 0 <= i < |s| => LowerChar(s[i]))
  }

  // ---------------------------------------------------------------------------
  // Prefixes and removal
  // ---------------------------------------------------------------------------

  /** `s.startswith(p)`. */
  predicate StartsWith(s: string, p: string) {
    |p| <= |s| && s[..|p|] == p
  }

  /** `s.replace(pat, "")`: every leftmost, non-overlapping occurrence of
      `pat` is deleted, scanning from the left as CPython does. */
  function RemoveAll(s: string, pat: string): (r: string)
    requires |pat| > 0
    ensures |r| <= |s|
    ensures StartsWith(s, pat) ==> r == RemoveAll(s[|pat|..], pat)
    decreases |s|
  {
    if |s| < |pat| then s
    else if s[..|pat|] == pat then RemoveAll(s[|pat|..], pat)
    else [s[0]] + RemoveAll(s[1..], pat)
  }

  /** Removal distributes over a concatenation whose left part is the
      pattern itself. */
  lemma RemoveAllLeading(pat: string, rest: string)
    requires |pat| > 0
    ensures RemoveAll(pat + rest, pat) == RemoveAll(rest, pat)
  {
    var s := pat + rest;
    assert s[..|pat|] == pat;
    assert s[|pat|..] == rest;
  }

  /** Removing `pat` from `a + pat` gives back `a` when some character of
      `pat` occurs nowhere else in `pat` and nowhere in `a`: no occurrence can
      start inside `a`, so only the trailing copy is deleted. */
  lemma {:induction false} RemoveAllTrailing(a: string, pat: string, j: nat)
    requires j < |pat|
    requires pat[j] !in a
    requires forall k :: 0 <= k < |pat| && pat[k] == pat[j] ==> k == j
    ensures RemoveAll(a + pat, pat) == a
    decreases |a|
  {
    var s := a + pat;
    if |a| == 0 {
      assert s == pat + [];
      RemoveAllLeading(pat, []);
    } else {
      if s[..|pat|] == pat {
        // The unique position of pat[j] in pat would fall inside `a`.
        assert false;
      }
      assert s[1..] == a[1..] + pat;
      RemoveAllTrailing(a[1..], pat, j);
      assert [a[0]] + a[1..] == a;
    }
  }

  // ---------------------------------------------------------------------------
  // Decimal integers (`str(int)` and `int(str)`)
  // ---------------------------------------------------------------------------

  function DigitChar(d: nat): (c: char)
    requires d < 10
    ensures IsDigitChar(c)
  {
    ('0' as int + d) as char
  }

  function DigitValue(c: char): (d: nat)
    requires IsDigitChar(c)
    ensures d < 10
    ensures DigitChar(d) == c
  {
    c as int - '0' as int
  }

  predicate IsDigits(s: string) {
    |s| > 0 && forall i :: 0 <= i < |s| ==> IsDigitChar(s[i])
  }

  /** The value of a non-empty run of decimal digits. */
  function DigitsValue(s: string): nat
    requires IsDigits(s)
    decreases |s|
  {
    var last := DigitValue(s[|s| - 1]);
    if |s| == 1 then last else DigitsValue(s[..|s| - 1]) * 10 + last
  }

  /** `str(n)` for a non-negative integer: shortest decimal form. */
  function NatToString(n: nat): (r: string)
    ensures IsDigits(r)
    ensures |r| > 1 ==> r[0] != '0'
  {
    if n < 10 then [DigitChar(n)] else NatToString(n / 10) + [DigitChar(n % 10)]
  }

  /** `str(i)`: a minus sign in front of the magnitude for negatives. */
  function IntToString(i: int): (r: string)
    ensures |r| > 0
    ensures forall k :: 0 <= k < |r| ==> IsDigitChar(r[k]) || r[k] == '-'
  {
    if i < 0 then "-" + NatToString(-i) else NatToString(i)
  }

  /** `int(s)` on a sign followed by decimal digits; anything else is the
      `ValueError` the conversion raises (surrounding whitespace and digit
      underscores, which CPython also accepts, are outside the model). */
  function ParseInt(s: string): (r: Option<int>)
    ensures r.Some? ==> |s| > 0
  {
    if |s| > 0 && s[0] == '-' && IsDigits(s[1..]) then Some(0 - DigitsValue(s[1..]))
    else if |s| > 0 && s[0] == '+' && IsDigits(s[1..]) then Some(DigitsValue(s[1..]))
    else if IsDigits(s) then Some(DigitsValue(s))
    else None
  }

  /** Every text `int()` reads is also a text `float()` reads. */
  lemma IntTextIsFloatText(s: string)
    requires ParseInt(s).Some?
    ensures IsFloatText(s)
  {
    var t := if s[0] == '-' || s[0] == '+' then s[1..] else s;
    assert IsDigits(t);
    DigitsAreDigitPart(t);
    NoneOfDigits(t, FloatMarks);
    NoneOfDigits(t, ExponentMarks);
    assert !IsSpaceChar(s[0]) && !IsSpaceChar(s[|s| - 1]);
    assert Strip(s) == s;
    assert Unsigned(s) == t;
  }

  lemma {:induction false} DigitsOfNat(n: nat)
    ensures DigitsValue(NatToString(n)) == n
  {
    if n >= 10 {
      var s := NatToString(n);
      var head := NatToString(n / 10);
      assert s[..|s| - 1] == head;
      DigitsOfNat(n / 10);
    }
  }

  /** Printing an integer and parsing it back yields the same integer. */
  lemma IntRoundTrip(i: int)
    ensures ParseInt(IntToString(i)) == Some(i)
  {
    if i < 0 {
      var s := IntToString(i);
      assert s[1..] == NatToString(-i);
      DigitsOfNat(-i);
    } else {
      DigitsOfNat(i);
    }
  }

  /** Distinct integers print differently. */
  lemma IntToStringInjective(a: int, b: int)
    requires IntToString(a) == IntToString(b)
    ensures a == b
  {
    IntRoundTrip(a);
    IntRoundTrip(b);
  }

  // ---------------------------------------------------------------------------
  // Decimal floating-point text (`float(str)`)
  // ---------------------------------------------------------------------------

  /** The characters `float()` ignores at both ends of its argument: the
      ASCII `\t`, `\n`, `\v`, `\f`, `\r` and space, and the non-ASCII
      characters `str.isspace()` holds for, which CPython turns into spaces
      first. The ASCII separators U+001C to U+001F, although `str.isspace()`
      holds for them, are kept and rejected. */
  predicate IsSpaceChar(c: char) {
    c in {'\t', '\n', '\U{B}', '\U{C}', '\r', ' ',
          '\U{85}', '\U{A0}', '\U{1680}', '\U{2028}', '\U{2029}', '\U{202F}', '\U{205F}', '\U{3000}'}
    || '\U{2000}' <= c <= '\U{200A}'
  }

  /** The text without the leading and trailing characters `float()` ignores. */
  function Strip(s: string): (r: string)
    ensures |r| <= |s|
    ensures |r| > 0 ==> !IsSpaceChar(r[0]) && !IsSpaceChar(r[|r| - 1])
    ensures |s| > 0 && !IsSpaceChar(s[0]) && !IsSpaceChar(s[|s| - 1]) ==> r == s
    decreases |s|
  {
    if |s| > 0 && IsSpaceChar(s[0]) then Strip(s[1..])
    else if |s| > 0 && IsSpaceChar(s[|s| - 1]) then Strip(s[..|s| - 1])
    else s
  }

  /** The position of the first character of `s` that lies in `cs`. */
  function FirstOf(s: string, cs: set<char>): (r: Option<nat>)
    ensures r.None? ==> forall i :: 0 <= i < |s| ==> s[i] !in cs
    ensures r.Some? ==> r.value < |s| && s[r.value] in cs
                        && forall i :: 0 <= i < r.value ==> s[i] !in cs
    decreases |s|
  {
    if |s| == 0 then None
    else if s[0] in cs then Some(0)
    else match FirstOf(s[1..], cs)
      case None => None
      case Some(k) => Some(k + 1)
  }

  const FloatMarks: set<char> := {'.'}
  const ExponentMarks: set<char> := {'e', 'E'}

  /** The text after one optional leading `+` or `-`. */
  function Unsigned(s: string): (r: string)
    ensures |r| <= |s|
  {
    if |s| > 0 && (s[0] == '+' || s[0] == '-') then s[1..] else s
  }

  /** `digit (["_"] digit)*`: decimal digits, with single underscores
      allowed between two of them. */
  predicate IsDigitPart(s: string)
    decreases |s|
  {
    |s| > 0 && IsDigitChar(s[0])
    && (|s| == 1 || IsDigitPart(if s[1] == '_' then s[2..] else s[1..]))
  }

  /** `[digitpart] "." digitpart | digitpart ["."]`. */
  predicate IsDecimalNumber(s: string) {
    match FirstOf(s, FloatMarks)
    case None => IsDigitPart(s)
    case Some(k) =>
      (k == 0 || IsDigitPart(s[..k])) && (k + 1 == |s| || IsDigitPart(s[k + 1..])) && |s| > 1
  }

  /** `number [("e" | "E") [sign] digitpart]`. */
  predicate IsFloatNumber(s: string) {
    match FirstOf(s, ExponentMarks)
    case None => IsDecimalNumber(s)
    case Some(k) => IsDecimalNumber(s[..k]) && IsDigitPart(Unsigned(s[k + 1..]))
  }

  /** The texts `float()` accepts, as CPython's grammar for float strings
      states it: optional surrounding `IsSpaceChar` padding, an optional sign, then a
      decimal number with an optional exponent, or `inf`, `infinity` or
      `nan` in any letter case. Anything else raises `ValueError`. */
  predicate IsFloatText(s: string) {
    var t := Unsigned(Strip(s));
    Lower(t) in {"inf", "infinity", "nan"} || IsFloatNumber(t)
  }

  /** `float()` accepts a decimal fraction. */
  lemma FloatTextAccepts()
    ensures IsFloatText("42.5")
  {
    assert Strip("42.5") == "42.5" && Unsigned("42.5") == "42.5";
    assert FirstOf("42.5", ExponentMarks).None?;
    assert FirstOf("42.5", FloatMarks) == Some(2);
    assert "42.5"[..2] == "42" && "42.5"[3..] == "5";
    assert IsDigitPart("42");
  }

  /** `float()` accepts a signed infinity in any letter case. */
  lemma FloatTextInfinity()
    ensures IsFloatText("-INF")
  {
    assert Strip("-INF") == "-INF" && Unsigned("-INF") == "INF" && Lower("INF") == "inf";
  }

  /** Stripping removes exactly the whitespace padding around a text that
      neither starts nor ends with whitespace. */
  lemma {:induction false} StripPadding(a: string, t: string, b: string)
    requires forall i :: 0 <= i < |a| ==> IsSpaceChar(a[i])
    requires forall i :: 0 <= i < |b| ==> IsSpaceChar(b[i])
    requires |t| > 0 && !IsSpaceChar(t[0]) && !IsSpaceChar(t[|t| - 1])
    ensures Strip(a + t + b) == t
    decreases |a| + |b|
  {
    var s := a + t + b;
    if |a| > 0 {
      assert s[0] == a[0];
      assert s[1..] == a[1..] + t + b;
      StripPadding(a[1..], t, b);
    } else if |b| > 0 {
      assert s == t + b;
      assert s[|s| - 1] == b[|b| - 1];
      assert s[..|s| - 1] == a + t + b[..|b| - 1];
      StripPadding(a, t, b[..|b| - 1]);
    } else {
      assert s == t;
    }
  }

  /** `float()` ignores surrounding whitespace and accepts an underscore
      between digits and a signed exponent. */
  lemma FloatTextPadded()
    ensures IsFloatText(" 1_0e-2\n")
  {
    assert " 1_0e-2\n" == " " + "1_0e-2" + "\n";
    StripPadding(" ", "1_0e-2", "\n");
    assert Unsigned("1_0e-2") == "1_0e-2";
    ExponentForm();
  }

  lemma ExponentForm()
    ensures IsFloatNumber("1_0e-2")
  {
    assert FirstOf("1_0e-2", ExponentMarks) == Some(3);
    assert "1_0e-2"[..3] == "1_0" && "1_0e-2"[4..] == "-2" && Unsigned("-2") == "2";
    assert FirstOf("1_0", FloatMarks).None?;
    assert IsDigitPart("1_0");
  }

  /** `float()` does not strip the ASCII separator U+001C. */
  lemma FloatTextRejectsSeparator()
    ensures !IsFloatText("\U{1C}1")
  {
    assert Strip("\U{1C}1") == "\U{1C}1" && Unsigned("\U{1C}1") == "\U{1C}1";
    assert FirstOf("\U{1C}1", ExponentMarks).None? && FirstOf("\U{1C}1", FloatMarks).None?;
  }

  /** `float()` rejects the empty text and a word. */
  lemma FloatTextRejects()
    ensures !IsFloatText("") && !IsFloatText("abc")
  {
    assert Strip("abc") == "abc" && Unsigned("abc") == "abc" && Lower("abc") == "abc";
    assert FirstOf("abc", ExponentMarks).None? && FirstOf("abc", FloatMarks).None?;
  }

  /** `float()` rejects a doubled underscore. */
  lemma FloatTextRejectsUnderscores()
    ensures !IsFloatText("1__0")
  {
    assert Strip("1__0") == "1__0" && Unsigned("1__0") == "1__0";
    assert FirstOf("1__0", ExponentMarks).None? && FirstOf("1__0", FloatMarks).None?;
    assert !IsDigitPart("_0");
  }

  lemma {:induction false} DigitsAreDigitPart(s: string)
    requires IsDigits(s)
    ensures IsDigitPart(s)
    decreases |s|
  {
    if |s| > 1 {
      assert IsDigits(s[1..]);
      DigitsAreDigitPart(s[1..]);
    }
  }

  lemma NoneOfDigits(s: string, cs: set<char>)
    requires IsDigits(s)
    requires forall c :: c in cs ==> !IsDigitChar(c)
    ensures FirstOf(s, cs).None?
  {
  }
}
