/** JavaScript strings as the code sees them: sequences of UTF-16 code units.
    `.length` counts code units and `substring` cuts between code units, so a
    cut can fall between the two halves of a surrogate pair. */
module JsText {

  /** One UTF-16 code unit. */
  newtype CodeUnit = x: int | 0 <= x < 0x1_0000

  type JsString = seq<CodeUnit>

  /** A string literal of the program, written as Dafny text. Every literal in
      the program is ASCII, where one character is one code unit; a character
      outside the Basic Multilingual Plane never occurs in a literal and is
      mapped to U+FFFD. */
  function Lit(s: string): (r: JsString)
    ensures |r| == |s|
  {
    seq(|s|, i requires 0 <= i < |s| => if s[i] as int < 0x1_0000 then s[i] as int as CodeUnit else 0xFFFD)
  }

  predicate IsHighSurrogate(u: CodeUnit) { 0xD800 <= u < 0xDC00 }

  predicate IsLowSurrogate(u: CodeUnit) { 0xDC00 <= u < 0xE000 }

  predicate IsSurrogate(u: CodeUnit) { IsHighSurrogate(u) || IsLowSurrogate(u) }

  /** Well-formed UTF-16: every high surrogate is followed by a low one and
      every low surrogate follows a high one. This is what encodeURIComponent
      accepts; on a lone surrogate it throws a URIError. */
  predicate WellFormed(s: JsString) {
    (forall i | 0 <= i < |s| && IsHighSurrogate(s[i]) :: i + 1 < |s| && IsLowSurrogate(s[i + 1])) &&
    (forall i | 0 <= i < |s| && IsLowSurrogate(s[i]) :: 0 < i && IsHighSurrogate(s[i - 1]))
  }

  /** Strings that hold no surrogate at all, such as every literal of the program. */
  predicate SurrogateFree(s: JsString) {
    forall i | 0 <= i < |s| :: !IsSurrogate(s[i])
  }

  lemma LitIsSurrogateFree(s: string)
    ensures SurrogateFree(Lit(s))
  {
    forall i | 0 <= i < |s|
      ensures !IsSurrogate(Lit(s)[i])
    {
      var c := s[i] as int;
      assert c < 0xD800 || 0xE000 <= c;
    }
  }

  /** Cutting a well-formed string at a point that is not just after a high
      surrogate leaves a well-formed prefix. */
  lemma PrefixWellFormed(s: JsString, cut: nat)
    requires WellFormed(s) && cut <= |s|
    requires cut == 0 || !IsHighSurrogate(s[cut - 1])
    ensures WellFormed(s[..cut])
  {
    var p := s[..cut];
    forall i | 0 <= i < |p| && IsHighSurrogate(p[i])
      ensures i + 1 < |p| && IsLowSurrogate(p[i + 1])
    {
      assert s[i] == p[i];
    }
    forall i | 0 <= i < |p| && IsLowSurrogate(p[i])
      ensures 0 < i && IsHighSurrogate(p[i - 1])
    {
      assert s[i] == p[i];
    }
  }

  /** Appending surrogate-free text keeps a string well-formed. */
  lemma AppendSurrogateFree(a: JsString, b: JsString)
    requires WellFormed(a) && SurrogateFree(b)
    ensures WellFormed(a + b)
  {
    var s := a + b;
    forall i | 0 <= i < |s| && IsHighSurrogate(s[i])
      ensures i + 1 < |s| && IsLowSurrogate(s[i + 1])
    {
      assert i < |a|;
      assert s[i] == a[i];
    }
    forall i | 0 <= i < |s| && IsLowSurrogate(s[i])
      ensures 0 < i && IsHighSurrogate(s[i - 1])
    {
      assert i < |a|;
      assert s[i] == a[i] && s[i - 1] == a[i - 1];
    }
  }

  /** Text joined around a non-empty surrogate-free separator is well-formed
      exactly when both sides are: no pair can straddle the separator. */
  lemma SeparatedWellFormedIff(x: JsString, sep: JsString, y: JsString)
    requires |sep| > 0 && SurrogateFree(sep)
    ensures WellFormed(x + sep + y) <==> WellFormed(x) && WellFormed(y)
  {
    if WellFormed(x + sep + y) {
      SeparatedSidesWellFormed(x, sep, y);
    }
    if WellFormed(x) && WellFormed(y) {
      SeparatedJoinWellFormed(x, sep, y);
    }
  }

  lemma SeparatedSidesWellFormed(x: JsString, sep: JsString, y: JsString)
    requires |sep| > 0 && SurrogateFree(sep) && WellFormed(x + sep + y)
    ensures WellFormed(x) && WellFormed(y)
  {
    var s := x + sep + y;
    var o := |x| + |sep|;
    assert forall i | 0 <= i < |x| :: s[i] == x[i];
    assert forall i | 0 <= i < |sep| :: s[|x| + i] == sep[i];
    assert forall j | 0 <= j < |y| :: s[o + j] == y[j];
    forall i | 0 <= i < |x| && IsHighSurrogate(x[i]) ensures i + 1 < |x| && IsLowSurrogate(x[i + 1]) {
      assert IsHighSurrogate(s[i]) && IsLowSurrogate(s[i + 1]);
      assert !IsSurrogate(sep[0]);
    }
    forall i | 0 <= i < |x| && IsLowSurrogate(x[i]) ensures 0 < i && IsHighSurrogate(x[i - 1]) {
      assert IsLowSurrogate(s[i]);
    }
    forall j | 0 <= j < |y| && IsHighSurrogate(y[j]) ensures j + 1 < |y| && IsLowSurrogate(y[j + 1]) {
      assert IsHighSurrogate(s[o + j]);
    }
    forall j | 0 <= j < |y| && IsLowSurrogate(y[j]) ensures 0 < j && IsHighSurrogate(y[j - 1]) {
      assert IsLowSurrogate(s[o + j]) && IsHighSurrogate(s[o + j - 1]);
      assert !IsSurrogate(sep[|sep| - 1]);
    }
  }

  lemma SeparatedJoinWellFormed(x: JsString, sep: JsString, y: JsString)
    requires |sep| > 0 && SurrogateFree(sep) && WellFormed(x) && WellFormed(y)
    ensures WellFormed(x + sep + y)
  {
    var s := x + sep + y;
    var o := |x| + |sep|;
    assert forall i | 0 <= i < |x| :: s[i] == x[i];
    assert forall i | 0 <= i < |sep| :: s[|x| + i] == sep[i];
    assert forall j | 0 <= j < |y| :: s[o + j] == y[j];
    forall i | 0 <= i < |s| && IsHighSurrogate(s[i]) ensures i + 1 < |s| && IsLowSurrogate(s[i + 1]) {
      if i < |x| {
        assert IsHighSurrogate(x[i]);
      } else {
        assert i >= o && IsHighSurrogate(y[i - o]);
      }
    }
    forall i | 0 <= i < |s| && IsLowSurrogate(s[i]) ensures 0 < i && IsHighSurrogate(s[i - 1]) {
      if i < |x| {
        assert IsLowSurrogate(x[i]);
      } else {
        assert i >= o && IsLowSurrogate(y[i - o]);
      }
    }
  }

  // Decimal digits, as a template literal prints a non-negative integer.

  predicate IsDigit(u: CodeUnit) { 0x30 <= u <= 0x39 }

  function Digit(d: nat): (u: CodeUnit)
    requires d < 10
    ensures IsDigit(u) && u as int - 0x30 == d
  {
    (0x30 + d) as CodeUnit
  }

  /** The decimal text of `n`, most significant digit first. */
  function DecimalString(n: nat): (r: JsString)
    ensures 1 <= |r|
    ensures forall i | 0 <= i < |r| :: IsDigit(r[i])
    ensures n < 10 <==> |r| == 1
  {
    if n < 10 then [Digit(n)] else DecimalString(n / 10) + [Digit(n % 10)]
  }

  function DigitValue(u: CodeUnit): nat
    requires IsDigit(u)
  {
    u as int - 0x30
  }

  /** The number a string of digits denotes. */
  function DecimalValue(s: JsString): nat
    requires forall i | 0 <= i < |s| :: IsDigit(s[i])
  {
    if |s| == 0 then 0 else DecimalValue(s[..|s| - 1]) * 10 + DigitValue(s[|s| - 1])
  }

  /** The printed digits read back as the number that was printed. */
  lemma {:induction false} DecimalRoundTrip(n: nat)
    ensures DecimalValue(DecimalString(n)) == n
  {
    if n >= 10 {
      DecimalRoundTrip(n / 10);
      var r := DecimalString(n);
      assert r[..|r| - 1] == DecimalString(n / 10);
    }
  }
}
