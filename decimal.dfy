/** Decimal text <-> numbers, as the repository uses them: `std::to_string(int)` for line and
    column numbers in Token::toString, `std::stoi` / `std::stof` on the digit lexemes the
    lexer produces. */
module Decimal {

  predicate IsDigit(c: char) {
    '0' <= c <= '9'
  }

  predicate AllDigits(s: string) {
    forall i :: 0 <= i < |s| ==> IsDigit(s[i])
  }

  function DigitChar(d: int): (c: char)
    requires 0 <= d < 10
    ensures IsDigit(c) && (c as int) - ('0' as int) == d
  {
    (('0' as int) + d) as char
  }

  function DigitValue(c: char): (d: int)
    requires IsDigit(c)
    ensures 0 <= d < 10
  {
    (c as int) - ('0' as int)
  }

  /** `std::to_string` of a non-negative integer: its shortest decimal spelling. */
  function NatToString(n: nat): (s: string)
    ensures |s| >= 1 && AllDigits(s)
    ensures |s| > 1 ==> s[0] != '0'
    decreases n
  {
    if n < 10 then [DigitChar(n)] else NatToString(n / 10) + [DigitChar(n % 10)]
  }

  /** `std::to_string` of any int (a leading '-' for negative values). */
  function IntToString(n: int): (s: string)
    ensures |s| >= 1
    ensures (s[0] == '-') <==> n < 0
  {
    if n < 0 then "-" + NatToString(-n) else NatToString(n)
  }

  /** The value of a string of decimal digits (most significant first). */
  function DigitsValue(s: string): (n: nat)
    requires AllDigits(s)
    decreases |s|
  {
    if s == [] then 0 else DigitsValue(s[..|s| - 1]) * 10 + DigitValue(s[|s| - 1])
  }

  /** Reading back what NatToString writes gives the number: the two are inverse. */
  lemma {:induction false} NatToStringRoundTrip(n: nat)
    ensures DigitsValue(NatToString(n)) == n
    decreases n
  {
    if n >= 10 {
      var s := NatToString(n);
      assert s[..|s| - 1] == NatToString(n / 10);
      NatToStringRoundTrip(n / 10);
    }
  }

  /** Behind the sign of a negative number's spelling is the spelling of its magnitude. */
  lemma MagnitudeSpelling(a: int)
    requires a < 0
    ensures IntToString(a)[1..] == NatToString(-a)
  {
    var s := NatToString(-a);
    assert ("-" + s)[1..] == s;
  }

  /** Distinct naturals are spelled differently. */
  lemma NatToStringInjective(m: nat, n: nat)
    requires NatToString(m) == NatToString(n)
    ensures m == n
  {
    NatToStringRoundTrip(m);
    NatToStringRoundTrip(n);
  }

  /** Distinct numbers are spelled differently. */
  lemma IntToStringInjective(a: int, b: int)
    requires IntToString(a) == IntToString(b)
    ensures a == b
  {
    if a < 0 && b < 0 {
      MagnitudeSpelling(a);
      MagnitudeSpelling(b);
      NatToStringInjective(-a, -b);
    } else if a >= 0 && b >= 0 {
      NatToStringInjective(a, b);
    }
  }

  /** The length of the leading run of digits of `s` (what `std::stoi` reads). */
  function DigitPrefixLength(s: string): (k: nat)
    ensures k <= |s| && AllDigits(s[..k])
    ensures k == |s| || !IsDigit(s[k])
  {
    if s == [] || !IsDigit(s[0]) then 0
    else
      var k := 1 + DigitPrefixLength(s[1..]);
      assert s[..k] == [s[0]] + s[1..][..k - 1];
      k
  }

  /** `std::stoi` of a lexeme: the value of its leading digits. On the lexer's INT_LITERAL
      lexemes (all digits) this is the whole lexeme's value. */
  function StoiValue(s: string): (n: int)
    ensures AllDigits(s) ==> n == DigitsValue(s)
  {
    var k := DigitPrefixLength(s);
    assert AllDigits(s) ==> k == |s| && s[..k] == s;
    DigitsValue(s[..k])
  }

  /** `std::stof` of a FLOAT_LITERAL lexeme `digits.digits`, taken exactly (the
      single-precision rounding of `float` is not modelled). */
  function StofValue(s: string): (x: real)
    ensures x >= DigitsValue(s[..DigitPrefixLength(s)]) as real >= 0.0
    ensures AllDigits(s) ==> x == DigitsValue(s) as real
  {
    var k := DigitPrefixLength(s);
    var whole := DigitsValue(s[..k]);
    assert AllDigits(s) ==> k == |s| && s[..k] == s;
    if k < |s| && s[k] == '.' then
      var rest := s[k + 1..];
      var j := DigitPrefixLength(rest);
      whole as real + DigitsValue(rest[..j]) as real / Pow10(j) as real
    else whole as real
  }

  function Pow10(n: nat): (p: nat)
    ensures p >= 1
  {
    if n == 0 then 1 else 10 * Pow10(n - 1)
  }

  /** The leading digit run of `w` followed by a non-digit is all of `w`. */
  lemma {:induction false} DigitPrefixStopsAt(w: string, t: string)
    requires AllDigits(w)
    requires t == [] || !IsDigit(t[0])
    ensures DigitPrefixLength(w + t) == |w|
    decreases |w|
  {
    if w != [] {
      assert (w + t)[1..] == w[1..] + t;
      DigitPrefixStopsAt(w[1..], t);
    } else {
      assert w + t == t;
    }
  }

  /** `std::stof` of a lexeme made of the digit run `w`, a '.', and the digit run `f` reads `w`
      as the whole part and `f` as the fraction. */
  lemma StofAtPoint(s: string, w: string, f: string)
    requires DigitPrefixLength(s) == |w| < |s| && s[..|w|] == w && s[|w|] == '.'
    requires s[|w| + 1..] == f && DigitPrefixLength(f) == |f|
    ensures StofValue(s) == DigitsValue(w) as real + DigitsValue(f) as real / Pow10(|f|) as real
  {
    assert f[..|f|] == f;
  }

  /** The pieces of a lexeme `w.f`: the digit run `w`, then the '.', then `f`. */
  lemma PointSplits(w: string, f: string)
    requires AllDigits(w)
    ensures DigitPrefixLength(w + "." + f) == |w|
    ensures (w + "." + f)[..|w|] == w && (w + "." + f)[|w|] == '.' && (w + "." + f)[|w| + 1..] == f
  {
    var s := w + "." + f;
    assert s == w + ("." + f);
    DigitPrefixStopsAt(w, "." + f);
  }

  /** `std::stof` of a FLOAT_LITERAL lexeme `w.f` (Lexer.cpp:61-67): the whole part plus the
      fraction `f` scaled by ten to the power of its length. */
  lemma StofOfFloatLexeme(w: string, f: string)
    requires AllDigits(w) && AllDigits(f)
    ensures StofValue(w + "." + f) == DigitsValue(w) as real + DigitsValue(f) as real / Pow10(|f|) as real
  {
    PointSplits(w, f);
    assert f + [] == f;
    DigitPrefixStopsAt(f, []);
    StofAtPoint(w + "." + f, w, f);
  }

  /** Reading the spelling of a whole number as a float lexeme gives the number back. */
  lemma StofOfNatString(n: nat)
    ensures StofValue(NatToString(n)) == n as real
  {
    var s := NatToString(n);
    assert s[..|s|] == s;
    NatToStringRoundTrip(n);
  }
}
