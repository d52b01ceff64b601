/** The loosely typed values that the widgets' configuration arrays hold, and
    the PHP and framework helpers the widgets apply to them: is_numeric,
    truthiness, empty(), isset(), blank()/filled(), substr and str_contains. */
module Php {

  /** A scalar configuration value. Floats are modelled as exact reals. */
  datatype PhpValue = PNull | PBool(b: bool) | PInt(i: int) | PFloat(f: real) | PStr(s: string)

  predicate IsDigit(c: char)
  {
    '0' <= c <= '9'
  }

  predicate AllDigits(s: string)
  {
    forall i :: 0 <= i < |s| ==> IsDigit(s[i])
  }

  /** The first index of c in s, or |s| when c does not occur. */
  function IndexOf(s: string, c: char): (k: nat)
    ensures k <= |s|
    ensures k < |s| ==> s[k] == c
    ensures forall j :: 0 <= j < k ==> s[j] != c
  {
    if s == [] then 0
    else if s[0] == c then 0
    else 1 + IndexOf(s[1..], c)
  }

  /** A decimal mantissa: digits, digits "." digits*, or "." digits. */
  predicate IsDecimal(m: string)
  {
    var k := IndexOf(m, '.');
    if k == |m| then |m| > 0 && AllDigits(m)
    else |m| > 1 && AllDigits(m[..k]) && AllDigits(m[k + 1..])
  }

  function Unsigned(s: string): string
  {
    if |s| > 0 && (s[0] == '+' || s[0] == '-') then s[1..] else s
  }

  /** is_numeric on a string: an optional sign followed by a decimal
      mantissa (exponents and surrounding white space are not modelled). */
  predicate IsNumericString(s: string)
  {
    IsDecimal(Unsigned(s))
  }

  predicate IsNumeric(v: PhpValue)
  {
    match v
    case PInt(_) => true
    case PFloat(_) => true
    case PStr(s) => IsNumericString(s)
    case _ => false
  }

  function DigitValue(c: char): nat
    requires IsDigit(c)
  {
    (c as int - '0' as int) as nat
  }

  function DigitsValue(s: string): nat
    requires AllDigits(s)
  {
    if s == [] then 0 else 10 * DigitsValue(s[..|s| - 1]) + DigitValue(s[|s| - 1])
  }

  function Pow10(n: nat): (p: nat)
    ensures p >= 1
  {
    if n == 0 then 1 else 10 * Pow10(n - 1)
  }

  function DecimalValue(m: string): real
    requires IsDecimal(m)
  {
    var k := IndexOf(m, '.');
    if k == |m| then DigitsValue(m) as real
    else DigitsValue(m[..k]) as real + DigitsValue(m[k + 1..]) as real / Pow10(|m| - k - 1) as real
  }

  /** The number a numeric value stands for when PHP compares it. */
  function NumericValue(v: PhpValue): real
    requires IsNumeric(v)
  {
    match v
    case PInt(i) => i as real
    case PFloat(f) => f
    case PStr(s) =>
      var mag := DecimalValue(Unsigned(s));
      if |s| > 0 && s[0] == '-' then -mag else mag
  }

  /** PHP's conversion to bool. */
  predicate Truthy(v: PhpValue)
  {
    match v
    case PNull => false
    case PBool(b) => b
    case PInt(i) => i != 0
    case PFloat(f) => f != 0.0
    case PStr(s) => s != "" && s != "0"
  }

  /** The characters PHP's trim() removes by default. */
  predicate IsTrimmed(c: char)
  {
    c == ' ' || c == '\t' || c == '\n' || c == '\r' || c == '\0' || c == '\U{B}'
  }

  /** The framework's blank() on a string: nothing left after trim(). */
  predicate Blank(s: string)
  {
    forall i :: 0 <= i < |s| ==> IsTrimmed(s[i])
  }

  /** substr(s, start, len) for a non-negative start and length. */
  function Substr(s: string, start: nat, len: nat): (r: string)
    ensures |r| <= len
    ensures start + len <= |s| ==> r == s[start..start + len]
  {
    if start >= |s| then ""
    else if start + len <= |s| then s[start..start + len]
    else s[start..]
  }

  /** needle occurs in hay at offset i. */
  predicate OccursAt(hay: string, needle: string, i: nat)
  {
    i + |needle| <= |hay| && hay[i..i + |needle|] == needle
  }

  /** str_contains(hay, needle). */
  predicate Contains(hay: string, needle: string)
  {
    exists i: nat :: i <= |hay| && OccursAt(hay, needle, i)
  }

  /** Splitting a concatenation of two four-character identifiers at
      offset 4, as the map widget does with a city-pair name, gives the
      identifiers back. */
  lemma SplitFourChar(a: string, b: string)
    requires |a| == 4 && |b| == 4
    ensures Substr(a + b, 0, 4) == a
    ensures Substr(a + b, 4, 4) == b
  {
    assert (a + b)[0..4] == a;
    assert (a + b)[4..8] == b;
  }

  /** Concatenations of four-character identifiers are equal only when
      both parts are. */
  lemma ConcatFourChar(a: string, b: string, c: string, d: string)
    requires |a| == 4 && |c| == 4
    ensures a + b == c + d <==> a == c && b == d
  {
    if a + b == c + d {
      assert a == (a + b)[..4] && c == (c + d)[..4];
      assert b == (a + b)[4..] && d == (c + d)[4..];
    }
  }
}
