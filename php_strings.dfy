/**
 * The PHP string primitives the SDK relies on: `trim` with its default
 * character list, the ASCII digit class `\d`, and the decimal rendering of an
 * integer inside a double-quoted string ("HTTP {$statusCode}").
 */
module PhpStrings {

  /** The characters `trim` strips by default: space, tab, LF, CR, NUL and vertical tab. */
  predicate IsTrimChar(c: char) {
    c == ' ' || c == '\t' || c == '\n' || c == '\r' || c == '\0' || c == '\U{0B}'
  }

  predicate AllTrimChars(s: string) {
    forall i :: 0 <= i < |s| ==> IsTrimChar(s[i])
  }

  /** Every character of `s` from `lo` up to (not including) `hi` is a trim character. */
  predicate TrimCharsBetween(s: string, lo: nat, hi: nat)
    requires lo <= hi <= |s|
  {
    forall i :: lo <= i < hi ==> IsTrimChar(s[i])
  }

  /** The forward scan of `trim`: from `i`, skip trim characters; the first other index, or `|s|`. */
  function TrimStart(s: string, i: nat := 0): (a: nat)
    requires i <= |s|
    ensures i <= a <= |s| && TrimCharsBetween(s, i, a)
    ensures a < |s| ==> !IsTrimChar(s[a])
    decreases |s| - i
  {
    if i < |s| && IsTrimChar(s[i]) then TrimStart(s, i + 1) else i
  }

  /** The backward scan of `trim`: from `j` down to `a`, skip trim characters; one past the last other index. */
  function TrimEnd(s: string, a: nat, j: nat): (b: nat)
    requires a <= j <= |s|
    ensures a <= b <= j && TrimCharsBetween(s, b, j)
    ensures a < b ==> !IsTrimChar(s[b - 1])
    decreases j - a
  {
    if a < j && IsTrimChar(s[j - 1]) then TrimEnd(s, a, j - 1) else j
  }

  /** `trim`: the characters left between the two scans. */
  function Trim(s: string): (r: string)
    ensures |r| <= |s|
    ensures r != [] ==> !IsTrimChar(r[0]) && !IsTrimChar(r[|r| - 1])
  {
    var a := TrimStart(s);
    s[a..TrimEnd(s, a, |s|)]
  }

  /**
   * `trim` removes only trim characters, and only at the two ends: the result
   * is the contiguous slice of `s` between a leading and a trailing run of
   * trim characters.
   */
  lemma {:induction false} TrimIsSlice(s: string)
    ensures var a := TrimStart(s);
            var b := a + |Trim(s)|;
            && b <= |s| && Trim(s) == s[a..b]
            && TrimCharsBetween(s, 0, a) && TrimCharsBetween(s, b, |s|)
  {
    var a := TrimStart(s);
    var b := TrimEnd(s, a, |s|);
    assert Trim(s) == s[a..b];
  }

  /** `trim` yields the empty string exactly when `s` holds nothing but trim characters. */
  lemma {:induction false} TrimEmptyIff(s: string)
    ensures Trim(s) == [] <==> AllTrimChars(s)
  {
    var a := TrimStart(s);
    var b := TrimEnd(s, a, |s|);
    if Trim(s) == [] {
      assert a == b;
      assert TrimCharsBetween(s, 0, a) && TrimCharsBetween(s, a, |s|);
    } else {
      assert !IsTrimChar(s[a]);
    }
  }

  /** `\d` without the `u` modifier: an ASCII digit. */
  predicate IsDigit(c: char) {
    '0' <= c <= '9'
  }

  predicate AllDigits(s: string) {
    forall i :: 0 <= i < |s| ==> IsDigit(s[i])
  }

  function DigitChar(d: nat): (c: char)
    requires d < 10
    ensures IsDigit(c) && DigitValue(c) == d
  {
    (('0' as int) + d) as char
  }

  function DigitValue(c: char): nat
    requires IsDigit(c)
  {
    (c as int) - ('0' as int)
  }

  /** The value of a string of decimal digits, most significant first. */
  function DecimalValue(s: string): nat
    requires AllDigits(s)
  {
    if s == [] then 0 else DecimalValue(s[..|s| - 1]) * 10 + DigitValue(s[|s| - 1])
  }

  /** The decimal digits of a natural number, without leading zeros. */
  function NatToDecimal(n: nat): (s: string)
    ensures s != [] && AllDigits(s)
    ensures |s| > 1 ==> s[0] != '0'
  {
    if n < 10 then [DigitChar(n)] else NatToDecimal(n / 10) + [DigitChar(n % 10)]
  }

  /** Reading back the digits of `n` gives `n`. */
  lemma {:induction false} NatToDecimalRoundTrip(n: nat)
    ensures DecimalValue(NatToDecimal(n)) == n
  {
    if n >= 10 {
      NatToDecimalRoundTrip(n / 10);
      var s := NatToDecimal(n);
      assert s[..|s| - 1] == NatToDecimal(n / 10);
    }
  }

  /** PHP's conversion of an int to a string: a minus sign for negatives, then the digits. */
  function IntToDecimal(i: int): (s: string)
    ensures s != []
    ensures i >= 0 ==> AllDigits(s)
    ensures i < 0 ==> s[0] == '-' && AllDigits(s[1..])
  {
    if i < 0 then "-" + NatToDecimal(-i) else NatToDecimal(i)
  }

  /** Different integers are rendered as different strings. */
  lemma IntToDecimalInjective(a: int, b: int)
    requires IntToDecimal(a) == IntToDecimal(b)
    ensures a == b
  {
    var s := IntToDecimal(a);
    if a < 0 {
      assert IsDigit(NatToDecimal(-a)[0]);
      assert b < 0;
      assert NatToDecimal(-a) == s[1..] == NatToDecimal(-b);
      NatToDecimalRoundTrip(-a);
      NatToDecimalRoundTrip(-b);
    } else {
      assert IsDigit(s[0]);
      assert b >= 0;
      NatToDecimalRoundTrip(a);
      NatToDecimalRoundTrip(b);
    }
  }
}
