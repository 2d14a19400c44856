/**
 * String operations shared by the client (JavaScript) and the server (PHP):
 * decimal rendering of integers, left padding, PHP's string-to-integer
 * conversion and PHP's trim, on strings as sequences of characters.
 */
module Text {

  predicate IsDigit(c: char) {
    '0' <= c <= '9'
  }

  function DigitChar(d: int): (c: char)
    requires 0 <= d < 10
    ensures IsDigit(c)
  {
    (48 + d) as char
  }

  function DigitValue(c: char): (d: int)
    requires IsDigit(c)
    ensures 0 <= d < 10 && DigitChar(d) == c
  {
    c as int - 48
  }

  /** Decimal digits of n without leading zeros, as String(n) in JavaScript or "$n" in PHP. */
  function NatToString(n: nat): (s: string)
    ensures 1 <= |s| && forall i :: 0 <= i < |s| ==> IsDigit(s[i])
    ensures |s| == 1 <==> n < 10
  {
    if n < 10 then [DigitChar(n)] else NatToString(n / 10) + [DigitChar(n % 10)]
  }

  /** Decimal rendering of an integer, with a leading '-' when it is negative. */
  function IntToString(n: int): string {
    if n < 0 then "-" + NatToString(-n) else NatToString(n)
  }

  /** Prefixes s with copies of c up to width characters, as padStart in JavaScript and str_pad(..., STR_PAD_LEFT) in PHP. */
  function PadLeft(s: string, width: nat, c: char): (r: string)
    ensures |r| == if |s| >= width then |s| else width
  {
    if |s| >= width then s else seq(width - |s|, _ => c) + s
  }

  /** PadLeft puts only copies of c in front of s. */
  lemma PadLeftShape(s: string, width: nat, c: char)
    ensures var r := PadLeft(s, width, c);
      r == seq(|r| - |s|, _ => c) + s
  {
  }

  /** Value of a string of decimal digits. */
  function DigitsValue(s: string): nat
    requires forall i :: 0 <= i < |s| ==> IsDigit(s[i])
  {
    if s == [] then 0 else DigitsValue(s[..|s| - 1]) * 10 + DigitValue(s[|s| - 1])
  }

  /** Number of leading decimal digits of s. */
  function DigitRun(s: string): (k: nat)
    ensures k <= |s| && forall i :: 0 <= i < k ==> IsDigit(s[i])
    ensures k < |s| ==> !IsDigit(s[k])
  {
    if s == [] || !IsDigit(s[0]) then 0 else 1 + DigitRun(s[1..])
  }

  /** Value of the leading decimal digits of s, 0 when there are none. */
  function LeadingValue(s: string): nat {
    DigitsValue(s[..DigitRun(s)])
  }

  /** The characters PHP skips before a number. */
  predicate IsPhpNumberSpace(c: char) {
    c == ' ' || c == '\t' || c == '\n' || c == '\r' || c == '\U{B}' || c == '\U{C}'
  }

  /** Number of leading characters of s that PHP skips before a number. */
  function LeadingSpace(s: string): (k: nat)
    ensures k <= |s| && forall i :: 0 <= i < k ==> IsPhpNumberSpace(s[i])
    ensures k < |s| ==> !IsPhpNumberSpace(s[k])
  {
    if s != [] && IsPhpNumberSpace(s[0]) then 1 + LeadingSpace(s[1..]) else 0
  }

  function SkipSpace(s: string): string {
    s[LeadingSpace(s)..]
  }

  /**
   * PHP's intval on a string: leading white space, an optional sign, then the
   * longest run of decimal digits; 0 when no digit follows.
   */
  function PhpIntVal(s: string): (r: int)
    ensures (forall i :: 0 <= i < |s| ==> !IsDigit(s[i])) ==> r == 0
    ensures r < 0 ==> '-' in s
  {
    var t := SkipSpace(s);
    if t != [] && t[0] == '-' then -(LeadingValue(t[1..]) as int)
    else if t != [] && t[0] == '+' then LeadingValue(t[1..])
    else LeadingValue(t)
  }

  /** PHP's substr(s, -k): the last k characters, or all of s when it is shorter. */
  function Last(s: string, k: nat): (r: string)
    ensures |r| == if |s| < k then |s| else k
    ensures r == s[|s| - |r|..]
  {
    if |s| < k then s else s[|s| - k..]
  }

  /** The characters PHP's trim removes by default. */
  predicate IsTrimmed(c: char) {
    c == ' ' || c == '\t' || c == '\n' || c == '\r' || c == '\0' || c == '\U{B}'
  }

  /** Number of leading characters of s that trim removes. */
  function LeadingTrimmed(s: string): (k: nat)
    ensures k <= |s| && forall i :: 0 <= i < k ==> IsTrimmed(s[i])
    ensures k < |s| ==> !IsTrimmed(s[k])
  {
    if s != [] && IsTrimmed(s[0]) then 1 + LeadingTrimmed(s[1..]) else 0
  }

  /** Number of trailing characters of s that trim removes. */
  function TrailingTrimmed(s: string): (k: nat)
    ensures k <= |s| && forall i :: |s| - k <= i < |s| ==> IsTrimmed(s[i])
    ensures k < |s| ==> !IsTrimmed(s[|s| - k - 1])
  {
    if s != [] && IsTrimmed(s[|s| - 1]) then 1 + TrailingTrimmed(s[..|s| - 1]) else 0
  }

  /**
   * PHP's trim: s without the default white space at either end. The result
   * is a slice of s, everything cut off on either side is white space, and
   * the slice itself neither starts nor ends with white space.
   */
  function Trim(s: string): (r: string)
    ensures exists i, j ::
              && 0 <= i <= j <= |s| && r == s[i..j]
              && (forall k :: 0 <= k < i ==> IsTrimmed(s[k]))
              && (forall k :: j <= k < |s| ==> IsTrimmed(s[k]))
    ensures r != [] ==> !IsTrimmed(r[0]) && !IsTrimmed(r[|r| - 1])
    ensures r == [] <==> forall i :: 0 <= i < |s| ==> IsTrimmed(s[i])
    ensures |r| <= |s|
  {
    var i := LeadingTrimmed(s);
    var j := |s| - TrailingTrimmed(s[i..]);
    s[i..j]
  }

  /**
   * Length of s as JavaScript counts it (String.prototype.length): UTF-16
   * code units, so a character beyond U+FFFF counts twice.
   */
  function Utf16Length(s: string): (n: nat)
    ensures |s| <= n <= 2 * |s|
    ensures n == 0 <==> s == []
  {
    if s == [] then 0 else Utf16Length(s[..|s| - 1]) + (if s[|s| - 1] as int >= 0x1_0000 then 2 else 1)
  }

  /** On characters of the Basic Multilingual Plane the JavaScript length is the number of characters. */
  lemma {:induction false} Utf16LengthOfBmp(s: string)
    requires forall i :: 0 <= i < |s| ==> s[i] as int < 0x1_0000
    ensures Utf16Length(s) == |s|
  {
    if s != [] {
      Utf16LengthOfBmp(s[..|s| - 1]);
    }
  }

  /** Each character beyond U+FFFF adds two to the JavaScript length. */
  lemma {:induction false} Utf16LengthOfAstral(s: string)
    requires forall i :: 0 <= i < |s| ==> s[i] as int >= 0x1_0000
    ensures Utf16Length(s) == 2 * |s|
  {
    if s != [] {
      Utf16LengthOfAstral(s[..|s| - 1]);
    }
  }

  /** Reading back the decimal rendering of n gives n. */
  lemma {:induction false} DigitsValueOfNatToString(n: nat)
    ensures DigitsValue(NatToString(n)) == n
  {
    if n >= 10 {
      var s := NatToString(n);
      assert s[..|s| - 1] == NatToString(n / 10);
      DigitsValueOfNatToString(n / 10);
    }
  }

  /** Leading zeros do not change the value of a digit string. */
  lemma {:induction false} DigitsValueLeadingZeros(z: nat, s: string)
    requires forall i :: 0 <= i < |s| ==> IsDigit(s[i])
    ensures var p := seq(z, _ => '0') + s;
      (forall i :: 0 <= i < |p| ==> IsDigit(p[i])) && DigitsValue(p) == DigitsValue(s)
    decreases |s|
  {
    var p := seq(z, _ => '0') + s;
    if s == [] {
      AllZeros(z);
      assert p == seq(z, _ => '0');
    } else {
      assert p[..|p| - 1] == seq(z, _ => '0') + s[..|s| - 1];
      DigitsValueLeadingZeros(z, s[..|s| - 1]);
    }
  }

  lemma {:induction false} AllZeros(z: nat)
    ensures DigitsValue(seq(z, _ => '0')) == 0
  {
    if z > 0 {
      assert seq(z, _ => '0')[..z - 1] == seq(z - 1, _ => '0');
      AllZeros(z - 1);
    }
  }

  /** A string made only of digits is read in full. */
  lemma {:induction false} DigitRunOfDigits(s: string)
    requires forall i :: 0 <= i < |s| ==> IsDigit(s[i])
    ensures DigitRun(s) == |s|
  {
    if s != [] {
      DigitRunOfDigits(s[1..]);
    }
  }

  /** intval of a non-empty string of digits is its value. */
  lemma PhpIntValOfDigits(p: string)
    requires p != [] && forall i :: 0 <= i < |p| ==> IsDigit(p[i])
    ensures PhpIntVal(p) == DigitsValue(p)
  {
    assert !IsPhpNumberSpace(p[0]) && p[0] != '-' && p[0] != '+';
    assert SkipSpace(p) == p;
    DigitRunOfDigits(p);
    assert p[..DigitRun(p)] == p;
  }

  /** intval reads back a zero-padded rendering of a non-negative number. */
  lemma PhpIntValOfPadded(n: nat, width: nat)
    ensures PhpIntVal(PadLeft(NatToString(n), width, '0')) == n
  {
    var s := NatToString(n);
    var p := PadLeft(s, width, '0');
    var z := |p| - |s|;
    PadLeftShape(s, width, '0');
    DigitsValueLeadingZeros(z, s);
    DigitsValueOfNatToString(n);
    PhpIntValOfDigits(p);
  }

  /** The digit run of a digit string followed by a non-digit ends where the digit string does. */
  lemma {:induction false} DigitRunThenStop(s: string, rest: string)
    requires forall i :: 0 <= i < |s| ==> IsDigit(s[i])
    requires rest == [] || !IsDigit(rest[0])
    ensures DigitRun(s + rest) == |s|
  {
    if s == [] {
      assert s + rest == rest;
    } else {
      assert (s + rest)[1..] == s[1..] + rest;
      DigitRunThenStop(s[1..], rest);
    }
  }

  /** The value of a number's own rendering followed by a non-digit is the number. */
  lemma LeadingValueOfRendering(n: nat, rest: string)
    requires rest == [] || !IsDigit(rest[0])
    ensures LeadingValue(NatToString(n) + rest) == n
  {
    var s := NatToString(n);
    DigitRunThenStop(s, rest);
    assert (s + rest)[..|s|] == s;
    DigitsValueOfNatToString(n);
  }

  /** intval reads back the decimal rendering of any integer, whatever non-digit text follows it. */
  lemma PhpIntValOfIntToString(n: int, rest: string)
    requires rest == [] || !IsDigit(rest[0])
    ensures PhpIntVal(IntToString(n) + rest) == n
  {
    if n < 0 {
      PhpIntValOfNegative(n, rest);
    } else {
      PhpIntValOfUnsigned(n, rest);
    }
  }

  lemma PhpIntValOfNegative(n: int, rest: string)
    requires n < 0 && (rest == [] || !IsDigit(rest[0]))
    ensures PhpIntVal(IntToString(n) + rest) == n
  {
    PhpIntValOfSigned(-n, rest);
    assert IntToString(n) + rest == "-" + (NatToString(-n) + rest);
  }

  lemma PhpIntValOfUnsigned(n: nat, rest: string)
    requires rest == [] || !IsDigit(rest[0])
    ensures PhpIntVal(NatToString(n) + rest) == n
  {
    var t := NatToString(n) + rest;
    assert IsDigit(t[0]);
    assert LeadingSpace(t) == 0;
    LeadingValueOfRendering(n, rest);
  }

  lemma PhpIntValOfSigned(n: nat, rest: string)
    requires rest == [] || !IsDigit(rest[0])
    ensures PhpIntVal("-" + (NatToString(n) + rest)) == -(n as int)
  {
    var t := "-" + (NatToString(n) + rest);
    assert LeadingSpace(t) == 0;
    assert t[1..] == NatToString(n) + rest;
    LeadingValueOfRendering(n, rest);
  }
}
