/**
 * The two pieces of JavaScript text handling the viewer relies on:
 * turning a page number into text (a template literal `${n}` or a
 * `textContent` assignment) and reading a number back with the global
 * `parseInt` called without a radix, as ECMAScript defines it.
 */
module JsText {
  import opened Wrappers

  /** True when `prefix` is a prefix of `s` (String.prototype.startsWith). */
  predicate StartsWith(s: string, prefix: string) {
    |prefix| <= |s| && s[..|prefix|] == prefix
  }

  /**
   * String.prototype.replace with a string pattern: the FIRST occurrence of
   * `pattern` is replaced by `replacement`; without an occurrence `s` is
   * returned as it is.
   */
  function ReplaceFirst(s: string, pattern: string, replacement: string): string
    decreases |s|
  {
    if StartsWith(s, pattern) then replacement + s[|pattern|..]
    else if s == [] then s
    else [s[0]] + ReplaceFirst(s[1..], pattern, replacement)
  }

  // ---------------------------------------------------------------------
  // Numbers to text
  // ---------------------------------------------------------------------

  function DigitChar(d: nat): (c: char)
    requires d < 10
    ensures '0' <= c <= '9'
    ensures c as int - '0' as int == d
  {
    ('0' as int + d) as char
  }

  /**
   * The decimal text of a non-negative integer, as a JavaScript Number
   * prints it below 10^21 (larger Numbers print in exponent form): no sign,
   * no leading zeros, "0" for zero.
   */
  function DecimalString(n: nat): (s: string)
    ensures |s| >= 1
    ensures forall i :: 0 <= i < |s| ==> '0' <= s[i] <= '9'
    ensures (s[0] == '0') <==> (n == 0)
    decreases n
  {
    if n < 10 then [DigitChar(n)] else DecimalString(n / 10) + [DigitChar(n % 10)]
  }

  // ---------------------------------------------------------------------
  // parseInt
  // ---------------------------------------------------------------------

  /** The StrWhiteSpaceChar set: WhiteSpace and LineTerminator code points. */
  predicate IsStrWhiteSpaceChar(c: char) {
    || c == '\t' || c == '\U{000B}' || c == '\U{000C}' || c == ' '
    || c == '\U{00A0}' || c == '\U{FEFF}' || c == '\U{1680}'
    || ('\U{2000}' <= c <= '\U{200A}') || c == '\U{202F}' || c == '\U{205F}'
    || c == '\U{3000}'
    || c == '\n' || c == '\r' || c == '\U{2028}' || c == '\U{2029}'
  }

  /** What parseInt keeps after dropping the leading white space. */
  function TrimStart(s: string): (t: string)
    ensures |t| <= |s| && t == s[|s| - |t|..]
    ensures forall i :: 0 <= i < |s| - |t| ==> IsStrWhiteSpaceChar(s[i])
    ensures t == [] || !IsStrWhiteSpaceChar(t[0])
  {
    if s != [] && IsStrWhiteSpaceChar(s[0]) then TrimStart(s[1..]) else s
  }

  /** The value of a character read as a digit: 0-9, then a-z / A-Z as 10-35; 36 for anything else. */
  function DigitValue(c: char): (v: nat)
    ensures v <= 36
  {
    if '0' <= c <= '9' then c as int - '0' as int
    else if 'a' <= c <= 'z' then c as int - 'a' as int + 10
    else if 'A' <= c <= 'Z' then c as int - 'A' as int + 10
    else 36
  }

  predicate IsRadixDigit(c: char, radix: nat) {
    DigitValue(c) < radix
  }

  /** The longest prefix of `s` made of digits of the given radix. */
  function DigitPrefix(s: string, radix: nat): (z: string)
    ensures |z| <= |s| && z == s[..|z|]
    ensures forall i :: 0 <= i < |z| ==> IsRadixDigit(z[i], radix)
    ensures |z| == |s| || !IsRadixDigit(s[|z|], radix)
  {
    if s != [] && IsRadixDigit(s[0], radix) then [s[0]] + DigitPrefix(s[1..], radix) else []
  }

  /** The mathematical value of a digit string, most significant digit first. */
  function DigitsValue(z: string, radix: nat): nat
  {
    if z == [] then 0 else DigitsValue(z[..|z| - 1], radix) * radix + DigitValue(z[|z| - 1])
  }

  /** -1 when the trimmed text starts with a minus sign, 1 otherwise. */
  function SignOf(trimmed: string): int {
    if trimmed != [] && trimmed[0] == '-' then -1 else 1
  }

  /** The trimmed text with one leading '+' or '-' removed. */
  function StripSign(trimmed: string): string {
    if trimmed != [] && (trimmed[0] == '+' || trimmed[0] == '-') then trimmed[1..] else trimmed
  }

  predicate HasHexPrefix(s: string) {
    |s| >= 2 && s[0] == '0' && (s[1] == 'x' || s[1] == 'X')
  }

  /**
   * The unsigned part of parseInt: a "0x"/"0X" prefix switches to radix 16,
   * otherwise radix 10; the longest run of digits is read, and no digit at
   * all gives NaN (`None`).
   */
  function ParseUnsigned(s: string): Option<nat> {
    var radix := if HasHexPrefix(s) then 16 else 10;
    var digits := DigitPrefix(if HasHexPrefix(s) then s[2..] else s, radix);
    if digits == [] then None else Some(DigitsValue(digits, radix))
  }

  /**
   * parseInt(input) with the radix left undefined. `None` stands for NaN;
   * a negative zero is returned as 0 (no page check can tell them apart).
   */
  function ParseInt(input: string): Option<int> {
    var trimmed := TrimStart(input);
    match ParseUnsigned(StripSign(trimmed))
    case None => None
    case Some(v) => Some(SignOf(trimmed) * v)
  }

  // ---------------------------------------------------------------------
  // Lemmas
  // ---------------------------------------------------------------------

  /** A run of digits followed by a non-digit is exactly the digit prefix parseInt reads. */
  lemma {:induction false} DigitPrefixOfDigits(d: string, rest: string, radix: nat)
    requires forall i :: 0 <= i < |d| ==> IsRadixDigit(d[i], radix)
    requires rest == [] || !IsRadixDigit(rest[0], radix)
    ensures DigitPrefix(d + rest, radix) == d
  {
    if d == [] {
      assert d + rest == rest;
    } else {
      assert (d + rest)[1..] == d[1..] + rest;
      DigitPrefixOfDigits(d[1..], rest, radix);
    }
  }

  /** Reading the decimal text of `n` gives back `n`. */
  lemma {:induction false} DecimalValue(n: nat)
    ensures DigitsValue(DecimalString(n), 10) == n
    decreases n
  {
    var s := DecimalString(n);
    if n >= 10 {
      assert s[..|s| - 1] == DecimalString(n / 10);
      DecimalValue(n / 10);
    }
  }

  /** Leading zeros do not change the value of a digit string. */
  lemma {:induction false} LeadingZerosValue(zeros: string, z: string, radix: nat)
    requires forall i :: 0 <= i < |zeros| ==> zeros[i] == '0'
    ensures DigitsValue(zeros + z, radix) == DigitsValue(z, radix)
    decreases |z|, |zeros|
  {
    if z == [] {
      assert zeros + z == zeros;
      if zeros != [] {
        LeadingZerosValue(zeros[..|zeros| - 1], [], radix);
        assert zeros[..|zeros| - 1] + [] == zeros[..|zeros| - 1];
      }
    } else {
      assert (zeros + z)[..|zeros + z| - 1] == zeros + z[..|z| - 1];
      LeadingZerosValue(zeros, z[..|z| - 1], radix);
    }
  }

  /** Text that starts with a letter or digit has nothing for parseInt to trim, and no sign. */
  lemma StartsWithAlphanumeric(s: string)
    requires s != [] && DigitValue(s[0]) < 36
    ensures TrimStart(s) == s && SignOf(s) == 1 && StripSign(s) == s
    ensures ParseInt(s) == ParseUnsigned(s)
  {
    assert !IsStrWhiteSpaceChar(s[0]);
  }

  /** The unsigned stage reads the decimal text of `n`, followed by a non-digit, as `n`. */
  lemma ParseUnsignedDecimal(n: nat, rest: string)
    requires rest == [] || !IsRadixDigit(rest[0], 10)
    requires n == 0 ==> rest == [] || (rest[0] != 'x' && rest[0] != 'X')
    ensures ParseUnsigned(DecimalString(n) + rest) == Some(n)
  {
    var d := DecimalString(n);
    var s := d + rest;
    if n == 0 {
      assert |d| == 1;
      assert |s| >= 2 ==> s[1] == rest[0];
    }
    assert s[0] == d[0];
    assert !HasHexPrefix(s);
    DigitPrefixOfDigits(d, rest, 10);
    DecimalValue(n);
  }

  /**
   * parseInt reads the decimal text of `n` back as `n`, whatever follows it,
   * as long as what follows is not a further digit (and, for 0, not the x
   * that would make a hexadecimal prefix).
   */
  lemma ParseIntDecimal(n: nat, rest: string)
    requires rest == [] || !IsRadixDigit(rest[0], 10)
    requires n == 0 ==> rest == [] || (rest[0] != 'x' && rest[0] != 'X')
    ensures ParseInt(DecimalString(n) + rest) == Some(n)
  {
    var s := DecimalString(n) + rest;
    assert s[0] == DecimalString(n)[0];
    StartsWithAlphanumeric(s);
    ParseUnsignedDecimal(n, rest);
  }

  /** parseInt skips leading zeros: "04" reads as 4. */
  lemma ParseIntLeadingZeros(zeros: string, n: nat)
    requires forall i :: 0 <= i < |zeros| ==> zeros[i] == '0'
    requires n >= 1
    ensures ParseInt(zeros + DecimalString(n)) == Some(n)
  {
    var d := DecimalString(n);
    var s := zeros + d;
    assert forall i :: 0 <= i < |s| ==> '0' <= s[i] <= '9';
    StartsWithAlphanumeric(s);
    assert |s| >= 2 ==> s[1] == (if |zeros| >= 2 then zeros[1] else d[1 - |zeros|]);
    assert !HasHexPrefix(s);
    assert s + [] == s;
    DigitPrefixOfDigits(s, [], 10);
    LeadingZerosValue(zeros, d, 10);
    DecimalValue(n);
    assert ParseUnsigned(s) == Some(n);
  }

  /** Worked cases: NaN without digits, a plain decimal, and the hexadecimal prefix. */
  lemma ParseIntExamples()
    ensures ParseInt("abc") == None
    ensures ParseInt("999") == Some(999)
    ensures ParseInt("0xA") == Some(10)
  {
    StartsWithAlphanumeric("abc");
    assert DigitPrefix("abc", 10) == [];
    StartsWithAlphanumeric("999");
    assert DigitPrefix("999", 10) == "999";
    assert DigitsValue("999", 10) == 999 by {
      assert "999"[..2] == "99";
      assert "99"[..1] == "9";
    }
    StartsWithAlphanumeric("0xA");
    assert HasHexPrefix("0xA");
    assert "0xA"[2..] == "A";
    assert DigitPrefix("A", 16) == "A";
  }

  /** parseInt skips leading white space and honours one sign: " 7" is 7, "-3" is -3. */
  lemma ParseIntSignExamples()
    ensures ParseInt(" 7") == Some(7)
    ensures ParseInt("-3") == Some(-3)
  {
    assert IsStrWhiteSpaceChar(" 7"[0]);
    assert " 7"[1..] == "7";
    StartsWithAlphanumeric("7");
    assert TrimStart(" 7") == "7";
    assert DigitPrefix("7", 10) == "7";
    assert !IsStrWhiteSpaceChar("-3"[0]);
    assert TrimStart("-3") == "-3";
    assert StripSign("-3") == "3";
    assert DigitPrefix("3", 10) == "3";
  }
}
