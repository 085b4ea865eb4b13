/**
 * Decimal text of integers: how a JavaScript template literal prints an integral
 * number, and `parseInt(text, 10)`.
 */
module Numbers {

  predicate IsDigit(c: char) {
    '0' <= c <= '9'
  }

  function DigitChar(d: nat): (c: char)
    requires d < 10
    ensures IsDigit(c) && c as int - '0' as int == d
  {
    ('0' as int + d) as char
  }

  /** Decimal digits of a natural number, no leading zeros. */
  function NatDigits(n: nat): (s: string)
    ensures |s| > 0
    ensures forall i :: 0 <= i < |s| ==> IsDigit(s[i])
    decreases n
  {
    if n < 10 then [DigitChar(n)] else NatDigits(n / 10) + [DigitChar(n % 10)]
  }

  /** `${n}` for an integral number. */
  function Decimal(n: int): (s: string)
    ensures |s| > 0
  {
    if n < 0 then "-" + NatDigits(-n) else NatDigits(n)
  }

  /** The value of a run of decimal digits, most significant first. */
  function DigitsValue(s: string): nat
    requires forall i :: 0 <= i < |s| ==> IsDigit(s[i])
    decreases |s|
  {
    if |s| == 0 then 0 else DigitsValue(s[..|s| - 1]) * 10 + DigitValue(s[|s| - 1])
  }

  function DigitValue(c: char): (d: nat)
    requires IsDigit(c)
    ensures d < 10
  {
    c as int - '0' as int
  }

  lemma {:induction false} DigitsValueOfNatDigits(n: nat)
    ensures DigitsValue(NatDigits(n)) == n
    decreases n
  {
    var s := NatDigits(n);
    if n >= 10 {
      DigitsValueOfNatDigits(n / 10);
      assert s[..|s| - 1] == NatDigits(n / 10);
    }
  }

  /** The length of the longest run of decimal digits at the start of `s`. */
  function DigitRun(s: string): (k: nat)
    ensures k <= |s|
    ensures forall i :: 0 <= i < k ==> IsDigit(s[i])
    ensures k < |s| ==> !IsDigit(s[k])
  {
    if |s| == 0 || !IsDigit(s[0]) then 0 else 1 + DigitRun(s[1..])
  }

  lemma {:induction false} DigitRunAll(s: string)
    requires forall i :: 0 <= i < |s| ==> IsDigit(s[i])
    ensures DigitRun(s) == |s|
  {
    if |s| > 0 {
      DigitRunAll(s[1..]);
    }
  }

  /** The white space `parseInt` skips: StrWhiteSpaceChar of ECMAScript (WhiteSpace and LineTerminator). */
  predicate IsJsWhiteSpace(c: char) {
    c == '\t' || c == '\U{000B}' || c == '\U{000C}' || c == ' ' || c == '\U{00A0}' || c == '\U{FEFF}'
    || c == '\n' || c == '\r' || c == '\U{2028}' || c == '\U{2029}'
    || c == '\U{1680}' || ('\U{2000}' <= c <= '\U{200A}') || c == '\U{202F}' || c == '\U{205F}' || c == '\U{3000}'
  }

  function SkipWhiteSpace(s: string): (r: string)
    ensures |r| <= |s| && r == s[|s| - |r|..]
    ensures |r| > 0 ==> !IsJsWhiteSpace(r[0])
    ensures forall i :: 0 <= i < |s| - |r| ==> IsJsWhiteSpace(s[i])
  {
    if |s| > 0 && IsJsWhiteSpace(s[0]) then SkipWhiteSpace(s[1..]) else s
  }

  /** A JavaScript number as far as `parseInt` can produce one. */
  datatype Parsed = Num(value: int) | NaN

  /**
   * `parseInt(s, 10)`: leading white space is skipped, one optional sign is read,
   * then the longest run of decimal digits; no digit at all gives NaN. A negative
   * zero is the integer 0 here.
   */
  function ParseInt(s: string): (r: Parsed)
    ensures r == NaN <==> DigitRun(SignStripped(SkipWhiteSpace(s))) == 0
  {
    var t := SkipWhiteSpace(s);
    var negative := |t| > 0 && t[0] == '-';
    var u := SignStripped(t);
    var k := DigitRun(u);
    if k == 0 then NaN
    else
      var v: int := DigitsValue(u[..k]);
      Num(if negative then -v else v)
  }

  function SignStripped(t: string): string {
    if |t| > 0 && (t[0] == '-' || t[0] == '+') then t[1..] else t
  }

  /** `parseInt` reads back what a template literal prints. */
  lemma ParseIntDecimal(n: int)
    ensures ParseInt(Decimal(n)) == Num(n)
  {
    var s := Decimal(n);
    var digits := NatDigits(if n < 0 then -n else n);
    assert !IsJsWhiteSpace(s[0]);
    assert SkipWhiteSpace(s) == s;
    if n < 0 {
      assert s[1..] == digits;
    }
    assert SignStripped(s) == digits;
    DigitRunAll(digits);
    assert digits[..|digits|] == digits;
    DigitsValueOfNatDigits(if n < 0 then -n else n);
  }
}
