/** `Integer.toString(int)`, which string concatenation applies to an `int`
    operand: an optional minus sign followed by the decimal digits of the
    magnitude, with no leading zeros. Its partner is a reader that turns
    such text back into the number. */
module JavaDecimal {
  import opened JavaInt
  import opened JavaStrings

  const ZERO: CodeUnit := 0x30
  const MINUS: CodeUnit := 0x2D

  predicate IsDigit(c: CodeUnit) {
    ZERO <= c <= ZERO + 9
  }

  predicate AllDigits(s: JString) {
    forall i | 0 <= i < |s| :: IsDigit(s[i])
  }

  /** The decimal digits of `n`, most significant first. */
  function Digits(n: nat): (r: JString)
    ensures |r| >= 1 && AllDigits(r)
    ensures r[0] == ZERO ==> n == 0
    decreases n
  {
    if n < 10 then [ZERO + n]
    else
      var d := Digits(n / 10);
      assert (d + [ZERO + n % 10])[0] == d[0];
      d + [ZERO + n % 10]
  }

  /** `Integer.toString(n)`: a `-` exactly for negative values, then the
      digits of the magnitude with no leading zero other than `0` itself. */
  function ToDecimal(n: Int32): (r: JString)
    ensures |r| >= 1
    ensures n < 0 <==> r[0] == MINUS
    ensures n == 0 ==> r == [ZERO]
    ensures r[0] == ZERO ==> n == 0
    ensures n < 0 ==> |r| >= 2 && r[1] != ZERO
  {
    if n < 0 then [MINUS] + Digits(-(n as int)) else Digits(n)
  }

  /** The number a run of decimal digits denotes. */
  function DigitsValue(s: JString): (v: nat)
    requires AllDigits(s)
    decreases |s|
  {
    if |s| == 0 then 0
    else 10 * DigitsValue(s[..|s| - 1]) + (s[|s| - 1] - ZERO)
  }

  /** Reads an optional minus sign followed by at least one digit. */
  function ParseDecimal(s: JString): Option<int> {
    if |s| > 0 && s[0] == MINUS then
      var t := s[1..];
      if |t| > 0 && AllDigits(t) then Some(-(DigitsValue(t) as int)) else None
    else if |s| > 0 && AllDigits(s) then Some(DigitsValue(s))
    else None
  }

  lemma {:induction false} DigitsValueOfDigits(n: nat)
    ensures DigitsValue(Digits(n)) == n
    decreases n
  {
    if n >= 10 {
      var d := Digits(n / 10);
      var r := d + [ZERO + n % 10];
      assert r[..|r| - 1] == d;
      DigitsValueOfDigits(n / 10);
    }
  }

  /** Reading back what `Integer.toString` wrote gives the number again. */
  lemma {:induction false} ParseToDecimal(n: Int32)
    ensures ParseDecimal(ToDecimal(n)) == Some(n)
  {
    if n < 0 {
      assert ([MINUS] + Digits(-(n as int)))[1..] == Digits(-(n as int));
      DigitsValueOfDigits(-(n as int));
    } else {
      DigitsValueOfDigits(n);
    }
  }

  /** Two different `int`s never render the same way. */
  lemma ToDecimalInjective(m: Int32, n: Int32)
    requires ToDecimal(m) == ToDecimal(n)
    ensures m == n
  {
    ParseToDecimal(m);
    ParseToDecimal(n);
  }

  /** The longest prefix of `s` made of decimal digits. */
  function DigitRun(s: JString): (r: JString)
    ensures r <= s && AllDigits(r)
    ensures |r| < |s| ==> !IsDigit(s[|r|])
    decreases |s|
  {
    if |s| > 0 && IsDigit(s[0]) then [s[0]] + DigitRun(s[1..]) else []
  }

  /** The number written at the start of `s`, as far as a reader of a log
      line would take it: an optional minus sign and the digits after it. */
  function LeadingNumber(s: JString): (r: JString)
    ensures r <= s
  {
    if |s| > 0 && s[0] == MINUS then [MINUS] + DigitRun(s[1..]) else DigitRun(s)
  }

  lemma {:induction false} DigitRunOfDigits(d: JString, rest: JString)
    requires AllDigits(d)
    requires |rest| == 0 || !IsDigit(rest[0])
    ensures DigitRun(d + rest) == d
    decreases |d|
  {
    if |d| == 0 {
      assert d + rest == rest;
    } else {
      assert (d + rest)[1..] == d[1..] + rest;
      DigitRunOfDigits(d[1..], rest);
      assert d == [d[0]] + d[1..];
    }
  }

  /** Whatever follows a rendered `int`, as long as it does not start with
      a digit, the number can be read back from the front of the text. */
  lemma {:induction false} ReadBackDecimal(n: Int32, rest: JString)
    requires |rest| == 0 || !IsDigit(rest[0])
    ensures ParseDecimal(LeadingNumber(ToDecimal(n) + rest)) == Some(n)
  {
    var s := ToDecimal(n) + rest;
    if n < 0 {
      assert s[0] == MINUS;
      assert s[1..] == Digits(-(n as int)) + rest;
      DigitRunOfDigits(Digits(-(n as int)), rest);
    } else {
      assert s == Digits(n) + rest;
      DigitRunOfDigits(Digits(n), rest);
    }
    ParseToDecimal(n);
  }
}
