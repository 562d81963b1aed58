/** Decimal digits: characters, values and printing. */
module DecimalText {
  predicate All(s: string, p: char -> bool) {
    forall k :: 0 <= k < |s| ==> p(s[k])
  }

  predicate IsDigit(c: char) {
    '0' <= c <= '9'
  }

  function DigitsValue(digits: string): int {
    if digits == "" then 0
    else DigitsValue(digits[..|digits| - 1]) * 10 + (digits[|digits| - 1] as int - '0' as int)
  }

  function Pow10(n: nat): (p: int)
    ensures p >= 1
  {
    if n == 0 then 1 else 10 * Pow10(n - 1)
  }

  function DigitChar(d: nat): (c: char)
    requires d < 10
    ensures IsDigit(c) && c as int - '0' as int == d
  {
    ('0' as int + d) as char
  }

  /** `n` in at least `width` decimal digits. */
  function Digits(n: nat, width: nat): (s: string)
    ensures All(s, IsDigit) && |s| >= width && DigitsValue(s) == n
    decreases n, width
  {
    if n == 0 && width == 0 then ""
    else
      var front := Digits(n / 10, if width == 0 then 0 else width - 1);
      var s := front + [DigitChar(n % 10)];
      assert s[..|s| - 1] == front;
      s
  }

  /** No more digits than the width, if that is enough. */
  lemma {:induction false} DigitsFit(n: nat, width: nat)
    requires n < Pow10(width)
    ensures |Digits(n, width)| == width
    decreases n, width
  {
    if width > 0 {
      DigitsFit(n / 10, width - 1);
    }
  }

  /** Only zeros that the width asks for come first. */
  lemma {:induction false} DigitsLead(n: nat, width: nat)
    ensures |Digits(n, width)| > width ==> Digits(n, width)[0] != '0'
    decreases n, width
  {
    if n != 0 || width != 0 {
      DigitsLead(n / 10, if width == 0 then 0 else width - 1);
    }
  }

  lemma {:induction false} ValueOfConcat(a: string, b: string)
    ensures DigitsValue(a + b) == DigitsValue(a) * Pow10(|b|) + DigitsValue(b)
  {
    if b == "" {
      assert a + b == a;
    } else {
      assert (a + b)[..|a + b| - 1] == a + b[..|b| - 1];
      ValueOfConcat(a, b[..|b| - 1]);
    }
  }
}
