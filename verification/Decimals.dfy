/** Decimal numbers as text: `to_string`, and the digits that parsing reads back. */
module Decimals {

  predicate IsDigit(c: char) {
    '0' <= c <= '9'
  }

  predicate AllDigits(s: string) {
    forall i :: 0 <= i < |s| ==> IsDigit(s[i])
  }

  function Digit(n: nat): (c: char)
    requires n < 10
    ensures IsDigit(c) && c as int - '0' as int == n
  {
    ('0' as int + n) as char
  }

  function DigitsValue(s: string): nat
    requires AllDigits(s)
  {
    if s == [] then 0 else DigitsValue(s[..|s| - 1]) * 10 + (s[|s| - 1] as int - '0' as int)
  }

  /** `to_string` of an unsigned integer. */
  function DecimalText(n: nat): (s: string)
    ensures s != [] && AllDigits(s)
  {
    if n < 10 then [Digit(n)] else DecimalText(n / 10) + [Digit(n % 10)]
  }

  /** What is printed is read back, and is printed without leading zeros. */
  lemma {:induction false} ParseUndoesPrint(n: nat)
    ensures DigitsValue(DecimalText(n)) == n
    ensures DecimalText(n)[0] == '0' <==> n == 0
  {
    var s := DecimalText(n);
    if n >= 10 {
      ParseUndoesPrint(n / 10);
      assert s[..|s| - 1] == DecimalText(n / 10);
    } else {
      assert s[..0] == [];
    }
  }

  /** And whatever digits are read, without leading zeros, are those that are printed. */
  lemma {:induction false} PrintUndoesParse(s: string)
    requires AllDigits(s) && s != [] && (s[0] == '0' ==> |s| == 1)
    ensures DecimalText(DigitsValue(s)) == s
    decreases |s|
  {
    var init, last := s[..|s| - 1], s[|s| - 1];
    assert s == init + [last];
    if init != [] {
      PrintUndoesParse(init);
      NoLeadingZero(init);
      assert DigitsValue(s) / 10 == DigitsValue(init);
    }
  }

  lemma {:induction false} NoLeadingZero(s: string)
    requires AllDigits(s) && s != [] && s[0] != '0'
    ensures DigitsValue(s) > 0
    decreases |s|
  {
    if |s| > 1 {
      NoLeadingZero(s[..|s| - 1]);
    }
  }

  /** The size of the object in the answer that AWS documents. */
  lemma AMebibyte()
    ensures DecimalText(1048576) == "1048576" && DigitsValue("1048576") == 1048576
  {
    ParseUndoesPrint(1048576);
  }
}
