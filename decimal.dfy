/** Decimal text of natural numbers, as Python's `str(int)` and f-strings
    print them, and the reading of such text back into a number. */
module Decimal {

  predicate IsDigit(c: char) {
    '0' <= c <= '9'
  }

  /** A non-empty run of decimal digits. */
  predicate IsDigits(s: string) {
    |s| > 0 && forall i :: 0 <= i < |s| ==> IsDigit(s[i])
  }

  function DigitChar(d: nat): (c: char)
    requires d < 10
    ensures IsDigit(c) && c as int - '0' as int == d
  {
    ['0', '1', '2', '3', '4', '5', '6', '7', '8', '9'][d]
  }

  /** The shortest decimal text of `n`, with no sign and no leading zero. */
  function Str(n: nat): (s: string)
    ensures IsDigits(s)
    decreases n
  {
    if n < 10 then [DigitChar(n)] else Str(n / 10) + [DigitChar(n % 10)]
  }

  /** The number a run of digits denotes, read most significant digit first. */
  function Value(s: string): (n: nat)
    requires forall i :: 0 <= i < |s| ==> IsDigit(s[i])
    decreases |s|
  {
    if |s| == 0 then 0
    else
      assert IsDigit(s[|s| - 1]);
      Value(s[..|s| - 1]) * 10 + (s[|s| - 1] as int - '0' as int)
  }

  /** Reading the printed text of a number gives the number back, so the
      printing is one-to-one. */
  lemma {:induction false} ValueOfStr(n: nat)
    ensures Value(Str(n)) == n
    decreases n
  {
    var s := Str(n);
    if n >= 10 {
      assert s[..|s| - 1] == Str(n / 10);
      ValueOfStr(n / 10);
    }
  }

  lemma StrInjective(m: nat, n: nat)
    requires Str(m) == Str(n)
    ensures m == n
  {
    ValueOfStr(m);
    ValueOfStr(n);
  }
}
