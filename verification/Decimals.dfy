/** Numbers written in decimal, as template literals and `join` write them. */
module Decimals {

  function Digit(d: nat): char
    requires d < 10
  {
    '0' + d as char
  }

  function Decimal(n: nat): string {
    if n < 10 then [Digit(n)] else Decimal(n / 10) + [Digit(n % 10)]
  }

  function SignedDecimal(n: int): string {
    if n < 0 then "-" + Decimal(-n) else Decimal(n)
  }

  /** The number a text of digits stands for. */
  function Number(s: string): int {
    if s == [] then 0 else 10 * Number(s[..|s| - 1]) + (s[|s| - 1] as int - '0' as int)
  }

  predicate IsDigit(c: char) { '0' <= c <= '9' }

  /** Reading back what was written. */
  lemma {:induction false} DecimalNumber(n: nat)
    ensures Number(Decimal(n)) == n && Decimal(n) != []
    ensures forall c :: c in Decimal(n) ==> IsDigit(c)
  {
    if n < 10 {
      assert Number([]) == 0;
      assert [Digit(n)][..0] == [];
    } else {
      DecimalNumber(n / 10);
      assert Decimal(n)[..|Decimal(n)| - 1] == Decimal(n / 10);
    }
  }

  lemma {:induction false} DecimalInjective(m: nat, n: nat)
    requires Decimal(m) == Decimal(n)
    ensures m == n
  {
    DecimalNumber(m);
    DecimalNumber(n);
  }

  lemma {:induction false} SignedDecimalInjective(m: int, n: int)
    requires SignedDecimal(m) == SignedDecimal(n)
    ensures m == n
  {
    SignedDecimalText(m);
    SignedDecimalText(n);
    assert m < 0 ==> SignedDecimal(m)[1..] == Decimal(-m);
    assert n < 0 ==> SignedDecimal(n)[1..] == Decimal(-n);
    if m < 0 && n < 0 { DecimalInjective(-m, -n); }
    if m >= 0 && n >= 0 { DecimalInjective(m, n); }
  }

  lemma {:induction false} SignedDecimalText(n: int)
    ensures SignedDecimal(n) != [] && (SignedDecimal(n)[0] == '-' <==> n < 0)
    ensures forall c :: c in SignedDecimal(n) ==> c == '-' || IsDigit(c)
  {
    DecimalNumber(if n < 0 then -n else n);
    assert n >= 0 ==> IsDigit(SignedDecimal(n)[0]);
  }
}
