/** Decimal and hexadecimal numerals, and reading decimal ones back. */
module Numerals {

  function DigitChar(d: nat): (c: char)
    requires d < 16
  {
    "0123456789abcdef"[d]
  }

  predicate IsDigit(c: char) {
    '0' <= c <= '9'
  }

  function DigitValue(c: char): nat {
    if IsDigit(c) then c as int - '0' as int else 0
  }

  /** `str(n)` for a natural number. */
  function Dec(n: nat): (s: string)
    ensures s != [] && forall c :: c in s ==> IsDigit(c)
  {
    if n < 10 then [DigitChar(n)] else Dec(n / 10) + [DigitChar(n % 10)]
  }

  /** `str(n)` for an integer. */
  function DecInt(n: int): string {
    if n < 0 then "-" + Dec(-n) else Dec(n)
  }

  /** `f"{n:0wx}"` for a number below 16^w. */
  function Hex(w: nat, n: nat): string {
    if w == 0 then [] else Hex(w - 1, n / 16) + [DigitChar(n % 16)]
  }

  /** `int(s)` for a string of digits. */
  function ReadDec(s: string): nat {
    if s == [] then 0 else 10 * ReadDec(s[..|s| - 1]) + DigitValue(s[|s| - 1])
  }

  lemma ReadDecSnoc(s: string, d: nat)
    requires d < 10
    ensures ReadDec(s + [DigitChar(d)]) == 10 * ReadDec(s) + d
  {
    assert (s + [DigitChar(d)])[..|s|] == s;
  }

  lemma {:induction false} ReadDecDec(n: nat)
    ensures ReadDec(Dec(n)) == n
  {
    if n < 10 {
      ReadDecSnoc([], n);
      assert [] + [DigitChar(n)] == Dec(n);
    } else {
      ReadDecDec(n / 10);
      ReadDecSnoc(Dec(n / 10), n % 10);
    }
  }
}
