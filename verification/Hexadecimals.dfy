/** Numbers as they are written in base 16, in terms of the two digit texts. */
module Hexadecimals {
  import opened Basics

  const LOWER_DIGITS := "0123456789abcdef"
  const UPPER_DIGITS := "0123456789ABCDEF"

  /** The character is a digit with the value `d`, of either case. */
  predicate IsDigitOf(c: char, d: nat) {
    d < 16 && (c == LOWER_DIGITS[d] || c == UPPER_DIGITS[d])
  }

  /** The text writes the number: its last digit is the remainder, and the digits before it write the quotient.
      Leading zeros are digits as well. */
  predicate Writes(s: string, n: nat) {
    s != "" && IsDigitOf(s[|s| - 1], n % 16) && (if |s| == 1 then n < 16 else Writes(s[..|s| - 1], n / 16))
  }

  lemma DigitCodes(d: nat)
    requires d < 16
    ensures LOWER_DIGITS[d] as int == if d < 10 then d + '0' as int else d - 10 + 'a' as int
    ensures UPPER_DIGITS[d] as int == if d < 10 then d + '0' as int else d - 10 + 'A' as int
  {
  }

  /** Every hexadecimal character is a digit. */
  lemma HexIsDigit(c: char) returns (d: nat)
    requires IsHex(c)
    ensures IsDigitOf(c, d)
  {
    d := if c <= '9' then c as int - '0' as int
         else if c <= 'F' then c as int - 'A' as int + 10
         else c as int - 'a' as int + 10;
    DigitCodes(d);
  }

  /** Every text of hexadecimal characters writes a number, and only such texts do. */
  lemma {:induction false} HexTextWrites(s: string) returns (n: nat)
    requires s != "" && forall i :: 0 <= i < |s| ==> IsHex(s[i])
    ensures Writes(s, n)
  {
    n := HexIsDigit(s[|s| - 1]);
    assert n % 16 == n;
    if |s| > 1 {
      var q := HexTextWrites(s[..|s| - 1]);
      n := q * 16 + n;
      assert n / 16 == q;
    }
  }
}
