/** Integers as decimal text: printing them, and reading them as the standard library does. */
module Decimals {
  import opened Basics

  function Digit(n: nat): (c: char)
    requires n < 10
    ensures c == "0123456789"[n]
  {
    ('0' as int + n) as char
  }

  function Natural(n: nat): (s: string)
    ensures s != ""
  {
    if n < 10 then [Digit(n)] else Natural(n / 10) + [Digit(n % 10)]
  }

  function Decimal(n: int): string {
    if n < 0 then "-" + Natural(-n) else Natural(n)
  }

  /** The value of a decimal text. */
  function ValueOf(text: string): int {
    if text != "" && text[0] == '-' then -NaturalValue(text[1..]) else NaturalValue(text)
  }

  function NaturalValue(digits: string): int {
    if digits == "" then 0 else 10 * NaturalValue(digits[..|digits| - 1]) + (digits[|digits| - 1] as int - '0' as int)
  }

  /** Printing an integer and reading it back gives the integer. */
  lemma DecimalRoundTrip(n: int)
    ensures ValueOf(Decimal(n)) == n
  {
    hide Natural, NaturalValue;
    if n < 0 {
      NaturalRoundTrip(-n);
      assert Decimal(n)[1..] == Natural(-n);
    } else {
      NaturalRoundTrip(n);
      NaturalStarts(n);
    }
  }

  lemma {:induction false} NaturalRoundTrip(n: nat)
    ensures NaturalValue(Natural(n)) == n
  {
    if n < 10 {
      assert NaturalValue([Digit(n)][..0]) == 0;
    } else {
      NaturalRoundTrip(n / 10);
      var s := Natural(n);
      assert s[..|s| - 1] == Natural(n / 10);
    }
  }

  lemma {:induction false} NaturalStarts(n: nat)
    ensures '0' <= Natural(n)[0] <= '9'
  {
    if n >= 10 {
      NaturalStarts(n / 10);
    }
  }

  // ---------- reading ----------

  predicate IsSpace(c: char) {
    c == ' ' || 9 <= c as int <= 13
  }

  function SkipSpaces(s: string): string {
    if s != "" && IsSpace(s[0]) then SkipSpaces(s[1..]) else s
  }

  function LeadingDigits(s: string): (n: nat)
    ensures n <= |s|
  {
    if s != "" && IsDigit(s[0]) then 1 + LeadingDigits(s[1..]) else 0
  }

  /** The number at the beginning of a text: a sign may come first, anything may follow the digits. */
  function LeadingNumber(t: string): Option<int> {
    var signed := t != "" && (t[0] == '-' || t[0] == '+');
    var u := if signed then t[1..] else t;
    var n := LeadingDigits(u);
    if n == 0 then None
    else Some(if signed && t[0] == '-' then -NaturalValue(u[..n]) else NaturalValue(u[..n]))
  }

  lemma {:induction false} AllDigits(s: string)
    requires forall i :: 0 <= i < |s| ==> IsDigit(s[i])
    ensures LeadingDigits(s) == |s|
  {
    if s != "" {
      AllDigits(s[1..]);
    }
  }

  lemma {:induction false} NaturalDigits(n: nat)
    ensures forall i :: 0 <= i < |Natural(n)| ==> IsDigit(Natural(n)[i])
  {
    if n >= 10 {
      NaturalDigits(n / 10);
    }
  }

  /** Reading a printed number gives the number. */
  lemma LeadingDecimal(n: int)
    ensures LeadingNumber(Decimal(n)) == Some(n) && SkipSpaces(Decimal(n)) == Decimal(n)
  {
    var s := Decimal(n);
    var u := Natural(if n < 0 then -n else n);
    NaturalDigits(if n < 0 then -n else n);
    NaturalRoundTrip(if n < 0 then -n else n);
    AllDigits(u);
    assert IsDigit(u[0]) && u[..|u|] == u;
    hide Natural, NaturalValue;
    assert n < 0 ==> s == "-" + u && s[1..] == u;
  }

  // ---------- what is read ----------

  lemma {:induction false} DigitsLead(digits: string, rest: string)
    requires (forall i :: 0 <= i < |digits| ==> IsDigit(digits[i])) && (rest != "" ==> !IsDigit(rest[0]))
    ensures LeadingDigits(digits + rest) == |digits|
  {
    if digits == "" {
      assert digits + rest == rest;
    } else {
      assert (digits + rest)[1..] == digits[1..] + rest;
      DigitsLead(digits[1..], rest);
    }
  }

  lemma {:induction false} LeadAreDigits(s: string)
    ensures var n := LeadingDigits(s);
            (forall i :: 0 <= i < n ==> IsDigit(s[i])) && (n < |s| ==> !IsDigit(s[n]))
  {
    if s != "" && IsDigit(s[0]) {
      LeadAreDigits(s[1..]);
      var n := LeadingDigits(s[1..]);
      assert forall i :: 0 < i < n + 1 ==> s[i] == s[1..][i - 1];
      assert n < |s| - 1 ==> s[n + 1] == s[1..][n];
    }
  }

  lemma NumberLeads(sign: string, digits: string, rest: string)
    requires (sign == "" || sign == "+" || sign == "-") && digits != ""
    requires (forall i :: 0 <= i < |digits| ==> IsDigit(digits[i])) && (rest != "" ==> !IsDigit(rest[0]))
    ensures LeadingNumber(sign + (digits + rest))
         == Some(if sign == "-" then -NaturalValue(digits) else NaturalValue(digits))
  {
    hide NaturalValue, LeadingDigits, LeadingNumber;
    DigitsLead(digits, rest);
    var t, u := sign + (digits + rest), digits + rest;
    assert u[..|digits|] == digits && u[0] == digits[0];
    SignLeads(sign, u);
  }

  lemma SignLeads(sign: string, u: string)
    requires sign == "" || sign == "+" || sign == "-"
    requires u != "" && u[0] != '+' && u[0] != '-'
    ensures LeadingNumber(sign + u)
         == if LeadingDigits(u) == 0 then None
            else Some(if sign == "-" then -NaturalValue(u[..LeadingDigits(u)])
                      else NaturalValue(u[..LeadingDigits(u)]))
  {
    hide NaturalValue, LeadingDigits;
    var t := sign + u;
    if sign == "" {
      assert t == u;
    } else {
      assert t[0] == sign[0] && t[1..] == u;
    }
  }

  lemma NumberFound(t: string) returns (sign: string, digits: string, rest: string)
    requires LeadingNumber(t).Some?
    ensures t == sign + (digits + rest) && (sign == "" || sign == "+" || sign == "-") && digits != ""
    ensures (forall i :: 0 <= i < |digits| ==> IsDigit(digits[i])) && (rest != "" ==> !IsDigit(rest[0]))
  {
    var signed := t != "" && (t[0] == '-' || t[0] == '+');
    var u := if signed then t[1..] else t;
    var n := LeadingDigits(u);
    LeadAreDigits(u);
    hide LeadingDigits, NaturalValue;
    sign, digits, rest := if signed then [t[0]] else "", u[..n], u[n..];
    assert u == digits + rest;
    assert signed ==> t == [t[0]] + u;
  }
}
