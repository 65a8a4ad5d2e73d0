/** Decimal text of integers: `"" + n` for a non-negative `int`, and `Integer.parseInt`. */
module Decimal {
  import opened Wrappers
  import Int32

  predicate IsDigit(c: char) {
    '0' <= c <= '9'
  }

  predicate AllDigits(s: string) {
    forall i :: 0 <= i < |s| ==> IsDigit(s[i])
  }

  function DigitChar(d: nat): (c: char)
    requires d < 10
    ensures IsDigit(c) && c as int - '0' as int == d
  {
    ('0' as int + d) as char
  }

  /** The decimal text Java produces for a non-negative number: no sign, no leading zeros. */
  function NatToString(n: nat): (s: string)
    ensures |s| >= 1 && AllDigits(s)
    ensures s[0] == '0' ==> s == "0"
  {
    if n < 10 then [DigitChar(n)] else NatToString(n / 10) + [DigitChar(n % 10)]
  }

  /** The number a string of digits denotes. */
  function DigitsValue(s: string): nat
    requires AllDigits(s)
  {
    if s == [] then 0 else DigitsValue(s[..|s| - 1]) * 10 + (s[|s| - 1] as int - '0' as int)
  }

  /** `Integer.parseInt(s)`: an optional sign and at least one digit, whose value fits in an `int`;
      `None` stands for the NumberFormatException thrown otherwise. */
  function ParseInt(s: string): (r: Option<int>)
    ensures r.Some? ==> Int32.InRange(r.value)
    ensures s == [] ==> r == None
  {
    if s == [] then None
    else
      var digits := Unsigned(s);
      if digits == [] || !AllDigits(digits) then None
      else
        var v: int := if s[0] == '-' then 0 - DigitsValue(digits) as int else DigitsValue(digits);
        if Int32.InRange(v) then Some(v) else None
  }

  /** The text after a leading `+` or `-`, if there is one. */
  function Unsigned(s: string): (d: string)
    ensures |d| <= |s| && d == s[|s| - |d|..]
  {
    if s != [] && (s[0] == '-' || s[0] == '+') then s[1..] else s
  }

  /** What `Integer.parseInt` accepts and what it yields: a number is parsed exactly when the text
      is an optional sign followed by at least one digit and the signed value fits in an `int`, and
      the result is then that signed value. */
  lemma ParseIntValue(s: string)
    ensures ParseInt(s).Some? <==>
      s != [] && Unsigned(s) != [] && AllDigits(Unsigned(s))
      && Int32.InRange(if s[0] == '-' then 0 - DigitsValue(Unsigned(s)) as int else DigitsValue(Unsigned(s)))
    ensures ParseInt(s).Some? ==>
      ParseInt(s).value == if s[0] == '-' then 0 - DigitsValue(Unsigned(s)) as int else DigitsValue(Unsigned(s))
  {
  }

  /** The three forms a number can take: bare digits and `+digits` up to 2^31 - 1, and `-digits`
      down to -2^31; a sign alone is rejected. */
  lemma {:induction false} ParseSignForms(d: string)
    requires d != [] && AllDigits(d)
    ensures ParseInt(d) == if DigitsValue(d) <= Int32.Max then Some(DigitsValue(d)) else None
    ensures ParseInt("+" + d) == ParseInt(d)
    ensures ParseInt("-" + d) == if DigitsValue(d) <= -Int32.Min then Some(0 - DigitsValue(d) as int) else None
    ensures ParseInt("+") == None && ParseInt("-") == None
  {
    assert Unsigned("+" + d) == d;
    assert Unsigned("-" + d) == d;
  }

  lemma {:induction false} DigitsValueOfNat(n: nat)
    ensures DigitsValue(NatToString(n)) == n
  {
    if n >= 10 {
      var s := NatToString(n);
      assert s[..|s| - 1] == NatToString(n / 10);
      DigitsValueOfNat(n / 10);
    }
  }

  /** Parsing the text of a number that fits in an `int` gives the number back. */
  lemma ParseNatToString(n: nat)
    requires n <= Int32.Max
    ensures ParseInt(NatToString(n)) == Some(n)
  {
    DigitsValueOfNat(n);
  }
}
