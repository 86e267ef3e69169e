/** Positional numerals without leading zeros, as the output streams print them. */
module Numeral {
  datatype Base = DEC | HEX

  const DIGITS := "0123456789abcdef"

  function DigitValue(c: char): (v: nat)
    ensures v <= 16
  {
    if '0' <= c <= '9' then (c - '0') as nat
    else if 'a' <= c <= 'f' then (c - 'a') as nat + 10
    else if 'A' <= c <= 'F' then (c - 'A') as nat + 10
    else 16
  }

  lemma {:induction false} DigitHasValue(v: nat)
    requires v < 16
    ensures DigitValue(DIGITS[v]) == v && DIGITS[v] != ':' && DIGITS[v] != ']'
  {
  }

  function Radix(base: Base): nat {
    if base.DEC? then 10 else 16
  }

  function Quotient(n: nat, base: Base): nat {
    if base.DEC? then n / 10 else n / 16
  }

  function Remainder(n: nat, base: Base): (d: nat)
    ensures d < Radix(base)
  {
    if base.DEC? then n % 10 else n % 16
  }

  function Times(n: nat, base: Base): nat {
    if base.DEC? then 10 * n else 16 * n
  }

  function Print(n: nat, base: Base): (s: string)
    ensures s != ""
  {
    if n < Radix(base) then [DIGITS[n]] else Print(Quotient(n, base), base) + [DIGITS[Remainder(n, base)]]
  }

  predicate IsNumeral(s: string, base: Base) {
    s != "" && forall i :: 0 <= i < |s| ==> DigitValue(s[i]) < Radix(base)
  }

  function Value(s: string, base: Base): nat {
    if s == "" then 0 else Times(Value(s[..|s| - 1], base), base) + DigitValue(s[|s| - 1])
  }

  lemma {:induction false} ValueSnoc(s: string, c: char, base: Base)
    ensures Value(s + [c], base) == Times(Value(s, base), base) + DigitValue(c)
  {
    assert (s + [c])[..|s|] == s;
  }

  lemma {:induction false} PrintIsRead(n: nat, base: Base)
    ensures IsNumeral(Print(n, base), base) && Value(Print(n, base), base) == n
  {
    hide DigitValue;
    var d := Remainder(n, base);
    DigitHasValue(d);
    if n < Radix(base) {
      DigitHasValue(n);
      ValueSnoc("", DIGITS[n], base);
      assert "" + [DIGITS[n]] == Print(n, base);
    } else {
      PrintIsRead(Quotient(n, base), base);
      ValueSnoc(Print(Quotient(n, base), base), DIGITS[d], base);
      assert Times(Quotient(n, base), base) + d == n;
    }
  }

  function Power(base: Base, k: nat): nat {
    if k == 0 then 1 else Times(Power(base, k - 1), base)
  }

  /** A number below a power of the base has at most as many digits. */
  lemma {:induction false} PrintLength(n: nat, base: Base, k: nat)
    requires n < Power(base, k) && k > 0
    ensures |Print(n, base)| <= k
  {
    if n >= Radix(base) {
      assert Quotient(n, base) < Power(base, k - 1);
      PrintLength(Quotient(n, base), base, k - 1);
    }
  }
}
