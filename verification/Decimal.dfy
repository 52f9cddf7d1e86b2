/** Decimal numerals as the log prints and the parser reads them, and the
    64-bit range outside which reading fails. */
module Decimal {
  import opened Basics
  import opened Tokens

  const INT64_MAX := 0x7FFF_FFFF_FFFF_FFFF
  const INT64_MIN := -0x8000_0000_0000_0000

  predicate IsDigit(c: char) { '0' <= c <= '9' }

  function DigitChar(d: nat): (c: char)
    requires d < 10
    ensures IsDigit(c) && DigitValue(c) == d
  {
    ('0' as int + d) as char
  }

  function DigitValue(c: char): nat
    requires IsDigit(c)
  {
    c as int - '0' as int
  }

  function Digits(n: nat): (s: string)
    ensures s != "" && forall c :: c in s ==> IsDigit(c)
  {
    if n < 10 then [DigitChar(n)] else Digits(n / 10) + [DigitChar(n % 10)]
  }

  function ToText(n: int): string {
    if n < 0 then "-" + Digits(-n) else Digits(n)
  }

  /** The value of the leading digits of `s`, after `acc`. */
  function Accumulate(s: string, acc: nat): nat {
    if s == "" || !IsDigit(s[0]) then acc else Accumulate(s[1..], 10 * acc + DigitValue(s[0]))
  }

  /** Leading whitespace, one sign, then digits; anything after them is ignored. No digits, or
      a value outside 64 bits, is an error. */
  function Stoll(s: string): Option<int> {
    var t := TrimFront(s);
    var signed := t != "" && (t[0] == '-' || t[0] == '+');
    var body := if signed then t[1..] else t;
    if body == "" || !IsDigit(body[0]) then None
    else
      var v: int := Accumulate(body, 0);
      var n := if t[0] == '-' then -v else v;
      if INT64_MIN <= n <= INT64_MAX then Some(n) else None
  }

  lemma {:induction false} AccumulateAppend(s: string, t: string, acc: nat)
    requires forall c :: c in s ==> IsDigit(c)
    ensures Accumulate(s + t, acc) == Accumulate(t, Accumulate(s, acc))
  {
    if s == "" {
      assert s + t == t;
    } else {
      assert (s + t)[1..] == s[1..] + t;
      AccumulateAppend(s[1..], t, 10 * acc + DigitValue(s[0]));
    }
  }

  lemma {:induction false} AccumulateDigits(n: nat)
    ensures Accumulate(Digits(n), 0) == n
  {
    if n >= 10 {
      AccumulateDigits(n / 10);
      AccumulateAppend(Digits(n / 10), [DigitChar(n % 10)], 0);
    }
  }

  /** Reading back a printed number gives it exactly when it fits 64 bits. */
  lemma StollUndoesToText(n: int)
    ensures Stoll(ToText(n)) == if INT64_MIN <= n <= INT64_MAX then Some(n) else None
  {
    AccumulateDigits(if n < 0 then -n else n);
    if n < 0 {
      assert ToText(n)[1..] == Digits(-n);
    }
  }

  lemma ToTextPlain(n: int)
    ensures Loggable(ToText(n)) && Quote(ToText(n)) == ToText(n)
  {
    var s := ToText(n);
    forall i | 0 <= i < |s|
      ensures !IsSpecial(s[i]) && !IsSpace(s[i])
    {
      assert s[i] in s;
    }
  }
}
