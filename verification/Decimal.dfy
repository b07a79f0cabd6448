/** Decimal text of integers: what Go's strconv.Itoa prints and strconv.ParseInt(s, 10, width) reads back. */
module Decimal {
  import opened Wrappers

  predicate IsDigit(c: char) { '0' <= c <= '9' }

  function DigitOf(d: nat): char
    requires d < 10
  {
    '0' + d as char
  }

  function DigitValue(c: char): nat
    requires IsDigit(c)
  {
    c as int - '0' as int
  }

  predicate AllDigits(s: string) { forall c | c in s :: IsDigit(c) }

  function Digits(n: nat): string {
    if n < 10 then [DigitOf(n)] else Digits(n / 10) + [DigitOf(n % 10)]
  }

  function Itoa(n: int): string {
    if n < 0 then ['-'] + Digits(-n) else Digits(n)
  }

  function Value(s: string): nat
    requires AllDigits(s)
  {
    if s == [] then 0 else 10 * Value(s[..|s| - 1]) + DigitValue(s[|s| - 1])
  }

  /** strconv.ParseInt in base 10: an optional sign, at least one digit, and a value within lo..hi. */
  function ParseInt(s: string, lo: int, hi: int): Option<int> {
    var negative := s != [] && s[0] == '-';
    var digits := if s != [] && (s[0] == '-' || s[0] == '+') then s[1..] else s;
    if digits == [] || !AllDigits(digits) then None
    else
      var magnitude: int := Value(digits);
      var n := if negative then -magnitude else magnitude;
      if lo <= n <= hi then Some(n) else None
  }

  /** Printing loses nothing, and prints no leading zero except for zero itself. */
  lemma {:induction false} DigitsValue(n: nat)
    ensures Digits(n) != [] && AllDigits(Digits(n)) && Value(Digits(n)) == n
    ensures Digits(n)[0] == '0' ==> n == 0 && Digits(n) == "0"
  {
    if n < 10 {
      assert Digits(n)[..0] == [];
    } else {
      DigitsValue(n / 10);
      assert Digits(n)[..|Digits(n)| - 1] == Digits(n / 10);
    }
  }

  /** Decimal notation: the last digit stands at the end, after the text of the rest; a minus stands in front. */
  lemma {:induction false} PrintsPositionally(n: nat, d: nat)
    requires d < 10
    ensures Itoa(10 * n + d) == (if n == 0 then "" else Itoa(n)) + ["0123456789"[d]]
    ensures n > 0 ==> Itoa(0 - n) == "-" + Itoa(n)
  {
    assert (10 * n + d) / 10 == n && (10 * n + d) % 10 == d;
    assert "0123456789"[d] == DigitOf(d);
  }

  lemma {:induction false} ParseItoa(n: int, lo: int, hi: int)
    ensures ParseInt(Itoa(n), lo, hi) == if lo <= n <= hi then Some(n) else None
  {
    DigitsValue(if n < 0 then -n else n);
    if n >= 0 {
      assert IsDigit(Digits(n)[0]);
    } else {
      assert Itoa(n)[1..] == Digits(-n);
    }
  }

  lemma {:induction false} ItoaInjective(a: int, b: int)
    requires Itoa(a) == Itoa(b)
    ensures a == b
  {
    var lo, hi := if a < b then a else b, if a < b then b else a;
    ParseItoa(a, lo, hi);
    ParseItoa(b, lo, hi);
  }
}
