/** Base-10 rendering of natural numbers, as Rust's `{}` formatting prints an
    unsigned integer, together with the parser that inverts it. */
module Decimal {
  import opened Wrappers

  predicate IsDigit(c: char) {
    '0' <= c <= '9'
  }

  predicate AllDigits(s: string) {
    forall i :: 0 <= i < |s| ==> IsDigit(s[i])
  }

  /** The digit strings `FromNat` can produce: non-empty, and with no
      leading zero unless the number is zero itself. */
  predicate Canonical(s: string) {
    |s| > 0 && AllDigits(s) && (s[0] == '0' ==> |s| == 1)
  }

  function DigitChar(d: nat): (c: char)
    requires d < 10
    ensures IsDigit(c)
  {
    (48 + d) as char
  }

  function DigitValue(c: char): (d: nat)
    requires IsDigit(c)
    ensures d < 10
    ensures DigitChar(d) == c
  {
    c as int - 48
  }

  /** The decimal text of `n`, most significant digit first. */
  function FromNat(n: nat): (s: string)
    ensures Canonical(s)
    ensures s[0] == '0' <==> n == 0
    decreases n
  {
    if n < 10 then [DigitChar(n)] else FromNat(n / 10) + [DigitChar(n % 10)]
  }

  /** The number a string of digits denotes, leading zeros allowed. */
  function ValueOf(s: string): nat
    requires AllDigits(s)
    decreases |s|
  {
    if |s| == 0 then 0 else ValueOf(s[..|s| - 1]) * 10 + DigitValue(s[|s| - 1])
  }

  /** Reads a decimal number written the way `FromNat` writes one. */
  function Parse(s: string): (r: Option<nat>)
    ensures r.Some? <==> Canonical(s)
  {
    if Canonical(s) then Some(ValueOf(s)) else None
  }

  lemma {:induction false} ValueOfFromNat(n: nat)
    ensures ValueOf(FromNat(n)) == n
    decreases n
  {
    if n >= 10 {
      var prefix := FromNat(n / 10);
      var s := FromNat(n);
      assert s == prefix + [DigitChar(n % 10)];
      assert s[..|s| - 1] == prefix;
      ValueOfFromNat(n / 10);
    }
  }

  /** Printing then parsing a number gives the number back. */
  lemma ParseFromNat(n: nat)
    ensures Parse(FromNat(n)) == Some(n)
  {
    ValueOfFromNat(n);
  }

  /** Parsing then printing a canonical digit string gives the string back:
      `FromNat` reaches every canonical string, and only those. */
  lemma {:induction false} FromNatValueOf(s: string)
    requires Canonical(s)
    ensures FromNat(ValueOf(s)) == s
    decreases |s|
  {
    if |s| > 1 {
      var prefix := s[..|s| - 1];
      var d := DigitValue(s[|s| - 1]);
      assert Canonical(prefix) by {
        assert forall i :: 0 <= i < |prefix| ==> prefix[i] == s[i];
      }
      FromNatValueOf(prefix);
      var v := ValueOf(prefix);
      // prefix is not "0", since s has no leading zero, so v >= 1.
      assert prefix[0] == s[0];
      assert v != 0;
      var n := ValueOf(s);
      assert n == v * 10 + d;
      assert n / 10 == v && n % 10 == d;
      assert FromNat(n) == prefix + [s[|s| - 1]];
      assert prefix + [s[|s| - 1]] == s;
    } else {
      assert s == [DigitChar(DigitValue(s[0]))];
    }
  }

  /** Two numbers print alike only when they are equal. */
  lemma FromNatInjective(m: nat, n: nat)
    requires FromNat(m) == FromNat(n)
    ensures m == n
  {
    ValueOfFromNat(m);
    ValueOfFromNat(n);
  }
}
