/** Natural numbers as decimal text, and their powers. */
module Decimals {
  import opened Wrappers

  function Power(base: nat, n: nat): nat {
    if n == 0 then 1 else base * Power(base, n - 1)
  }

  lemma {:induction false} PowerOfSum(base: nat, m: nat, n: nat)
    ensures Power(base, m + n) == Power(base, m) * Power(base, n)
  {
    if m > 0 {
      PowerOfSum(base, m - 1, n);
      TimesAcross(base, Power(base, m - 1), Power(base, n));
    }
  }

  lemma TimesAcross(a: nat, b: nat, c: nat)
    ensures a * (b * c) == a * b * c
  {
  }

  lemma PowersOfTwo()
    ensures Power(2, 7) == 0x80 && Power(2, 8) == 0x100
    ensures Power(2, 15) == 0x8000 && Power(2, 16) == 0x1_0000
    ensures Power(2, 31) == 0x8000_0000 && Power(2, 32) == 0x1_0000_0000
    ensures Power(2, 63) == 0x8000_0000_0000_0000 && Power(2, 64) == 0x1_0000_0000_0000_0000
  {
    assert Power(2, 4) == 16 by { assert Power(2, 2) == 4; }
    assert Power(2, 7) == 0x80 by { assert Power(2, 5) == 32; }
    assert Power(2, 8) == 0x100;
    PowerOfSum(2, 7, 8);
    PowerOfSum(2, 8, 8);
    PowerOfSum(2, 15, 16);
    PowerOfSum(2, 16, 16);
    PowerOfSum(2, 31, 32);
    PowerOfSum(2, 32, 32);
  }

  predicate AreDigits(text: string) {
    forall i :: 0 <= i < |text| ==> '0' <= text[i] <= '9'
  }

  function Digit(d: nat): char
    requires d < 10
  {
    ('0' as int + d) as char
  }

  function NatText(n: nat): string {
    if n < 10 then [Digit(n)] else NatText(n / 10) + [Digit(n % 10)]
  }

  function NatOf(text: string): Option<nat> {
    if text == [] then None
    else
      var last := text[|text| - 1];
      if !('0' <= last <= '9') then None
      else
        var digit: nat := last as int - '0' as int;
        if |text| == 1 then Some(digit)
        else
          var before := NatOf(text[..|text| - 1]);
          if before.None? then None else Some(before.value * 10 + digit)
  }

  lemma {:induction false} NatReadsBack(n: nat)
    ensures NatOf(NatText(n)) == Some(n)
    ensures NatText(n) != [] && AreDigits(NatText(n))
  {
    if n >= 10 {
      NatReadsBack(n / 10);
      assert NatText(n)[..|NatText(n)| - 1] == NatText(n / 10);
    }
  }
}
