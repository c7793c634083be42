/** Decimal notation of whole numbers, and rounding of reals half to even. */
module Decimal {
  import opened Prelude

  const DIGITS: string := "0123456789"

  function Digits(n: nat): (s: string)
    ensures |s| > 0
    ensures forall c | c in s :: '0' <= c <= '9'
  {
    if n < 10 then [DIGITS[n]] else Digits(n / 10) + [DIGITS[n % 10]]
  }

  /** Python's `format(n, "0<width>d")`: padded on the left, never truncated. */
  function Padded(n: nat, width: nat): (s: string)
    ensures forall c | c in s :: '0' <= c <= '9'
    ensures |s| >= width && |s| > 0
  {
    Zeros(if |Digits(n)| < width then width - |Digits(n)| else 0) + Digits(n)
  }

  function Zeros(k: nat): (s: string)
    ensures |s| == k && forall c | c in s :: c == '0'
  {
    seq(k, _ => '0')
  }

  /** Value of a run of digits; None when empty or when any character is no digit. */
  function Value(s: string): Option<nat> {
    if s == "" then None
    else
      var d := s[|s| - 1];
      if !('0' <= d <= '9') then None
      else if |s| == 1 then Some(d as int - '0' as int)
      else match Value(s[..|s| - 1])
        case None => None
        case Some(v) => Some(10 * v + (d as int - '0' as int))
  }

  lemma {:induction false} ValueOfDigits(n: nat)
    ensures Value(Digits(n)) == Some(n)
  {
    assert DIGITS[n % 10] as int == '0' as int + n % 10;
    if n < 10 {
    } else {
      ValueOfDigits(n / 10);
      assert Digits(n)[..|Digits(n)| - 1] == Digits(n / 10);
    }
  }

  lemma {:induction false} ValueOfZeros(k: nat, s: string)
    requires Value(s).Some?
    ensures Value(Zeros(k) + s) == Value(s)
  {
    var all := Zeros(k) + s;
    if |s| == 1 {
      if k > 0 {
        assert all[..|all| - 1] == Zeros(k);
        ZeroRun(k);
      } else {
        assert all == s;
      }
    } else {
      ValueOfZeros(k, s[..|s| - 1]);
      assert all[..|all| - 1] == Zeros(k) + s[..|s| - 1];
    }
  }

  lemma {:induction false} ZeroRun(k: nat)
    requires k > 0
    ensures Value(Zeros(k)) == Some(0)
  {
    if k <= 1 {
    } else {
      ZeroRun(k - 1);
      assert Zeros(k)[..k - 1] == Zeros(k - 1);
    }
  }

  /** Padding does not change the number read back. */
  lemma ValueOfPadded(n: nat, width: nat)
    ensures Value(Padded(n, width)) == Some(n)
  {
    ValueOfDigits(n);
    ValueOfZeros(if |Digits(n)| < width then width - |Digits(n)| else 0, Digits(n));
  }

  /** Digits of a number below ten to the power of the width fill it exactly. */
  lemma PaddedWidth(n: nat)
    ensures n < 100 ==> |Padded(n, 2)| == 2
    ensures n < 1000 ==> |Padded(n, 3)| == 3
  {
    if n < 10 {
      assert |Digits(n)| == 1;
    } else if n < 100 {
      assert |Digits(n / 10)| == 1;
    } else if n < 1000 {
      assert |Digits(n / 100)| == 1;
      assert n / 10 / 10 == n / 100;
      assert |Digits(n / 10)| == 2;
    }
  }

  function IsEven(n: int): bool { n % 2 == 0 }

  /** Python's `round(x)`: to the nearest whole number, ties to the even one. */
  function RoundHalfEven(x: real): int {
    var below := x.Floor;
    var over := x - below as real;
    if over < 0.5 then below
    else if over > 0.5 then below + 1
    else if IsEven(below) then below
    else below + 1
  }

  lemma RoundIsNearest(x: real)
    ensures RoundHalfEven(x) as real - 0.5 <= x <= RoundHalfEven(x) as real + 0.5
    ensures x == RoundHalfEven(x) as real + 0.5 || x == RoundHalfEven(x) as real - 0.5 ==> RoundHalfEven(x) % 2 == 0
  {
  }

  lemma RoundMonotone(x: real, y: real)
    requires x <= y
    ensures RoundHalfEven(x) <= RoundHalfEven(y)
  {
    if x.Floor < y.Floor {
      RoundIsNearest(x);
      RoundIsNearest(y);
      assert RoundHalfEven(x) <= x.Floor + 1;
    }
  }
}
