/** Decimal numerals as the program prints, pads and reads them. */
module Decimals {
  function Digit(d: nat): char
    requires d < 10
  {
    '0' + d as char
  }

  predicate IsDigit(c: char) {
    '0' <= c <= '9'
  }

  predicate AllDigits(s: string) {
    forall i :: 0 <= i < |s| ==> IsDigit(s[i])
  }

  /** `n.toString()` */
  function Decimal(n: nat): (s: string)
    ensures |s| >= 1 && AllDigits(s)
    ensures n >= 10 ==> |s| >= 2
    ensures n >= 1 ==> s[0] != '0'
  {
    if n < 10 then [Digit(n)] else Decimal(n / 10) + [Digit(n % 10)]
  }

  /** `s.padStart(width, '0')` */
  function PadStart(s: string, width: nat): (r: string)
    requires AllDigits(s)
    ensures AllDigits(r) && |r| == if |s| < width then width else |s|
    decreases width - |s|
  {
    if |s| >= width then s else PadStart("0" + s, width)
  }

  /** The number a string of digits denotes. */
  function ValueOf(s: string): nat
    requires AllDigits(s)
  {
    if s == "" then 0 else 10 * ValueOf(s[..|s| - 1]) + (s[|s| - 1] - '0') as int
  }

  lemma {:induction false} DecimalDenotes(n: nat)
    ensures ValueOf(Decimal(n)) == n
  {
    if n >= 10 {
      DecimalDenotes(n / 10);
      assert Decimal(n)[..|Decimal(n)| - 1] == Decimal(n / 10);
    }
  }

  lemma {:induction false} LeadingZero(s: string)
    requires AllDigits(s)
    ensures ValueOf("0" + s) == ValueOf(s)
  {
    if s == "" {
      assert ("0" + s)[..0] == "";
    } else {
      assert ("0" + s)[..|s|] == "0" + s[..|s| - 1];
      LeadingZero(s[..|s| - 1]);
    }
  }

  lemma {:induction false} PaddingDenotes(s: string, width: nat)
    requires AllDigits(s)
    ensures ValueOf(PadStart(s, width)) == ValueOf(s)
    decreases width - |s|
  {
    if |s| < width {
      PaddingDenotes("0" + s, width);
      LeadingZero(s);
    }
  }

  /** Padded numerals of different numbers differ, at any width. */
  lemma PaddedNumeralsDiffer(m: nat, n: nat, width: nat)
    requires PadStart(Decimal(m), width) == PadStart(Decimal(n), width)
    ensures m == n
  {
    DecimalDenotes(m);
    DecimalDenotes(n);
    PaddingDenotes(Decimal(m), width);
    PaddingDenotes(Decimal(n), width);
  }

  /** A numeral without leading zeros is the one its value prints as. */
  lemma {:induction false} NumeralIsItsValue(s: string)
    requires s != "" && AllDigits(s) && (s[0] != '0' || |s| == 1)
    ensures Decimal(ValueOf(s)) == s
  {
    if |s| == 1 {
      assert s[..0] == "";
    } else {
      NumeralIsItsValue(s[..|s| - 1]);
      if |s| == 2 {
        assert s[..1][..0] == "";
      }
      PositiveValue(s[..|s| - 1]);
      assert ValueOf(s) / 10 == ValueOf(s[..|s| - 1]);
      assert s == s[..|s| - 1] + [s[|s| - 1]];
    }
  }

  lemma {:induction false} PositiveValue(s: string)
    requires s != "" && AllDigits(s) && s[0] != '0'
    ensures ValueOf(s) >= 1
  {
    if |s| == 1 {
      assert s[..0] == "";
    } else {
      PositiveValue(s[..|s| - 1]);
    }
  }
}
