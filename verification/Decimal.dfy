/** Decimal numerals, as array indexes and revision names write them. */
module Decimal {

  predicate AllDigits(s: string) {
    forall i :: 0 <= i < |s| ==> '0' <= s[i] <= '9'
  }

  function Digit(d: nat): char
    requires d < 10
  {
    '0' + d as char
  }

  /** The value of a digit string; leading zeros do not change it. */
  function ToNat(s: string): nat
    requires AllDigits(s)
  {
    if s == "" then 0 else ToNat(s[..|s| - 1]) * 10 + (s[|s| - 1] - '0') as nat
  }

  function Numeral(n: nat): string {
    if n < 10 then [Digit(n)] else Numeral(n / 10) + [Digit(n % 10)]
  }

  /** `padStart(width, "0")`. */
  function PadStart(s: string, width: nat): string
    decreases width - |s|
  {
    if |s| >= width then s else PadStart("0" + s, width)
  }

  lemma {:induction false} ToNatNumeral(n: nat)
    ensures AllDigits(Numeral(n)) && ToNat(Numeral(n)) == n
  {
    if n < 10 {
      assert Numeral(n)[..0] == "";
    } else {
      ToNatNumeral(n / 10);
      assert Numeral(n)[..|Numeral(n)| - 1] == Numeral(n / 10);
    }
  }

  lemma {:induction false} LeadingZero(s: string)
    requires AllDigits(s)
    ensures AllDigits("0" + s) && ToNat("0" + s) == ToNat(s)
  {
    if s == "" {
      assert ("0" + s)[..0] == "";
    } else {
      LeadingZero(s[..|s| - 1]);
      assert ("0" + s)[..|s|] == "0" + s[..|s| - 1];
    }
  }

  lemma {:induction false} PaddingKeepsValue(s: string, width: nat)
    requires AllDigits(s)
    ensures AllDigits(PadStart(s, width)) && ToNat(PadStart(s, width)) == ToNat(s)
    decreases width - |s|
  {
    if |s| < width {
      LeadingZero(s);
      PaddingKeepsValue("0" + s, width);
    }
  }

  lemma {:induction false} NonZeroFirstDigit(s: string)
    requires AllDigits(s) && s != "" && s[0] != '0'
    ensures ToNat(s) > 0
  {
    if |s| > 1 {
      NonZeroFirstDigit(s[..|s| - 1]);
    }
  }

  lemma LastDigitApart(n: nat, front: nat, last: nat)
    requires last < 10 && n == front * 10 + last
    ensures n / 10 == front && n % 10 == last
  {
  }

  lemma DigitOf(c: char)
    requires '0' <= c <= '9'
    ensures (c - '0') as nat < 10 && Digit((c - '0') as nat) == c
  {
  }

  lemma SplitNumber(s: string)
    requires AllDigits(s) && s != ""
    ensures ToNat(s[..|s| - 1]) == ToNat(s) / 10 && s == s[..|s| - 1] + [Digit(ToNat(s) % 10)]
  {
    var front, c := s[..|s| - 1], s[|s| - 1];
    assert s == front + [c];
    DigitOf(c);
    LastDigitApart(ToNat(s), ToNat(front), (c - '0') as nat);
  }

  lemma {:induction false} SameNumberSameDigits(a: string, b: string)
    requires AllDigits(a) && AllDigits(b) && ToNat(a) == ToNat(b)
    requires (a != "" ==> a[0] != '0') && (b != "" ==> b[0] != '0')
    ensures a == b
  {
    if a == "" && b != "" {
      NonZeroFirstDigit(b);
    } else if a != "" && b == "" {
      NonZeroFirstDigit(a);
    } else if a != "" {
      SplitNumber(a);
      SplitNumber(b);
      SameNumberSameDigits(a[..|a| - 1], b[..|b| - 1]);
    }
  }

  /** Numerals without superfluous leading zeros are determined by their value. */
  lemma CanonicalNumeralsDiffer(a: string, b: string)
    requires AllDigits(a) && AllDigits(b) && a != "" && b != ""
    requires (|a| > 1 ==> a[0] != '0') && (|b| > 1 ==> b[0] != '0')
    requires ToNat(a) == ToNat(b)
    ensures a == b
  {
    SameNumberSameDigits(if a[0] == '0' then "" else a, if b[0] == '0' then "" else b);
  }

  lemma {:induction false} NumeralIsCanonical(n: nat)
    ensures Numeral(n) != "" && (n > 0 ==> Numeral(n)[0] != '0')
  {
    if n >= 10 {
      NumeralIsCanonical(n / 10);
    }
  }

  lemma {:induction false} LargerNumeral(m: nat, n: nat)
    requires m <= n
    ensures |Numeral(m)| <= |Numeral(n)|
    decreases n - m
  {
    if m < n {
      NextNumeral(m);
      LargerNumeral(m + 1, n);
    }
  }

  /** Counting on adds at most one digit. */
  lemma {:induction false} NextNumeral(n: nat)
    ensures |Numeral(n)| <= |Numeral(n + 1)| <= |Numeral(n)| + 1
  {
    if n + 1 >= 10 {
      if (n + 1) / 10 == n / 10 {
      } else {
        assert (n + 1) / 10 == n / 10 + 1;
        if n >= 10 {
          NextNumeral(n / 10);
        }
      }
    }
  }
}
