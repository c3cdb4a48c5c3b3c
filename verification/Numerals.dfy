/** Numbers as `printf` writes them. */
module Numerals {
  import opened Basics
  import opened Bits

  function Power(base: nat, k: nat): nat {
    if k == 0 then 1 else base * Power(base, k - 1)
  }

  lemma {:induction false} PowerSum(base: nat, j: nat, k: nat)
    ensures Power(base, j + k) == Power(base, j) * Power(base, k)
  {
    if j > 0 {
      PowerSum(base, j - 1, k);
      MulAssoc(base, Power(base, j - 1), Power(base, k));
    }
  }

  function DigitChar(d: nat): (c: char)
    requires d < 16
    ensures c == "0123456789abcdef"[d]
  {
    if d < 10 then '0' + d as char else 'a' + (d - 10) as char
  }

  function DigitValue(c: char): nat {
    if '0' <= c <= '9' then (c - '0') as nat else if 'a' <= c <= 'f' then (c - 'a') as nat + 10 else 0
  }

  /** `n` in the given base, without leading zeros. */
  function Digits(n: nat, base: nat): (s: string)
    requires 2 <= base <= 16
    ensures |s| > 0
  {
    if n < base then [DigitChar(n)] else Digits(n / base, base) + [DigitChar(n % base)]
  }

  /** The number that a string of digits denotes. */
  function Denoted(s: string, base: nat): nat {
    if s == "" then 0 else base * Denoted(s[..|s| - 1], base) + DigitValue(s[|s| - 1])
  }

  lemma DigitReadsBack(d: nat)
    requires d < 16
    ensures DigitValue(DigitChar(d)) == d
    ensures '0' <= DigitChar(d) <= '9' || 'a' <= DigitChar(d) <= 'f'
  {
  }

  lemma DenotedSnoc(s: string, c: char, base: nat)
    ensures Denoted(s + [c], base) == base * Denoted(s, base) + DigitValue(c)
  {
    assert (s + [c])[..|s|] == s;
  }

  /** Numerals can be read back. */
  lemma {:induction false} DigitsDenote(n: nat, base: nat)
    requires 2 <= base <= 16
    ensures Denoted(Digits(n, base), base) == n
  {
    var q, r := DigitsStep(n, base);
    hide Denoted, DigitChar, DigitValue, Digits;
    if n < base {
      DigitReadsBack(n);
      assert "" + [DigitChar(n)] == [DigitChar(n)];
      DenotedSnoc("", DigitChar(n), base);
      DenotedNothing(base);
    } else {
      DigitsDenote(q, base);
      DigitReadsBack(r);
      DenotedSnoc(Digits(q, base), DigitChar(r), base);
    }
  }

  lemma DenotedNothing(base: nat)
    ensures base * Denoted("", base) == 0
  {
  }

  lemma {:induction false} DigitsLength(n: nat, base: nat, k: nat)
    requires 2 <= base <= 16 && k > 0 && n < Power(base, k)
    ensures |Digits(n, base)| <= k
    decreases k
  {
    var q, r := DigitsStep(n, base);
    PowerStep(base, k);
    hide Power, Digits;
    if n >= base {
      QuotientBound(base, q, r, Power(base, k - 1));
      DigitsLength(q, base, k - 1);
    }
  }

  /** Quotient and remainder by a base. */
  lemma Parts(n: nat, base: nat) returns (q: nat, r: nat)
    requires 2 <= base
    ensures q == n / base && r == n % base && n == base * q + r && r < base
    ensures n >= base ==> q < n
  {
    QuotientIsNatural(n, base);
    q, r := n / base, n % base;
    MulAscends(q, 2, base);
  }

  lemma DigitsStep(n: nat, base: nat) returns (q: nat, r: nat)
    requires 2 <= base <= 16
    ensures n == base * q + r && q == n / base && r < base
    ensures n < base ==> Digits(n, base) == [DigitChar(n)]
    ensures n >= base ==> q < n && Digits(n, base) == Digits(q, base) + [DigitChar(r)]
  {
    hide DigitChar;
    q, r := Parts(n, base);
  }

  lemma PowerStep(base: nat, k: nat)
    requires k > 0
    ensures Power(base, k) == base * Power(base, k - 1)
    ensures k == 1 ==> Power(base, k) == base
  {
  }

  lemma QuotientBound(base: nat, q: nat, r: nat, p: nat)
    requires base * q + r < base * p
    ensures q < p
  {
    if q >= p {
      MulAscends(base, p, q);
    }
  }

  lemma {:induction false} DigitsAreDigits(n: nat, base: nat)
    requires 2 <= base <= 16
    ensures forall i :: 0 <= i < |Digits(n, base)| ==>
              '0' <= Digits(n, base)[i] <= '9' || 'a' <= Digits(n, base)[i] <= 'f'
  {
    var q, r := DigitsStep(n, base);
    hide DigitChar, Digits;
    if n < base {
      DigitReadsBack(n);
    } else {
      DigitsAreDigits(q, base);
      DigitReadsBack(r);
    }
  }

  /** `%u` and `%llu`. */
  function Unsigned(n: nat): string {
    Digits(n, 10)
  }

  /** `%lld`. */
  function Signed(x: int): string {
    if x < 0 then "-" + Digits(-x, 10) else Digits(x, 10)
  }

  /** `%#llx`. */
  function SharpHex(n: nat): string {
    if n == 0 then "0" else "0x" + Digits(n, 16)
  }

  /** `%#llo`. */
  function SharpOctal(n: nat): string {
    if n == 0 then "0" else "0" + Digits(n, 8)
  }

  lemma PowersOfTen()
    ensures Power(10, 3) == 1000 && Power(10, 5) == 1_00000 && Power(10, 10) == 1_00000_00000
    ensures Power(10, 20) == 1_00000_00000_00000_00000
  {
    assert Power(10, 1) == 10;
    assert Power(10, 2) == 100;
    PowerSum(10, 2, 1);
    hide Power;
    PowerSum(10, 3, 2);
    PowerSum(10, 5, 5);
    PowerSum(10, 10, 10);
  }

  lemma PowersOfSixteen()
    ensures Power(16, 16) == 0x1_0000_0000_0000_0000
  {
    assert Power(16, 2) == 0x100;
    hide Power;
    PowerSum(16, 2, 2);
    PowerSum(16, 4, 4);
    PowerSum(16, 8, 8);
  }

  lemma PowersOfEight()
    ensures Power(8, 22) == 4 * 0x1_0000_0000_0000_0000
  {
    assert Power(8, 2) == 64;
    hide Power;
    PowerSum(8, 2, 2);
    PowerSum(8, 4, 4);
    PowerSum(8, 8, 8);
    PowerSum(8, 4, 2);
    PowerSum(8, 16, 6);
  }

  lemma UnsignedLength(n: nat)
    ensures n < 0x1_0000_0000_0000_0000 ==> |Unsigned(n)| <= 20
    ensures n < 0x1_0000_0000 ==> |Unsigned(n)| <= 10
    ensures n < 0x1_0000 ==> |Unsigned(n)| <= 5
    ensures n < 1000 ==> |Unsigned(n)| <= 3
  {
    hide Power, Digits;
    PowersOfTen();
    if n < 1000 {
      DigitsLength(n, 10, 3);
    } else if n < 0x1_0000 {
      DigitsLength(n, 10, 5);
    } else if n < 0x1_0000_0000 {
      DigitsLength(n, 10, 10);
    } else if n < 0x1_0000_0000_0000_0000 {
      DigitsLength(n, 10, 20);
    }
  }

  lemma SignedLength(x: I64)
    ensures |Signed(x)| <= 20
  {
    hide Power, Digits;
    PowersOfTen();
    assert Power(10, 19) == 1_0000_00000_00000_00000 by { PowerSum(10, 19, 1); assert Power(10, 1) == 10 by { TenOnce(); } }
    var n: int := x;
    DigitsLength(if n < 0 then -n else n, 10, 19);
  }

  lemma TenOnce()
    ensures Power(10, 1) == 10
  {
  }

  lemma SharpHexLength(n: U64)
    ensures |SharpHex(n)| <= 18
  {
    hide Power, Digits;
    PowersOfSixteen();
    DigitsLength(n, 16, 16);
  }

  lemma SharpOctalLength(n: U64)
    ensures |SharpOctal(n)| <= 23
  {
    hide Power, Digits;
    PowersOfEight();
    DigitsLength(n, 8, 22);
  }
}
