/** Arithmetic on powers of two: 64-bit wrap-around, clearing bits, rounding. */
module Bits {

  /** One past the largest 64-bit value. */
  const W: int := 0x1_0000_0000_0000_0000

  /** The value of `x` in 64-bit unsigned arithmetic. */
  function Wrap(x: int): (r: nat)
    ensures r < W
    ensures 0 <= x < W ==> r == x
    ensures W <= x < 2 * W ==> r == x - W
    ensures -W <= x < 0 ==> r == x + W
  {
    x % 0x1_0000_0000_0000_0000
  }

  function Pow2(k: nat): (r: nat)
    ensures r >= 1
  {
    if k == 0 then 1 else 2 * Pow2(k - 1)
  }

  lemma {:induction false} Pow2Sum(j: nat, k: nat)
    ensures Pow2(j + k) == Pow2(j) * Pow2(k)
  {
    if j > 0 {
      Pow2Sum(j - 1, k);
      MulAssoc(2, Pow2(j - 1), Pow2(k));
    }
  }

  lemma MulAssoc(x: int, y: int, z: int)
    ensures x * (y * z) == (x * y) * z
  {
  }

  lemma {:induction false} Pow2Ascends(j: nat, k: nat)
    requires j <= k
    ensures Pow2(j) <= Pow2(k)
    decreases k - j
  {
    if j < k {
      Pow2Ascends(j + 1, k);
    }
  }

  lemma Pow2Of8()
    ensures Pow2(8) == 0x100
  {
    assert Pow2(4) == 16;
    Pow2Sum(4, 4);
  }

  lemma Pow2Of64()
    ensures Pow2(8) == 0x100 && Pow2(16) == 0x1_0000 && Pow2(32) == 0x1_0000_0000 && Pow2(64) == W
  {
    hide Pow2;
    Pow2Of8();
    Pow2Sum(8, 8);
    Pow2Sum(16, 16);
    Pow2Sum(32, 32);
  }

  lemma {:induction false} MulAscends(n: nat, a: nat, b: nat)
    requires a <= b
    ensures n * a <= n * b
    decreases b
  {
    if a < b {
      MulAscends(n, a, b - 1);
      assert n * b == n * (b - 1) + n;
    }
  }

  lemma QuotientIsNatural(x: nat, n: nat)
    requires n > 0
    ensures x / n >= 0
  {
  }

  /** Equal quotients and remainders: the pair that fits is the only one. */
  lemma DivModUnique(n: nat, q: nat, r: nat, q': nat, r': nat)
    requires r < n && r' < n && n * q + r == n * q' + r'
    ensures q == q' && r == r'
  {
    if q < q' {
      assert n * (q + 1) == n * q + n;
      MulAscends(n, q + 1, q');
    } else if q' < q {
      assert n * (q' + 1) == n * q' + n;
      MulAscends(n, q' + 1, q);
    }
  }

  lemma DivModOf(x: nat, n: nat, q: nat, r: nat)
    requires r < n && x == n * q + r
    ensures x / n == q && x % n == r
  {
    DivModUnique(n, x / n, x % n, q, r);
  }

  /** `x & ~a`, bit by bit. */
  function AndNot(x: nat, a: nat): nat {
    if x == 0 then 0
    else (if x % 2 == 1 && a % 2 == 0 then 1 else 0) + 2 * AndNot(x / 2, a / 2)
  }

  lemma {:induction false} AndNotZero(x: nat)
    ensures AndNot(x, 0) == x
  {
    if x > 0 {
      AndNotZero(x / 2);
    }
  }

  lemma ModDouble(x: nat, p: nat)
    requires p > 0
    ensures x % (2 * p) == 2 * (x / 2 % p) + x % 2
  {
    var q, r := x / 2 / p, x / 2 % p;
    assert x == (2 * p) * q + (2 * r + x % 2) by {
      assert x / 2 == p * q + r;
      MulAssoc(2, p, q);
    }
    DivModOf(x, 2 * p, q, 2 * r + x % 2);
  }

  /** Clearing the low `k` bits rounds down to a multiple of `2^k`. */
  lemma {:induction false} AndNotMask(x: nat, k: nat)
    ensures AndNot(x, Pow2(k) - 1) == x - x % Pow2(k)
  {
    hide Pow2, AndNot;
    Pow2Step(k);
    if k == 0 {
      AndNotZero(x);
    } else {
      AndNotMask(x / 2, k - 1);
      MaskStep(x, Pow2(k - 1), Pow2(k));
    }
  }

  lemma Pow2Step(k: nat)
    ensures Pow2(k) == if k == 0 then 1 else 2 * Pow2(k - 1)
  {
  }

  lemma MaskStep(x: nat, half: nat, p: nat)
    requires half > 0 && p == 2 * half && AndNot(x / 2, half - 1) == x / 2 - x / 2 % half
    ensures AndNot(x, p - 1) == x - x % p
  {
    hide AndNot;
    AndNotHalves(x, half);
    ModDouble(x, half);
    Halved(x, x / 2 % half);
  }

  lemma AndNotHalves(x: nat, half: nat)
    requires half > 0
    ensures AndNot(x, 2 * half - 1) == 2 * AndNot(x / 2, half - 1)
  {
    assert (2 * half - 1) % 2 == 1 && (2 * half - 1) / 2 == half - 1;
  }

  lemma Halved(x: nat, r: int)
    ensures 2 * (x / 2 - r) == x - (2 * r + x % 2)
  {
  }
}
