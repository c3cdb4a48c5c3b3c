/** The alignment macros of `obstack.h` on 64-bit addresses. */
module ObstackAlign {
  import opened Basics
  import opened Bits

  /** Unsigned 64-bit difference. */
  function Minus(x: nat, y: nat): nat {
    Wrap(x - y)
  }

  /** `A + 1` is a power of two. */
  ghost predicate Mask(a: nat) {
    a < W && exists k: nat :: a + 1 == Pow2(k)
  }

  ghost predicate Multiple(x: int, n: nat) {
    n > 0 && x % n == 0
  }

  /** `__BPTR_ALIGN (B, P, A)`. */
  function BptrAlign(b: nat, p: nat, a: nat): nat {
    Wrap(b + AndNot(Wrap(Minus(p, b) + a), a))
  }

  /** `__PTR_ALIGN` where `ptrdiff_t` is as wide as a pointer: relative to address zero. */
  function PtrAlign(p: nat, a: nat): nat {
    BptrAlign(0, p, a)
  }

  /** The next multiple of `a + 1`, in unbounded arithmetic. */
  function AlignUp(p: nat, a: nat): nat {
    var rest := p % (a + 1);
    if rest == 0 then p else p + (a + 1 - rest)
  }

  lemma AlignUpIsMultiple(p: nat, a: nat)
    ensures p <= AlignUp(p, a) <= p + a && Multiple(AlignUp(p, a), a + 1)
  {
    var n := a + 1;
    var q, rest := p / n, p % n;
    assert p == n * q + rest;
    if rest != 0 {
      assert n * (q + 1) == n * q + n;
      DivModOf(AlignUp(p, a), n, q + 1, 0);
    }
  }

  /** No multiple comes earlier. */
  lemma AlignUpIsLeast(p: nat, a: nat, m: nat)
    requires p <= m && Multiple(m, a + 1)
    ensures AlignUp(p, a) <= m
  {
    var n := a + 1;
    var q, rest := p / n, p % n;
    assert p == n * q + rest && m == n * (m / n);
    if rest != 0 {
      if m / n <= q {
        MulAscends(n, m / n, q);
      } else {
        MulAscends(n, q + 1, m / n);
        assert n * (q + 1) == n * q + n;
      }
    }
  }

  /** Rounding down after adding the mask rounds up. */
  lemma RoundUp(x: nat, a: nat)
    ensures x + a - (x + a) % (a + 1) == AlignUp(x, a)
  {
    var n := a + 1;
    var q, rest := x / n, x % n;
    assert x == n * q + rest;
    if rest == 0 {
      DivModOf(x + a, n, q, a);
    } else {
      assert n * (q + 1) == n * q + n;
      DivModOf(x + a, n, q + 1, rest - 1);
    }
  }

  lemma BptrAlignIsAlignUp(b: nat, p: nat, a: nat)
    requires Mask(a) && b <= p < W && p - b + a < W && b + AlignUp(p - b, a) < W
    ensures BptrAlign(b, p, a) == b + AlignUp(p - b, a)
  {
    hide Wrap, AlignUp;
    var k: nat :| a + 1 == Pow2(k);
    var x := p - b;
    AndNotMask(x + a, k);
    RoundUp(x, a);
  }

  /** If any address at or above `p` is a multiple of `a + 1` away from `b`, the macro gives the least
      one: `m` is any such address. */
  lemma BptrAlignIsLeast(b: nat, p: nat, a: nat, m: nat)
    requires Mask(a) && b <= p <= m < W && Multiple(m - b, a + 1)
    ensures p <= BptrAlign(b, p, a) <= m && Multiple(BptrAlign(b, p, a) - b, a + 1)
  {
    hide BptrAlign, AlignUp, Multiple;
    AlignUpIsLeast(p - b, a, m - b);
    if p - b + a >= W {
      NoAlignedAddressLeft(p - b, a);
      assert false;
    }
    BptrAlignIsAlignUp(b, p, a);
    AlignUpIsMultiple(p - b, a);
  }

  /** Aligned past the end of the address space, the macro wraps to zero. */
  lemma PtrAlignWraps(p: nat, a: nat)
    requires Mask(a) && p < W <= p + a
    ensures PtrAlign(p, a) == 0
  {
    hide Wrap;
    var k: nat :| a + 1 == Pow2(k);
    var x := p + a - W;
    AndNotMask(x, k);
    DivModOf(x, a + 1, 0, x);
  }

  /** ... and there is indeed no aligned address left. */
  lemma NoAlignedAddressLeft(p: nat, a: nat)
    requires Mask(a) && p < W <= p + a
    ensures AlignUp(p, a) >= W
  {
    hide AlignUp;
    var top := MaskDividesAddressSpace(a);
    AlignUpIsMultiple(p, a);
    LastMultiple(a + 1, AlignUp(p, a) / (a + 1), top, AlignUp(p, a), p);
  }

  lemma MaskDividesAddressSpace(a: nat) returns (top: nat)
    requires Mask(a)
    ensures top > 0 && (a + 1) * top == W
  {
    hide Pow2;
    var k: nat :| a + 1 == Pow2(k);
    Pow2Of64();
    if k > 64 {
      Pow2Beyond(k);
      assert false;
    } else {
      Pow2Sum(k, 64 - k);
      top := Pow2(64 - k);
    }
  }

  lemma Pow2Beyond(k: nat)
    requires k > 64
    ensures Pow2(k) >= 2 * W
  {
    assert Pow2(65) == 2 * Pow2(64);
    hide Pow2;
    Pow2Of64();
    Pow2Ascends(65, k);
  }

  lemma LastMultiple(n: nat, q: nat, top: nat, r: nat, p: nat)
    requires top > 0 && n * top == W && r == n * q && p <= r && p + n > W
    ensures r >= W
  {
    if q >= top {
      MulAscends(n, top, q);
    } else {
      assert n * top == n * (top - 1) + n;
      MulAscends(n, q, top - 1);
    }
  }

  /** The clamp at the end of `obstack_finish`. */
  function Clamp(next: nat, chunk: nat, limit: nat): nat {
    if Minus(next, chunk) > Minus(limit, chunk) then limit else next
  }

  /** The wrapping macro and the unsigned comparison together compute the plain thing: the next
      aligned address, or the end of the chunk if that comes first, also when the aligned address
      does not fit in 64 bits. */
  lemma ClampedAlign(p: nat, a: nat, chunk: nat, limit: nat)
    requires Mask(a) && 0 < chunk <= p <= limit < W
    ensures Clamp(PtrAlign(p, a), chunk, limit) == Min(AlignUp(p, a), limit)
  {
    hide Wrap, AlignUp, BptrAlign;
    AlignUpIsMultiple(p, a);
    if p + a < W {
      BptrAlignIsAlignUp(0, p, a);
    } else {
      PtrAlignWraps(p, a);
      NoAlignedAddressLeft(p, a);
    }
  }
}
