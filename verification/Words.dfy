/** 64-bit words: the values that bytes in memory denote, and C's shifts. */
module Words {
  import opened Basics
  import opened Bits

  /** The value of bytes, the least significant first. */
  function Le(b: seq<U8>): nat {
    if b == [] then 0 else b[0] as int + 0x100 * Le(b[1..])
  }

  /** The value of bytes, the most significant first. */
  function Be(b: seq<U8>): nat {
    if b == [] then 0 else 0x100 * Be(b[..|b| - 1]) + b[|b| - 1] as int
  }

  function ValueOf(b: seq<U8>, bigEndian: bool): nat {
    if bigEndian then Be(b) else Le(b)
  }

  function Shl(v: nat, k: nat): nat {
    Wrap(v * Pow2(k))
  }

  function Shr(v: nat, k: nat): nat {
    QuotientIsNatural(v, Pow2(k));
    v / Pow2(k)
  }

  /** The signed value of a 64-bit word. */
  function ToSigned(v: nat): int {
    if v < 0x8000_0000_0000_0000 then v else v - W
  }

  /** The shift of a signed word, which keeps the sign. */
  function Sar(v: nat, k: nat): nat {
    Wrap(ToSigned(v) / Pow2(k))
  }

  /** Bits `off` up to `off + sz` of a word. */
  function Field(v: nat, off: nat, sz: nat): (r: nat)
    ensures r < Pow2(sz)
  {
    v / Pow2(off) % Pow2(sz)
  }

  /** A field of `sz` bits as a signed number, if it is to be one. */
  function Extended(x: nat, sz: nat, signed: bool): int
    requires sz > 0
  {
    if signed && x >= Pow2(sz - 1) then x - Pow2(sz) else x
  }

  lemma {:induction false} LeBound(b: seq<U8>)
    ensures Le(b) < Pow2(8 * |b|)
  {
    if b != [] {
      LeBound(b[1..]);
      Pow2Of8();
      Pow2Sum(8, 8 * |b[1..]|);
    }
  }

  lemma {:induction false} BeBound(b: seq<U8>)
    ensures Be(b) < Pow2(8 * |b|)
  {
    if b != [] {
      var n := |b| - 1;
      BeBound(b[..n]);
      Pow2Of8();
      Pow2Sum(8, 8 * n);
    }
  }

  /** The low bytes of a little-endian word come first. */
  lemma {:induction false} LeSplit(a: seq<U8>, b: seq<U8>)
    ensures Le(a + b) == Le(a) + Pow2(8 * |a|) * Le(b)
  {
    if a == [] {
      assert a + b == b;
    } else {
      LeSplit(a[1..], b);
      assert (a + b)[1..] == a[1..] + b;
      Pow2Of8();
      Pow2Sum(8, 8 * |a[1..]|);
      MulAssoc(0x100, Pow2(8 * |a[1..]|), Le(b));
    }
  }

  /** The high bytes of a big-endian word come first. */
  lemma {:induction false} BeSplit(a: seq<U8>, b: seq<U8>)
    ensures Be(a + b) == Pow2(8 * |b|) * Be(a) + Be(b)
  {
    if b == [] {
      assert a + b == a;
    } else {
      var n := |b| - 1;
      BeSplit(a, b[..n]);
      assert (a + b)[..|a| + n] == a + b[..n];
      Pow2Of8();
      Pow2Sum(8, 8 * n);
      MulAssoc(0x100, Pow2(8 * n), Be(a));
    }
  }

  lemma {:induction false} ZerosAreNothing(n: nat)
    ensures Le(Zeros(n)) == 0 && Be(Zeros(n)) == 0
  {
    if n > 0 {
      ZerosAreNothing(n - 1);
      assert Zeros(n)[1..] == Zeros(n - 1);
      assert Zeros(n)[..n - 1] == Zeros(n - 1);
    }
  }

  // ---------------------------------------------------------------- shifting a field out

  lemma MulLess(x: nat, y: nat, p: nat)
    requires x < y && p > 0
    ensures x * p < y * p
  {
    MulAscends(p, x + 1, y);
    assert p * (x + 1) == p * x + p;
    assert p * x == x * p && p * y == y * p;
  }

  lemma Distribute(a: int, s: int, q: int, f: int)
    ensures a * (s * q + f) == (a * s) * q + a * f
  {
    assert a * (s * q + f) == a * (s * q) + a * f;
    MulAssoc(a, s, q);
  }

  /** A number cut at `a` and again `s` further up. */
  lemma CutTwice(v: nat, a: nat, s: nat)
    requires a > 0 && s > 0
    ensures v == (a * s) * (v / a / s) + a * (v / a % s) + v % a
    ensures a * (v / a % s) + v % a < a * s
  {
    QuotientIsNatural(v, a);
    QuotientIsNatural(v / a, s);
    Recombine(v, a, s, v / a, v % a, v / a / s, v / a % s);
  }

  lemma Recombine(v: nat, a: nat, s: nat, u: nat, rest: nat, q: nat, f: nat)
    requires v == a * u + rest && u == s * q + f && rest < a && f < s
    ensures v == (a * s) * q + a * f + rest && a * f + rest < a * s
  {
    Distribute(a, s, q, f);
    MulAscends(a, f + 1, s);
    assert a * (f + 1) == a * f + a;
  }

  lemma Scale(n: nat, q: nat, m: nat, p: nat)
    ensures (n * q + m) * p == (n * p) * q + m * p
  {
    assert (n * q + m) * p == (n * q) * p + m * p;
    assert (n * q) * p == (n * p) * q;
  }

  /** With `a * s * p` the size of a word, multiplying by `p` and keeping the word brings the middle
      part of `v` to the top. */
  lemma ShiftToTop(v: nat, a: nat, s: nat, p: nat)
    requires a > 0 && s > 0 && p > 0 && a * s * p == W
    ensures Wrap(v * p) == (a * p) * (v / a % s) + v % a * p
    ensures v % a * p < a * p
  {
    hide Wrap;
    var q, f, rest := v / a / s, v / a % s, v % a;
    CutTwice(v, a, s);
    var n, m := a * s, a * f + rest;
    Scale(n, q, m, p);
    Scale(a, f, rest, p);
    MulLess(rest, a, p);
    MulLess(m, n, p);
    WrapOf(v * p, q, m * p);
  }

  lemma WrapOf(x: nat, q: nat, r: nat)
    requires r < W && x == W * q + r
    ensures Wrap(x) == r
  {
    DivModOf(x, W, q, r);
  }

  lemma TopPart(n: nat, f: nat, r: nat)
    requires r < n
    ensures (n * f + r) / n == f
  {
    DivModOf(n * f + r, n, f, r);
  }

  /** A shift to the left and back again leaves the field. */
  lemma ShiftsLeaveField(v: nat, off: nat, sz: nat)
    requires sz > 0 && off + sz <= 64
    ensures Shr(Shl(v, 64 - (off + sz)), 64 - sz) == Field(v, off, sz)
  {
    hide Wrap, Pow2;
    var a, s, p := Pow2(off), Pow2(sz), Pow2(64 - (off + sz));
    Factors(off, sz);
    ShiftToTop(v, a, s, p);
    TopPart(a * p, v / a % s, v % a * p);
  }

  lemma Factors(off: nat, sz: nat)
    requires sz > 0 && off + sz <= 64
    ensures Pow2(off) * Pow2(sz) * Pow2(64 - (off + sz)) == W
    ensures Pow2(off) * Pow2(64 - (off + sz)) == Pow2(64 - sz)
  {
    hide Pow2;
    Pow2Of64();
    Pow2Sum(off, sz);
    Pow2Sum(off + sz, 64 - (off + sz));
    Pow2Sum(off, 64 - (off + sz));
  }

  lemma Halves(sz: nat)
    requires 0 < sz <= 64
    ensures Pow2(sz) == 2 * Pow2(sz - 1)
    ensures Pow2(64 - sz) * Pow2(sz) == W && Pow2(64 - sz) * Pow2(sz - 1) == 0x8000_0000_0000_0000
  {
    assert Pow2(sz) == 2 * Pow2(sz - 1);
    assert Pow2(64) == 2 * Pow2(63);
    hide Pow2;
    Pow2Of64();
    Pow2Sum(64 - sz, sz);
    Pow2Sum(64 - sz, sz - 1);
  }

  /** Shifting back with the sign gives the field as a signed number. */
  lemma SignedShiftsExtendField(v: nat, off: nat, sz: nat)
    requires sz > 0 && off + sz <= 64
    ensures Sar(Shl(v, 64 - (off + sz)), 64 - sz) == Wrap(Extended(Field(v, off, sz), sz, true))
  {
    hide Wrap, Pow2;
    var a, s, p := Pow2(off), Pow2(sz), Pow2(64 - (off + sz));
    Factors(off, sz);
    Halves(sz);
    ShiftToTop(v, a, s, p);
    SignOfTop(Pow2(64 - sz), Pow2(sz - 1), v / a % s, v % a * p);
  }

  lemma SignOfTop(n: nat, half: nat, f: nat, r: nat)
    requires r < n && n * half == 0x8000_0000_0000_0000 && f < 2 * half && n * (2 * half) == W
    ensures ToSigned(n * f + r) / n == if f >= half then f - 2 * half else f
  {
    TopPart(n, f, r);
    if f >= half {
      MulAscends(n, half, f);
      var x := n * f + r - W;
      assert x == n * (f - 2 * half) + r by { assert n * (f - 2 * half) == n * f - n * (2 * half); }
      NegativeQuotient(x, n, 2 * half - f, r);
    } else {
      MulAscends(n, f + 1, half);
      assert n * (f + 1) == n * f + n;
    }
  }

  lemma NegativeQuotient(x: int, n: nat, q: int, r: nat)
    requires r < n && x == r - n * q
    ensures x / n == -q
  {
    var d := x / n + q;
    assert x == n * (x / n) + x % n;
    assert n * d == r - x % n by { assert n * d == n * (x / n) + n * q; }
    if d != 0 {
      BigMultiple(n, d);
    }
  }

  lemma BigMultiple(n: int, d: int)
    requires n > 0 && d != 0
    ensures n * d >= n || n * d <= -n
  {
    if d > 0 {
      MulAscends(n, 1, d);
    } else {
      var e := -d;
      MulAscends(n, 1, e);
      assert n * e == -(n * d);
    }
  }

  /** Either shift gives the field, extended as asked. */
  lemma ShiftsExtend(v: nat, off: nat, sz: nat, signed: bool)
    requires sz > 0 && off + sz <= 64
    ensures var top := Shl(v, 64 - (off + sz));
            (if signed then Sar(top, 64 - sz) else Shr(top, 64 - sz)) == Wrap(Extended(Field(v, off, sz), sz, signed))
  {
    hide Wrap, Shl, Shr, Sar, Field;
    if signed {
      SignedShiftsExtendField(v, off, sz);
    } else {
      ShiftsLeaveField(v, off, sz);
      Pow2Of64();
      Pow2Ascends(sz, 64);
    }
  }
}
