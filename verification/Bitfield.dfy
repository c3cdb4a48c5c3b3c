/** Relocatable bitfield reads, direct and through `bpf_probe_read_kernel`. */
module Bitfield {
  import opened Basics
  import opened Bits
  import opened Words

  /** What the loader fills in for `__CORE_RELO (s, field, ...)`: the storage unit of the field and
      the two shifts that isolate it. */
  datatype Relocation = Relocation(byteOffset: nat, byteSize: nat, lshift: nat, rshift: nat, signed: bool)

  ghost predicate Usable(r: Relocation, target: seq<U8>) {
    && r.byteSize in {1, 2, 4, 8}
    && r.byteOffset + r.byteSize <= |target|
    && r.lshift <= r.rshift < 64
  }

  /** The shifts stand for bits `Off` up to `Off + Width`: `lshift == 64 - (Off + Width)` and
      `rshift == 64 - Width`. */
  function Width(r: Relocation): nat
    requires r.rshift < 64
  {
    64 - r.rshift
  }

  function Off(r: Relocation): nat
    requires r.lshift <= r.rshift
  {
    r.rshift - r.lshift
  }

  function Storage(r: Relocation, target: seq<U8>): seq<U8>
    requires r.byteOffset + r.byteSize <= |target|
  {
    target[r.byteOffset..r.byteOffset + r.byteSize]
  }

  /** The value of the field: those bits of the storage unit's value, extended as its type says, as an
      unsigned 64-bit word. */
  function FieldValue(r: Relocation, target: seq<U8>, bigEndian: bool): nat
    requires r.byteOffset + r.byteSize <= |target| && r.lshift <= r.rshift < 64
  {
    Wrap(Extended(Field(ValueOf(Storage(r, target), bigEndian), Off(r), Width(r)), Width(r), r.signed))
  }

  /** `BPF_CORE_READ_BITFIELD`. */
  method ReadBitfield(target: seq<U8>, r: Relocation, bigEndian: bool) returns (val: nat)
    requires Usable(r, target)
    ensures val == FieldValue(r, target, bigEndian)
  {
    hide Wrap, Shl, Shr, Sar, Field;
    var p := target[r.byteOffset..];
    if r.byteSize == 1 {
      val := ValueOf(p[..1], bigEndian);
    } else if r.byteSize == 2 {
      val := ValueOf(p[..2], bigEndian);
    } else if r.byteSize == 4 {
      val := ValueOf(p[..4], bigEndian);
    } else {
      val := ValueOf(p[..8], bigEndian);
    }
    assert p[..r.byteSize] == Storage(r, target);
    ShiftsExtend(val, Off(r), Width(r), r.signed);
    val := Shl(val, r.lshift);
    if r.signed {
      val := Sar(val, r.rshift);
    } else {
      val := Shr(val, r.rshift);
    }
  }

  /** `__CORE_BITFIELD_PROBE_READ` into a zeroed 64-bit variable: the bytes go to its low-order end. */
  method ProbeStorage(target: seq<U8>, r: Relocation, bigEndian: bool) returns (val: nat)
    requires Usable(r, target)
    ensures val == ValueOf(Storage(r, target), bigEndian)
  {
    hide ValueOf, Zeros;
    var bytes := Storage(r, target);
    var n := r.byteSize;
    var start := if bigEndian then 8 - n else 0;
    var dst := Zeros(8);
    dst := dst[..start] + bytes + dst[start + n..];
    assert dst == if bigEndian then Zeros(8 - n) + bytes else bytes + Zeros(8 - n);
    PaddedValue(bytes, bigEndian);
    val := ValueOf(dst, bigEndian);
  }

  /** Zeros at the high-order end change nothing. */
  lemma PaddedValue(bytes: seq<U8>, bigEndian: bool)
    requires |bytes| <= 8
    ensures var zeros := Zeros(8 - |bytes|);
            ValueOf(if bigEndian then zeros + bytes else bytes + zeros, bigEndian) == ValueOf(bytes, bigEndian)
  {
    hide Le, Be, Zeros, Pow2;
    var zeros := Zeros(8 - |bytes|);
    ZerosAreNothing(8 - |bytes|);
    BeSplit(zeros, bytes);
    LeSplit(bytes, zeros);
  }

  /** `BPF_CORE_READ_BITFIELD_PROBED`: the same value as the direct read, or zero if the probe read
      fails and leaves the variable clear. */
  method ReadBitfieldProbed(target: seq<U8>, r: Relocation, bigEndian: bool, fails: bool) returns (val: nat)
    requires Usable(r, target)
    ensures val == if fails then 0 else FieldValue(r, target, bigEndian)
  {
    hide Wrap, Shl, Shr, Sar, Field;
    if fails {
      val := 0;
      NothingIn(Off(r), Width(r));
    } else {
      val := ProbeStorage(target, r, bigEndian);
    }
    ShiftsExtend(val, Off(r), Width(r), r.signed);
    val := Shl(val, r.lshift);
    if r.signed {
      val := Sar(val, r.rshift);
    } else {
      val := Shr(val, r.rshift);
    }
  }

  lemma NothingIn(off: nat, sz: nat)
    ensures Field(0, off, sz) == 0
  {
    DivModOf(0, Pow2(off), 0, 0);
    DivModOf(0, Pow2(sz), 0, 0);
  }

  /** Bit `j` of a number. */
  function Bit(v: nat, j: nat): int {
    v / Pow2(j) % 2
  }

  /** Bit `j` of the storage unit, where it lies in memory. */
  function StoredBit(r: Relocation, target: seq<U8>, bigEndian: bool, j: nat): int
    requires r.byteOffset + r.byteSize <= |target| && j < 8 * r.byteSize
  {
    Bit(target[if bigEndian then r.byteOffset + r.byteSize - 1 - j / 8 else r.byteOffset + j / 8], j % 8)
  }

  /** What the value means, bit by bit: bits `off` up to `off + sz` of the storage unit, with `off + sz ==
      64 - lshift` and `sz == 64 - rshift`, and above them copies of the topmost, or zeros. */
  lemma FieldValueBits(r: Relocation, target: seq<U8>, bigEndian: bool, i: nat)
    requires Usable(r, target) && 64 - r.lshift <= 8 * r.byteSize && i < 64
    ensures Bit(FieldValue(r, target, bigEndian), i) ==
              if i < 64 - r.rshift then StoredBit(r, target, bigEndian, r.rshift - r.lshift + i)
              else if r.signed then StoredBit(r, target, bigEndian, 63 - r.lshift)
              else 0
  {
    hide Bit, ValueOf, Wrap, Storage, StoredBit, Field, Extended;
    ExtendedBit(ValueOf(Storage(r, target), bigEndian), Off(r), Width(r), r.signed, i);
    StorageBit(r, target, bigEndian, Off(r) + if i < Width(r) then i else Width(r) - 1);
  }

  /** The bits of a field and of its extension. */
  lemma ExtendedBit(v: nat, off: nat, sz: nat, signed: bool, i: nat)
    requires 0 < sz && off + sz <= 64 && i < 64
    ensures Bit(Wrap(Extended(Field(v, off, sz), sz, signed)), i)
            == if i < sz then Bit(v, off + i) else if signed then Bit(v, off + sz - 1) else 0
  {
    hide Pow2, Wrap, Field, Bit;
    var f := Field(v, off, sz);
    var x := Extended(f, sz, signed);
    Halves(sz);
    Pow2Of64();
    Pow2Ascends(sz, 64);
    FieldBit(v, off, sz, if i < sz then i else sz - 1);
    TopBit(f, sz);
    if i >= sz {
      NoBitAbove(f, sz, i);
    }
    if x < 0 {
      assert Wrap(x) == x + W;
      if i < sz {
        NegativeBit(f, sz, i);
      } else {
        BitAbove(f, sz, i);
      }
    }
  }

  lemma TopBit(f: nat, sz: nat)
    requires sz > 0 && f < Pow2(sz)
    ensures Bit(f, sz - 1) == if f >= Pow2(sz - 1) then 1 else 0
  {
    Pow2Step(sz);
    hide Pow2;
    var half := Pow2(sz - 1);
    if f >= half {
      DivModOf(f, half, 1, f - half);
    } else {
      DivModOf(f, half, 0, f);
    }
  }

  lemma NoBitAbove(f: nat, sz: nat, i: nat)
    requires f < Pow2(sz) && sz <= i
    ensures Bit(f, i) == 0
  {
    hide Pow2;
    Pow2Ascends(sz, i);
    DivModOf(f, Pow2(i), 0, f);
  }

  /** Above a negative field every bit is set. */
  lemma BitAbove(f: nat, sz: nat, i: nat)
    requires 0 < sz <= i < 64 && f < Pow2(sz)
    ensures Pow2(sz) <= W && Bit(f - Pow2(sz) + W, i) == 1
  {
    hide Pow2;
    var m := TopHalf(i);
    Pow2Ascends(sz, i);
    Pow2Ascends(i, 64);
    Pow2Of64();
    OddMultiple(f - Pow2(sz) + W, Pow2(i), m, f - Pow2(sz) + Pow2(i));
  }

  lemma TopHalf(i: nat) returns (m: nat)
    requires i < 64
    ensures m > 0 && W == Pow2(i) * (2 * m)
  {
    hide Pow2;
    Pow2Of64();
    Pow2Sum(i, 64 - i);
    Pow2Step(64 - i);
    m := Pow2(63 - i);
  }

  lemma OddMultiple(x: nat, p: nat, m: nat, rest: nat)
    requires rest < p && m > 0 && x == p * (2 * m) - p + rest
    ensures x / p % 2 == 1
  {
    assert p * (2 * m - 1) == p * (2 * m) - p;
    DivModOf(x, p, 2 * m - 1, rest);
    EvenShift(-1, m);
  }

  /** A bit of the storage unit's value is a bit of one of its bytes. */
  lemma StorageBit(r: Relocation, target: seq<U8>, bigEndian: bool, j: nat)
    requires r.byteOffset + r.byteSize <= |target| && j < 8 * r.byteSize
    ensures Bit(ValueOf(Storage(r, target), bigEndian), j) == StoredBit(r, target, bigEndian, j)
  {
    hide Bit, Le, Be;
    var b, k, t := Storage(r, target), j / 8, j % 8;
    assert j == 8 * k + t;
    if bigEndian {
      BeBit(b, k, t);
      assert b[|b| - 1 - k] == target[r.byteOffset + r.byteSize - 1 - k];
    } else {
      LeBit(b, k, t);
      assert b[k] == target[r.byteOffset + k];
    }
  }

  lemma {:induction false} LeBit(b: seq<U8>, k: nat, t: nat)
    requires k < |b| && t < 8
    ensures Bit(Le(b), 8 * k + t) == Bit(b[k], t)
    decreases |b|
  {
    assert Le(b) == b[0] as int + 0x100 * Le(b[1..]);
    hide Bit, Le;
    LowByteBit(b[0], Le(b[1..]), 8 * k + t);
    if k > 0 {
      LeBit(b[1..], k - 1, t);
    }
  }

  lemma {:induction false} BeBit(b: seq<U8>, k: nat, t: nat)
    requires k < |b| && t < 8
    ensures Bit(Be(b), 8 * k + t) == Bit(b[|b| - 1 - k], t)
    decreases |b|
  {
    var n := |b| - 1;
    assert Be(b) == 0x100 * Be(b[..n]) + b[n] as int;
    hide Bit, Be;
    LowByteBit(b[n], Be(b[..n]), 8 * k + t);
    if k > 0 {
      BeBit(b[..n], k - 1, t);
    }
  }

  /** A bit of a word is a bit of its lowest byte or of what lies above that. */
  lemma LowByteBit(x: U8, rest: nat, j: nat)
    ensures Bit(x + 0x100 * rest, j) == if j < 8 then Bit(x, j) else Bit(rest, j - 8)
  {
    hide Pow2;
    var v := x + 0x100 * rest;
    Pow2Of8();
    if j < 8 {
      Pow2Sum(j, 8 - j);
      Pow2Step(8 - j);
      var p, m := Pow2(j), Pow2(7 - j);
      MulAssoc(p, 2 * m, rest);
      MulAssoc(2, m, rest);
      EvenMultipleKeepsBit(x, p, m * rest);
    } else {
      Pow2Sum(8, j - 8);
      BitOf(v, 0x100, Pow2(j - 8));
      DivModOf(v, 0x100, rest, x);
    }
  }

  lemma BitOf(v: nat, a: nat, s: nat)
    requires a > 0 && s > 0
    ensures v / (a * s) == v / a / s
  {
    var n := a * s;
    var q, k, rest := CutParts(v, a, s, n);
    DivModOf(v, n, q, a * k + rest);
  }

  lemma LowBit(u: nat, half: nat)
    requires half > 0
    ensures u % (2 * half) % 2 == u % 2
  {
    ModDouble(u, half);
  }

  lemma SplitPower(i: nat, sz: nat)
    requires i < sz
    ensures Pow2(sz) == Pow2(i) * (2 * Pow2(sz - i - 1))
  {
    Pow2Sum(i, sz - i);
    assert Pow2(sz - i) == 2 * Pow2(sz - i - 1);
  }

  lemma CutThenDivide(u: nat, p: nat, s: nat, n: nat)
    requires p > 0 && s > 0 && n == p * s
    ensures n > 0 && u % n / p == u / p % s
  {
    var q, k, rest := CutParts(u, p, s, n);
    MiddlePart(u, n, q, p, k, rest);
  }

  lemma CutParts(u: nat, p: nat, s: nat, n: nat) returns (q: nat, k: nat, rest: nat)
    requires p > 0 && s > 0 && n == p * s
    ensures n > 0 && q == u / p / s && k == u / p % s && rest < p && u == n * q + p * k + rest && p * k + rest < n
  {
    QuotientIsNatural(u, p);
    QuotientIsNatural(u / p, s);
    q, k, rest := u / p / s, u / p % s, u % p;
    CutTwice(u, p, s);
  }

  lemma MiddlePart(u: nat, n: nat, q: nat, p: nat, k: nat, rest: nat)
    requires rest < p && u == n * q + p * k + rest && p * k + rest < n
    ensures u % n / p == k
  {
    var m := p * k + rest;
    DivModOf(u, n, q, m);
    DivModOf(m, p, k, rest);
  }

  lemma CutKeepsBit(u: nat, p: nat, rest: nat, n: nat)
    requires p > 0 && rest > 0 && n == p * (2 * rest)
    ensures n > 0 && u % n / p % 2 == u / p % 2
  {
    CutThenDivide(u, p, 2 * rest, n);
    LowBit(u / p, rest);
  }

  lemma FieldBit(v: nat, off: nat, sz: nat, i: nat)
    requires i < sz
    ensures Bit(Field(v, off, sz), i) == Bit(v, off + i)
  {
    hide Pow2;
    SplitPower(i, sz);
    CutKeepsBit(v / Pow2(off), Pow2(i), Pow2(sz - i - 1), Pow2(sz));
    Pow2Sum(off, i);
    BitOf(v, Pow2(off), Pow2(i));
  }

  lemma EvenMultipleKeepsBit(f: nat, p: nat, c: nat)
    requires p > 0
    ensures (f + p * (2 * c)) / p % 2 == f / p % 2
  {
    AddMultiple(f, p, 2 * c);
    EvenShift(f / p, c);
  }

  lemma AddMultiple(f: nat, p: nat, m: nat)
    requires p > 0
    ensures (f + p * m) / p == f / p + m
  {
    var q, rest := f / p, f % p;
    QuotientIsNatural(f, p);
    assert f == p * q + rest;
    assert p * (q + m) == p * q + p * m;
    DivModOf(f + p * m, p, q + m, rest);
  }

  lemma EvenShift(q: int, c: int)
    ensures (q + 2 * c) % 2 == q % 2
  {
  }

  /** The bits above a field are worth an even multiple of each of its bits. */
  lemma AboveField(sz: nat, i: nat) returns (c: nat)
    requires i < sz <= 64
    ensures W - Pow2(sz) == Pow2(i) * (2 * c)
  {
    hide Pow2;
    var p, rest, m := Pow2(i), Pow2(sz - i - 1), Pow2(64 - sz) - 1;
    SplitPower(i, sz);
    Pow2Of64();
    Pow2Sum(sz, 64 - sz);
    assert Pow2(sz) * (m + 1) == Pow2(sz) * m + Pow2(sz);
    c := rest * m;
    MulAssoc(p, 2 * rest, m);
    MulAssoc(2, rest, m);
  }

  /** Setting the bits above a negative field changes none of the field's own. */
  lemma NegativeBit(f: nat, sz: nat, i: nat)
    requires i < sz <= 64 && Pow2(sz) <= W && f < Pow2(sz)
    ensures Bit(f - Pow2(sz) + W, i) == Bit(f, i)
  {
    hide Pow2;
    var c := AboveField(sz, i);
    EvenMultipleKeepsBit(f, Pow2(i), c);
  }
}
