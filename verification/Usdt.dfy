/** `bpf_usdt_arg`: fetching an argument of a user-level static probe. */
module Usdt {
  import opened Basics
  import opened Bits
  import opened Words

  const ESRCH := 3
  const ENOENT := 2
  const EINVAL := 22

  /** `BPF_USDT_MAX_ARG_CNT`. */
  const MAX_ARGS := 12

  datatype ArgType = ConstArg | RegArg | RegDerefArg | OtherArg

  datatype ArgSpec = ArgSpec(valOff: U64, kind: ArgType, regOff: int, signed: bool, bitshift: nat)

  datatype Spec = Spec(args: seq<ArgSpec>, argCnt: int)

  type EightBytes = s: seq<U8> | |s| == 8 witness [0, 0, 0, 0, 0, 0, 0, 0]

  type Negative = x: int | x < 0 witness -1

  /** A probe read of a word: the bytes, or a negative error. */
  datatype WordRead = Failed(err: Negative) | Bytes(bytes: EightBytes)

  /** What the probe finds: the kernel's attach cookie or the entry for the instruction pointer, the
      argument specifications, the saved registers by offset, and user memory by address. */
  datatype Probe = Probe(
    hasCookie: bool,
    cookie: U64,
    ipToSpec: Option<I32>,
    specs: map<int, Spec>,
    bigEndian: bool)

  /** The argument's size in bytes. */
  function Width(a: ArgSpec): nat
    requires a.bitshift <= 64
  {
    (64 - a.bitshift) / 8
  }

  ghost predicate WellFormed(a: ArgSpec) {
    a.bitshift in {0, 32, 48, 56}
  }

  ghost predicate SpecsOk(p: Probe) {
    forall id :: id in p.specs ==>
      && |p.specs[id].args| == MAX_ARGS
      && -0x8000 <= p.specs[id].argCnt < 0x8000
      && forall i :: 0 <= i < MAX_ARGS ==> WellFormed(p.specs[id].args[i])
  }

  /** `res` is the number of `size` bytes that agrees with `x` in them; an unsigned argument of eight
      bytes is handed out as a `long` all the same. */
  ghost predicate Extends(x: nat, size: nat, signed: bool, res: int) {
    && size > 0
    && (res - x) % Pow2(8 * size) == 0
    && if signed || size == 8 then 0 <= res + Pow2(8 * size - 1) < Pow2(8 * size) else 0 <= res < Pow2(8 * size)
  }

  /** What is fetched for one argument, if the reads it needs succeed. */
  ghost predicate Fetched(a: ArgSpec, reg: int -> WordRead, user: U64 -> WordRead, bigEndian: bool, err: int, res: I64)
    requires WellFormed(a)
  {
    match a.kind
    case ConstArg => err == 0 && Extends(a.valOff, Width(a), a.signed, res)
    case RegArg =>
      (match reg(a.regOff)
       case Failed(e) => err == e && res == 0
       case Bytes(b) => err == 0 && Extends(ValueOf(b, bigEndian), Width(a), a.signed, res))
    case RegDerefArg =>
      (match reg(a.regOff)
       case Failed(e) => err == e && res == 0
       case Bytes(b) =>
         match user((ValueOf(b, bigEndian) + a.valOff) % 0x1_0000_0000_0000_0000)
         case Failed(e) => err == e && res == 0
         case Bytes(m) => err == 0 && Extends(ValueOf(m[..Width(a)], bigEndian), Width(a), a.signed, res))
    case OtherArg => err == -22 && res == 0
  }

  /** The answer to a request for argument `argNum` of specification `id`. */
  ghost predicate Answered(p: Probe, id: int, argNum: U64, reg: int -> WordRead, user: U64 -> WordRead, err: int, res: I64)
    requires SpecsOk(p)
  {
    if id < 0 || id !in p.specs then err == -3 && res == 0
    else if argNum >= 12 || 0 <= p.specs[id].argCnt <= argNum then err == -2 && res == 0
    else Fetched(p.specs[id].args[argNum], reg, user, p.bigEndian, err, res)
  }

  /** Shifting a word left and back keeps its low bytes. */
  lemma KeepLowBytes(v: nat, a: ArgSpec)
    requires WellFormed(a) && v < W
    ensures Width(a) > 0 && a.bitshift == 64 - 8 * Width(a)
    ensures (if a.signed then Sar(Shl(v, a.bitshift), a.bitshift) else Shr(Shl(v, a.bitshift), a.bitshift))
            == Wrap(Extended(v % Pow2(8 * Width(a)), 8 * Width(a), a.signed))
  {
    SizeOf(a);
    hide Pow2, Shl, Shr, Sar, Extended, Width, Wrap, Field;
    ShiftsExtend(v, 0, 8 * Width(a), a.signed);
    FieldAtZero(v, 8 * Width(a));
  }

  lemma FieldAtZero(v: nat, sz: nat)
    ensures Field(v, 0, sz) == v % Pow2(sz)
  {
    Pow2Step(0);
    hide Pow2;
    assert v / 1 == v;
  }

  /** The first `n` bytes of a little-endian word are its low bytes. */
  lemma LowBytesLe(b: EightBytes, n: nat)
    requires n <= 8
    ensures Le(b) % Pow2(8 * n) == Le(b[..n])
  {
    assert b == b[..n] + b[n..];
    LeSplit(b[..n], b[n..]);
    LeBound(b[..n]);
    DivModOf(Le(b), Pow2(8 * n), Le(b[n..]), Le(b[..n]));
  }

  /** The first `n` bytes of a big-endian word are its high bytes. */
  lemma HighBytesBe(b: EightBytes, n: nat)
    requires n <= 8
    ensures Be(b) / Pow2(64 - 8 * n) == Be(b[..n]) < Pow2(8 * n)
  {
    assert b == b[..n] + b[n..];
    BeSplit(b[..n], b[n..]);
    BeBound(b[n..]);
    BeBound(b[..n]);
    DivModOf(Be(b), Pow2(64 - 8 * n), Be(b[..n]), Be(b[n..]));
  }

  lemma WordBound(b: EightBytes, bigEndian: bool)
    ensures ValueOf(b, bigEndian) < W
  {
    LeBound(b);
    BeBound(b);
    Pow2Of64();
  }

  /** `__bpf_usdt_spec_id`: the attach cookie as an `int` where the kernel has cookies, else the entry
      for the instruction pointer. */
  method SpecId(p: Probe) returns (id: I32)
    ensures p.hasCookie ==> (p.cookie - id) % 0x1_0000_0000 == 0
    ensures !p.hasCookie && p.ipToSpec.Some? ==> id == p.ipToSpec.value
    ensures !p.hasCookie && p.ipToSpec.None? ==> id == -3
  {
    if !p.hasCookie {
      return if p.ipToSpec.Some? then p.ipToSpec.value else -ESRCH;
    }
    id := ToI32(p.cookie);
    ToI32Is(p.cookie, id);
  }

  /** A `short`, compared with a 64-bit unsigned number, counts as one. */
  lemma CountTest(argNum: U64, argCnt: int)
    requires -0x8000 <= argCnt < 0x8000
    ensures argNum >= 12 || argNum >= Wrap(argCnt) <==> argNum >= 12 || 0 <= argCnt <= argNum
  {
  }

  /** What the final shifts leave is the argument, extended. */
  lemma FinalShifts(v: nat, a: ArgSpec)
    requires WellFormed(a) && v < W
    ensures var top := Shl(v, a.bitshift);
            Extends(v, Width(a), a.signed, ToSigned(if a.signed then Sar(top, a.bitshift) else Shr(top, a.bitshift)))
  {
    hide Shl, Shr, Sar, Pow2;
    KeepLowBytes(v, a);
    Pow2Of64();
    Halves(8 * Width(a));
    var size := Width(a);
    assert size == 8 || size == 4 || size == 2 || size == 1;
    if size == 8 {
      ExtendedFits(v, 64, W, a.signed);
    } else if size == 4 {
      ExtendedFits(v, 32, 0x1_0000_0000, a.signed);
    } else if size == 2 {
      ExtendedFits(v, 16, 0x1_0000, a.signed);
    } else {
      ExtendedFits(v, 8, 0x100, a.signed);
    }
  }

  lemma ExtendedFits(v: nat, sz: nat, n: nat, signed: bool)
    requires v < W && sz > 0 && Pow2(sz) == n == 2 * Pow2(sz - 1)
    requires (sz == 64 && n == W) || (sz == 32 && n == 0x1_0000_0000) || (sz == 16 && n == 0x1_0000) || (sz == 8 && n == 0x100)
    ensures var res := ToSigned(Wrap(Extended(v % n, sz, signed)));
            && (res - v) % n == 0
            && if signed || sz == 64 then 0 <= res + Pow2(sz - 1) < n else 0 <= res < n
  {
    hide Pow2;
  }

  /** `reg` and `user` are the outcomes of the two probe reads: of the register at an offset into the
      saved registers, and of user memory at an address. */
  method BpfUsdtArg(p: Probe, argNum: U64, reg: int -> WordRead, user: U64 -> WordRead)
      returns (err: int, res: I64)
    requires SpecsOk(p)
    ensures err <= 0 && (err != 0 ==> res == 0)
    ensures p.hasCookie ==>
              forall id: I32 :: (p.cookie - id) % 0x1_0000_0000 == 0 ==> Answered(p, id, argNum, reg, user, err, res)
    ensures !p.hasCookie && p.ipToSpec.Some? ==> Answered(p, p.ipToSpec.value, argNum, reg, user, err, res)
    ensures !p.hasCookie && p.ipToSpec.None? ==> err == -3 && res == 0
  {
    var specId := SpecId(p);
    err, res := Lookup(p, specId, argNum, reg, user);
    if p.hasCookie {
      forall id: I32 | (p.cookie - id) % 0x1_0000_0000 == 0 ensures Answered(p, id, argNum, reg, user, err, res) {
        ToI32Is(p.cookie, id);
        ToI32Is(p.cookie, specId);
      }
    }
  }

  /** The tests on the specification and on the argument's number. */
  method Lookup(p: Probe, specId: I32, argNum: U64, reg: int -> WordRead, user: U64 -> WordRead)
      returns (err: int, res: I64)
    requires SpecsOk(p)
    ensures err <= 0 && (err != 0 ==> res == 0)
    ensures Answered(p, specId, argNum, reg, user, err, res)
  {
    hide Wrap, Pow2, Shl, Shr, Sar, Le, Be, Extends;
    res := 0;
    if specId < 0 {
      return -ESRCH, res;
    }
    if specId !in p.specs {
      return -ESRCH, res;
    }
    var spec := p.specs[specId];
    CountTest(argNum, spec.argCnt);
    if argNum >= MAX_ARGS || argNum >= Wrap(spec.argCnt) {
      return -ENOENT, res;
    }
    var a := spec.args[argNum];
    assert WellFormed(a);
    err, res := Fetch(a, p.bigEndian, reg, user);
  }

  /** The switch over the argument's kind, and the shifts after it. */
  method Fetch(a: ArgSpec, bigEndian: bool, reg: int -> WordRead, user: U64 -> WordRead) returns (err: int, res: I64)
    requires WellFormed(a)
    ensures err <= 0 && (err != 0 ==> res == 0)
    ensures Fetched(a, reg, user, bigEndian, err, res)
  {
    hide Pow2, Shl, Shr, Sar, Le, Be, Extends, ToSigned;
    res := 0;
    var val: nat;
    match a.kind {
      case ConstArg =>
        val := a.valOff;
      case RegArg =>
        var r := reg(a.regOff);
        if r.Failed? {
          return r.err, res;
        }
        WordBound(r.bytes, bigEndian);
        val := ValueOf(r.bytes, bigEndian);
      case RegDerefArg =>
        var r := reg(a.regOff);
        if r.Failed? {
          return r.err, res;
        }
        val := ValueOf(r.bytes, bigEndian);
        var m := user(Wrap(val + a.valOff));
        if m.Failed? {
          return m.err, res;
        }
        WordBound(m.bytes, bigEndian);
        val := ValueOf(m.bytes, bigEndian);
        if bigEndian {
          val := Shr(val, a.bitshift);
        }
        FirstBytes(m.bytes, a, bigEndian);
        SameLowBytes(val, ValueOf(m.bytes[..Width(a)], bigEndian), a);
      case OtherArg =>
        return -EINVAL, res;
    }
    FinalShifts(val, a);
    WordRange(val, a);
    val := Shl(val, a.bitshift);
    if a.signed {
      val := Sar(val, a.bitshift);
    } else {
      val := Shr(val, a.bitshift);
    }
    res := ToSigned(val);
    err := 0;
  }

  lemma WordRange(v: nat, a: ArgSpec)
    requires WellFormed(a) && v < W
    ensures var top := Shl(v, a.bitshift);
            (if a.signed then Sar(top, a.bitshift) else Shr(top, a.bitshift)) < W
    ensures forall x: nat :: x < W ==> -0x8000_0000_0000_0000 <= ToSigned(x) < 0x8000_0000_0000_0000
  {
    hide Shl, Shr, Sar, Pow2;
    KeepLowBytes(v, a);
  }

  /** Extending looks only at the low bytes. */
  lemma SameLowBytes(v: nat, x: nat, a: ArgSpec)
    requires WellFormed(a) && v % Pow2(8 * Width(a)) == x
    ensures forall res: int :: Extends(v, Width(a), a.signed, res) ==> Extends(x, Width(a), a.signed, res)
  {
    hide Pow2;
    SizeOf(a);
    var n := Pow2(8 * Width(a));
    forall res: int | Extends(v, Width(a), a.signed, res) ensures Extends(x, Width(a), a.signed, res) {
      Congruent(v, x, res, n);
    }
  }

  lemma SizeOf(a: ArgSpec)
    requires WellFormed(a)
    ensures Width(a) in {1, 2, 4, 8} && a.bitshift == 64 - 8 * Width(a)
    ensures Pow2(8 * Width(a)) in {0x100, 0x1_0000, 0x1_0000_0000, 0x1_0000_0000_0000_0000}
  {
    hide Pow2;
    Pow2Of64();
  }

  lemma Congruent(v: int, x: int, res: int, n: int)
    requires n in {0x100, 0x1_0000, 0x1_0000_0000, 0x1_0000_0000_0000_0000}
    requires v % n == x && (res - v) % n == 0
    ensures (res - x) % n == 0
  {
  }

  /** What the deref case hands to the final shifts has the operand's first bytes at its low end. */
  lemma FirstBytes(b: EightBytes, a: ArgSpec, bigEndian: bool)
    requires WellFormed(a)
    ensures var v := if bigEndian then Shr(Be(b), a.bitshift) else Le(b);
            v < W && v % Pow2(8 * Width(a)) == ValueOf(b[..Width(a)], bigEndian)
  {
    hide Le, Be, Pow2;
    var n := Width(a);
    WordBound(b, bigEndian);
    if bigEndian {
      HighBytesBe(b, n);
      Pow2Of64();
      Pow2Ascends(8 * n, 64);
      DivModOf(Be(b[..n]), Pow2(8 * n), 0, Be(b[..n]));
    } else {
      LowBytesLe(b, n);
    }
  }
}
