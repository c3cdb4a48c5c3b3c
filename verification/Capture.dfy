/** What `handle_sys_enter` captures before it stores anything: the registers, and the user
    memory behind the path and socket-address arguments.  User memory may change between two
    reads, so each of the four reads in the code has a view of memory of its own. */
module Capture {
  import opened Basics
  import opened SyscallRecords

  type TwoBytes = s: seq<U8> | |s| == 2 witness [0, 0]
  type SockaddrIn = s: seq<U8> | |s| == 16 witness seq(16, i => 0)
  type SockaddrIn6 = s: seq<U8> | |s| == 28 witness seq(28, i => 0)

  /** The bytes of a C string without its terminator, as long as a 256-byte buffer can hold. */
  type Text = s: seq<U8> | |s| < 256 && 0 !in s witness []

  /** The outcome of `bpf_probe_read_user_str` into a 256-byte buffer: on success the bytes
      before the terminator, on failure whatever the helper left in the buffer. */
  datatype StrRead = StrFault(left: Path) | StrCopied(text: Text)

  /** Everything `handle_sys_enter` finds on one call: the register values, the command name and,
      for each read of user memory, what it would find at each address.  A read at an address that
      is not listed faults. */
  datatype EnterInput = EnterInput(
    nr: I32,
    args: Args,
    comm: Comm,
    path: map<U64, StrRead>,
    family: map<U64, TwoBytes>,
    in4: map<U64, SockaddrIn>,
    in6: map<U64, SockaddrIn6>)

  /** `bpf_probe_read_user_str` at address `p`. */
  function ReadString(input: EnterInput, p: U64): StrRead {
    if p in input.path then input.path[p] else StrFault(Zeros(256))
  }

  function Load16(b: seq<U8>, i: nat): U16
    requires i + 2 <= |b|
  {
    b[i] as int + 0x100 * b[i + 1] as int
  }

  function Load32(b: seq<U8>, i: nat): U32
    requires i + 4 <= |b|
  {
    b[i] as int + 0x100 * b[i + 1] as int + 0x1_0000 * b[i + 2] as int + 0x100_0000 * b[i + 3] as int
  }

  predicate TakesPath(nr: int) {
    nr == NR_OPENAT || nr == NR_OPENAT2 || nr == NR_EXECVE
  }

  predicate TakesSockaddr(nr: int) {
    nr == NR_CONNECT || nr == NR_BIND || nr == NR_SENDTO
  }

  function PathPointer(s: EnterState): U64 {
    if s.syscallId == NR_OPENAT || s.syscallId == NR_OPENAT2 then s.args[1]
    else if s.syscallId == NR_EXECVE then s.args[0]
    else 0
  }

  /** A buffer after a shorter run of bytes is copied to its start. */
  function Overwrite(buffer: Path, bytes: seq<U8>): Path
    requires |bytes| <= 256
  {
    bytes + buffer[|bytes|..]
  }

  function CaptureString(s: EnterState, input: EnterInput): EnterState {
    if PathPointer(s) == 0 then s
    else match ReadString(input, PathPointer(s))
      case StrFault(left) => s.(str := left)
      case StrCopied(text) => s.(str := Overwrite(s.str, text + [0]), strLen := |text| + 1)
  }

  function AddressLength(s: EnterState): U64 {
    if s.syscallId == NR_SENDTO then s.args[5] else s.args[2]
  }

  function CaptureSockaddr(s: EnterState, input: EnterInput): EnterState {
    var p := s.args[1];
    if !TakesSockaddr(s.syscallId) || p == 0 || AddressLength(s) < 2 || p !in input.family then s
    else
      var s1 := s.(saFamily := Load16(input.family[p], 0));
      if s1.saFamily == AF_INET && AddressLength(s) >= 16 then
        if p !in input.in4 then s1 else
        s1.(saPort := Load16(input.in4[p], 2), saAddr4 := Load32(input.in4[p], 4), saValid := true)
      else if s1.saFamily == AF_INET6 && AddressLength(s) >= 28 then
        if p !in input.in6 then s1 else
        s1.(saPort := Load16(input.in6[p], 2), saAddr6 := input.in6[p][8..24],
            saScopeId := Load32(input.in6[p], 24), saValid := true)
      else s1
  }

  /** The zeroed record with the registers filled in. */
  function Registers(input: EnterInput): EnterState {
    EnterState(input.nr, input.args, input.comm, Zeros(256), 0, 0, 0, 0, Zeros(16), 0, false)
  }

  /** The record that one call of `handle_sys_enter` stores. */
  function Captured(input: EnterInput): EnterState {
    CaptureSockaddr(CaptureString(Registers(input), input), input)
  }

  /** `struct enter_state` on the handler's stack, filled in through a pointer. */
  class EnterBuffer {
    var s: EnterState

    constructor (input: EnterInput)
      ensures s == Registers(input)
    {
      var args: Args := [input.args[0], input.args[1], input.args[2], input.args[3], input.args[4], input.args[5]];
      assert args == input.args;
      s := EnterState(input.nr, args, input.comm, Zeros(256), 0, 0, 0, 0, Zeros(16), 0, false);
    }

    method MaybeCaptureString(input: EnterInput)
      modifies this
      ensures s == CaptureString(old(s), input)
      ensures s.strLen != old(s).strLen ==> TakesPath(s.syscallId) && 0 < s.strLen <= 256 && s.str[s.strLen - 1] == 0
    {
      var p := 0;
      if s.syscallId == NR_OPENAT || s.syscallId == NR_OPENAT2 {
        p := s.args[1];
      } else if s.syscallId == NR_EXECVE {
        p := s.args[0];
      }
      if p == 0 {
        return;
      }
      var n: int;
      match ReadString(input, p) {
        case StrFault(left) =>
          s := s.(str := left);
          n := -14;
        case StrCopied(text) =>
          s := s.(str := Overwrite(s.str, text + [0]));
          n := |text| + 1;
      }
      if n > 0 {
        s := s.(strLen := n);
      }
    }

    method MaybeCaptureSockaddr(input: EnterInput)
      modifies this
      ensures s == CaptureSockaddr(old(s), input)
      ensures s.saValid && !old(s).saValid ==> TakesSockaddr(s.syscallId) && s.saFamily in {AF_INET, AF_INET6}
    {
      if s.syscallId != NR_CONNECT && s.syscallId != NR_BIND && s.syscallId != NR_SENDTO {
        return;
      }
      var uaddr := s.args[1];
      if uaddr == 0 {
        return;
      }
      var len := if s.syscallId == NR_SENDTO then s.args[5] else s.args[2];
      if len < 2 || uaddr !in input.family {
        return;
      }
      var family := Load16(input.family[uaddr], 0);
      s := s.(saFamily := family);
      if family == AF_INET && len >= 16 {
        if uaddr !in input.in4 {
          return;
        }
        s := s.(saPort := Load16(input.in4[uaddr], 2));
        s := s.(saAddr4 := Load32(input.in4[uaddr], 4));
        s := s.(saValid := true);
        return;
      }
      if family == AF_INET6 && len >= 28 {
        if uaddr !in input.in6 {
          return;
        }
        s := s.(saPort := Load16(input.in6[uaddr], 2));
        s := s.(saAddr6 := input.in6[uaddr][8..24]);
        s := s.(saScopeId := Load32(input.in6[uaddr], 24));
        s := s.(saValid := true);
      }
    }
  }

  /** The string part of a record: text only for a call that takes a path, terminated exactly
      at `strLen - 1`. */
  ghost predicate StringShape(nr: int, str: Path, strLen: U32) {
    strLen != 0 ==>
      && TakesPath(nr)
      && strLen <= 256
      && str[strLen - 1] == 0
      && 0 !in str[..strLen - 1]
  }

  /** The address part of a record: an address only for a call that takes one, of a known
      family, and nothing in the other family's fields. */
  ghost predicate AddressShape(nr: int, family: U16, addr4: U32, addr6: Addr6, scope: U32, valid: bool) {
    && (addr4 != 0 ==> valid && family == AF_INET)
    && (addr6 != Zeros(16) || scope != 0 ==> valid && family == AF_INET6)
    && (valid ==> TakesSockaddr(nr) && family in {AF_INET, AF_INET6})
  }

  lemma StringCaptured(input: EnterInput)
    ensures var s := CaptureString(Registers(input), input);
            StringShape(s.syscallId, s.str, s.strLen)
  {
    var s := CaptureString(Registers(input), input);
    if s.strLen != 0 {
      assert s.str[..s.strLen - 1] == ReadString(input, PathPointer(s)).text;
    }
  }

  /** Whatever user memory does between the reads, a captured record has both shapes. */
  lemma CapturedShape(input: EnterInput)
    ensures var s := Captured(input);
            && StringShape(s.syscallId, s.str, s.strLen)
            && AddressShape(s.syscallId, s.saFamily, s.saAddr4, s.saAddr6, s.saScopeId, s.saValid)
  {
    hide StringShape, Load16, Load32;
    StringCaptured(input);
  }

  lemma CapturedRegisters(input: EnterInput)
    ensures Captured(input).syscallId == input.nr && Captured(input).args == input.args
    ensures Captured(input).comm == input.comm
  {
    hide Load16, Load32, Overwrite, Zeros;
  }

  /** An address is captured exactly when the call takes one, its pointer is set, the length
      argument covers the family's structure and both reads succeed there. */
  lemma AddressCapturedIff(input: EnterInput)
    ensures Captured(input).saValid <==>
              && TakesSockaddr(input.nr)
              && input.args[1] != 0
              && input.args[1] in input.family
              && var len := if input.nr == NR_SENDTO then input.args[5] else input.args[2];
                 || (input.family[input.args[1]] == [AF_INET, 0] && len >= 16 && input.args[1] in input.in4)
                 || (input.family[input.args[1]] == [AF_INET6, 0] && len >= 28 && input.args[1] in input.in6)
  {
    if input.args[1] in input.family {
      FamilyBytes(input.family[input.args[1]]);
    }
  }

  lemma FamilyBytes(f: TwoBytes)
    ensures Load16(f, 0) == AF_INET <==> f == [AF_INET, 0]
    ensures Load16(f, 0) == AF_INET6 <==> f == [AF_INET6, 0]
  {
    assert f == [f[0], f[1]];
  }
}
