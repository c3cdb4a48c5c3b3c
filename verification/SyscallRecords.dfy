/** The records that pass through the tracer: what the `sys_enter` handler keeps for a
    thread and what the `sys_exit` handler hands to user space, with C's field widths. */
module SyscallRecords {

  import opened Basics

  type Args = s: seq<U64> | |s| == 6 witness [0, 0, 0, 0, 0, 0]
  type Comm = s: seq<U8> | |s| == 16 witness seq(16, i => 0)
  type Path = s: seq<U8> | |s| == 256 witness seq(256, i => 0)
  type Addr6 = s: seq<U8> | |s| == 16 witness seq(16, i => 0)

  // arm64 system call numbers
  const NR_EPOLL_PWAIT := 22
  const NR_IOCTL := 29
  const NR_OPENAT := 56
  const NR_READ := 63
  const NR_WRITE := 64
  const NR_FUTEX := 98
  const NR_BIND := 200
  const NR_CONNECT := 203
  const NR_SENDTO := 206
  const NR_EXECVE := 221
  const NR_OPENAT2 := 437

  const AF_INET := 2
  const AF_INET6 := 10

  /** `struct enter_state`. */
  datatype EnterState = EnterState(
    syscallId: I32,
    args: Args,
    comm: Comm,
    str: Path,
    strLen: U32,
    saFamily: U16,
    saPort: U16,
    saAddr4: U32,
    saAddr6: Addr6,
    saScopeId: U32,
    saValid: bool)

  /** `struct syscall_event`. */
  datatype Event = Event(
    tgid: I32,
    pid: I32,
    syscallId: I32,
    ret: I64,
    args: Args,
    comm: Comm,
    str: Path,
    strLen: U32,
    saFamily: U16,
    saPort: U16,
    saAddr4: U32,
    saAddr6: Addr6,
    saScopeId: U32,
    saValid: bool)

  function Tgid(id: U64): I32 {
    ToI32(id / 0x1_0000_0000)
  }

  function Pid(id: U64): I32 {
    ToI32(id)
  }

  /** The two halves that an event carries identify the thread. */
  lemma IdFromHalves(x: U64, y: U64)
    requires Tgid(x) == Tgid(y) && Pid(x) == Pid(y)
    ensures x == y
  {
    assert x / 0x1_0000_0000 % 0x1_0000_0000 == x / 0x1_0000_0000;
    assert y / 0x1_0000_0000 % 0x1_0000_0000 == y / 0x1_0000_0000;
  }

  /** The event that reports `s`, captured on entry by thread `id`, with return value `ret`. */
  function Complete(s: EnterState, id: U64, ret: I64): Event {
    Event(Tgid(id), Pid(id), s.syscallId, ret, s.args, s.comm, s.str, s.strLen,
          s.saFamily, s.saPort, s.saAddr4, s.saAddr6, s.saScopeId, s.saValid)
  }
}
