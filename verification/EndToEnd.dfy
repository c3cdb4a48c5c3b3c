/** From a thread's system call to the printed line, through every interleaving. */
module EndToEnd {
  import opened Basics
  import opened SyscallRecords
  import opened Capture
  import opened Protocol
  import opened Pairing
  import opened CallText
  import opened Fidelity
  import opened TargetFilter

  /** Every event that any interleaving submits is printed in full, and what it shows is what was read
      when that thread last entered a system call: the path behind its path argument and, for
      `connect` and `bind`, the socket address behind its address argument. */
  lemma EveryEventPrintsItsOwnCall(cfg: Config, steps: seq<Step>, s: State, j: nat, lib: Library)
      returns (t: Tid, input: EnterInput, ret: I64, i: nat, k: nat)
    requires Reaches(cfg, steps, s) && j < |s.ring| && s.ring[j].committed
    ensures i < k < |steps| && steps[i] == Step(t, BeginEnter(input)) && steps[k] == Step(t, BeginExit(ret))
    ensures forall n :: i < n < k ==> !Begins(steps[n], t)
    ensures var e := s.ring[j].event;
            && (e.tgid - t / 0x1_0000_0000) % 0x1_0000_0000 == 0 && (e.pid - t) % 0x1_0000_0000 == 0
            && (cfg.target == 0 || (t / 0x1_0000_0000 - cfg.target) % 0x1_0000_0000 == 0)
            && e.ret == ret && e.syscallId == input.nr && e.args == input.args && e.comm == input.comm
            && |LineOf(e, lib)| < 512
            && ArgString(e) == PathSeen(input)
            && (input.nr == NR_CONNECT || input.nr == NR_BIND ==>
                  var (k, n) := AddressArguments(input.nr).value;
                  SockaddrText(e, lib.ntop) == AddressSeen(input, input.args[k], input.args[n], lib.ntop))
  {
    hide StringShape, AddressShape, LineOf, ArgString, SockaddrText, AddressSeen, PathSeen, Exec, Captured;
    hide LastBegin, GrantCount, GrantOf;
    var m;
    t, input, ret, i, k, m := EventIsPaired(cfg, steps, s, j);
    CapturedRegisters(input);
    EventNamesThread(Captured(input), t, ret);
    ReportedIsTarget(cfg, steps, s, t);
    EveryEventHasShape(cfg, steps, s, j);
    EmittedLineFits(s.ring[j].event, lib);
    PathFidelity(input, t, ret);
    if input.nr == NR_CONNECT || input.nr == NR_BIND {
      AddressFidelity(input, t, ret, lib.ntop);
    }
  }
}
