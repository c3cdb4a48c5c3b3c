/** The two handlers as the code runs them on one CPU: over the shared map and ring, in place. */
module Handlers {
  import opened Basics
  import opened SyscallRecords
  import opened Capture
  import opened Protocol
  import opened AtomicTracer

  class Maps {
    var inflight: map<Tid, EnterState>
    var events: seq<Slot>
    const cfg: Config

    constructor (cfg: Config)
      ensures this.cfg == cfg && Contents() == EMPTY && Settled()
    {
      this.cfg := cfg;
      inflight := map[];
      events := [];
    }

    /** Every slot has been submitted. */
    ghost predicate Settled()
      reads this
    {
      forall j :: 0 <= j < |events| ==> events[j].committed
    }

    ghost function Contents(): Snapshot
      reads this
    {
      Snapshot(inflight, Events(events))
    }

    method HandleSysEnter(id: Tid, input: EnterInput)
      requires Settled()
      modifies this
      ensures Settled()
      ensures Contents() == Apply(cfg, old(Contents()), Enter(id, input))
      ensures var passes := cfg.target == 0 || (id / 0x1_0000_0000 - cfg.target) % 0x1_0000_0000 == 0;
              && (!passes ==> inflight == old(inflight) && events == old(events))
              && (passes && (id in old(inflight) || |old(inflight)| < cfg.capacity) ==>
                    id in inflight && inflight[id] == Captured(input))
    {
      TracedIff(cfg, id);
      hide CaptureString, CaptureSockaddr, Registers;
      if cfg.target != 0 && Tgid(id) != cfg.target {
        return;
      }
      var s := new EnterBuffer(input);
      s.MaybeCaptureString(input);
      s.MaybeCaptureSockaddr(input);
      assert s.s == Captured(input);
      inflight := UpdateAny(inflight, cfg.capacity, id, s.s);
    }

    /** `memory` is what `bpf_ringbuf_reserve` returns: NULL, or a record that may hold anything. */
    method HandleSysExit(id: Tid, ret: I64, memory: Option<Event>)
      requires Settled()
      modifies this
      ensures Settled()
      ensures Contents() == Apply(cfg, old(Contents()), Exit(id, ret, memory.Some?))
      ensures var passes := cfg.target == 0 || (id / 0x1_0000_0000 - cfg.target) % 0x1_0000_0000 == 0;
              && (!passes || id !in old(inflight) ==> inflight == old(inflight) && events == old(events))
              && (passes && id in old(inflight) ==>
                    id !in inflight && |events| == |old(events)| + if memory.Some? then 1 else 0)
    {
      TracedIff(cfg, id);
      if cfg.target != 0 && Tgid(id) != cfg.target {
        return;
      }
      if id !in inflight {
        return;
      }
      if memory.None? {
        inflight := inflight - {id};
        assert Events(events) + [] == Events(events);
        return;
      }
      var slot := |events|;
      events := events + [Slot(id, memory.value, false)];
      var s := inflight[id];
      var e := events[slot].event;
      e := e.(tgid := Tgid(id));
      e := e.(pid := Pid(id));
      e := e.(syscallId := s.syscallId);
      e := e.(ret := ret);
      e := e.(args := e.args[0 := s.args[0]]);
      e := e.(args := e.args[1 := s.args[1]]);
      e := e.(args := e.args[2 := s.args[2]]);
      e := e.(args := e.args[3 := s.args[3]]);
      e := e.(args := e.args[4 := s.args[4]]);
      e := e.(args := e.args[5 := s.args[5]]);
      assert e.args == s.args;
      e := e.(comm := s.comm);
      e := e.(str := s.str);
      e := e.(strLen := s.strLen);
      e := e.(saFamily := s.saFamily);
      e := e.(saPort := s.saPort);
      e := e.(saAddr4 := s.saAddr4);
      e := e.(saAddr6 := s.saAddr6);
      e := e.(saScopeId := s.saScopeId);
      e := e.(saValid := s.saValid);
      events := events[slot := Slot(id, e, true)];
      inflight := inflight - {id};
      assert Events(events) == Events(old(events)) + [Complete(old(inflight)[id], id, ret)];
    }
  }
}
