/** bcc's `FileDesc`: who owns a file descriptor and who closes it.  The kernel reuses descriptor
    numbers, so each opening gets a serial number of its own here. */
module FileDesc {
  import opened Basics

  /** The C++ object. */
  class FileDesc {
    var fd: int

    constructor (fd: int)
      ensures this.fd == fd
    {
      this.fd := fd;
    }
  }

  /** Every opening is open under one number or was closed once, never both. */
  ghost predicate Books(open: map<int, nat>, openings: nat, closings: seq<nat>) {
    && (forall d :: d in open ==> d >= 0 && open[d] < openings && open[d] !in closings)
    && (forall d, e :: d in open && e in open && d != e ==> open[d] != open[e])
    && NoRepeats(closings)
    && (forall i :: 0 <= i < |closings| ==> closings[i] < openings)
    && (forall n: nat :: n < openings ==> n in closings || exists d :: d in open && open[d] == n)
  }

  lemma OpenOne(open: map<int, nat>, openings: nat, closings: seq<nat>, fd: int)
    requires Books(open, openings, closings) && fd >= 0 && fd !in open
    ensures Books(open[fd := openings], openings + 1, closings)
  {
    var open' := open[fd := openings];
    forall n: nat | n < openings + 1 ensures n in closings || exists d :: d in open' && open'[d] == n {
      if n == openings {
        assert open'[fd] == n;
      } else if n !in closings {
        var d :| d in open && open[d] == n;
        assert open'[d] == n;
      }
    }
  }

  lemma CloseOne(open: map<int, nat>, openings: nat, closings: seq<nat>, fd: int)
    requires Books(open, openings, closings) && fd in open
    ensures Books(open - {fd}, openings, closings + [open[fd]])
  {
    var open', closings' := open - {fd}, closings + [open[fd]];
    forall n: nat | n < openings ensures n in closings' || exists d :: d in open' && open'[d] == n {
      if n !in closings {
        var d :| d in open && open[d] == n;
        if d == fd {
          assert closings'[|closings|] == n;
        } else {
          assert open'[d] == n;
        }
      }
    }
  }

  lemma DescriptorsAreNatural(open: map<int, nat>, openings: nat, closings: seq<nat>)
    requires Books(open, openings, closings)
    ensures forall d :: d in open ==> d >= 0
  {
  }

  /** One thing a program may do; objects are counted in the order in which they were made. */
  datatype Op =
    | OpenOp(fd: int)
    | ConstructOp(fd: int)
    | AssignOp(i: nat, fd: int)
    | MoveAssignOp(i: nat, j: nat)
    | MoveConstructOp(i: nat)
    | DupOp(i: nat, fd: int)
    | DestroyOp(i: nat)

  /** A process: its table of open descriptors, every opening it ever made, and the `FileDesc` objects
      that are alive.  A descriptor that no object holds is in the hands of the program as a number. */
  class Process {
    var open: map<int, nat>
    var openings: nat
    var closings: seq<nat>
    var alive: set<FileDesc>

    constructor ()
      ensures Valid() && alive == {} && open == map[] && openings == 0 && closings == []
    {
      open, openings, closings, alive := map[], 0, [], {};
    }

    /** Some living object holds the descriptor. */
    ghost predicate Held(d: int)
      reads this, alive
    {
      exists o :: o in alive && o.fd == d
    }

    /** Every object but those in `closed` holds an open descriptor, or none. */
    ghost predicate HoldOpen(closed: set<FileDesc>)
      reads this, alive
    {
      forall o :: o in alive && o !in closed && o.fd >= 0 ==> o.fd in open
    }

    /** No two objects hold the same descriptor. */
    ghost predicate HoldApart()
      reads this, alive
    {
      forall o, p :: o in alive && p in alive && o != p && o.fd >= 0 ==> o.fd != p.fd
    }

    ghost predicate Valid()
      reads this, alive
    {
      Books(open, openings, closings) && HoldOpen({}) && HoldApart()
    }

    /** A descriptor that an object may be given: none, or an open one that no object holds. */
    ghost predicate Free(fd: int)
      reads this, alive
    {
      fd < 0 || (fd in open && !Held(fd))
    }

    /** `open` or `dup` in the kernel: a number that is not in use. */
    method Open(fd: int)
      requires Valid() && fd >= 0 && fd !in open
      modifies this`open, this`openings
      ensures Valid() && Free(fd) && openings == old(openings) + 1
      ensures open == old(open)[fd := old(openings)]
    {
      OpenOne(open, openings, closings, fd);
      hide Books;
      open := open[fd := openings];
      openings := openings + 1;
    }

    /** `close`; the descriptor must be open, so nothing is closed twice. */
    method Close(fd: int)
      requires Books(open, openings, closings) && fd in open
      modifies this`open, this`closings
      ensures Books(open, openings, closings)
      ensures open == old(open) - {fd} && closings == old(closings) + [old(open)[fd]]
    {
      CloseOne(open, openings, closings, fd);
      closings := closings + [open[fd]];
      open := open - {fd};
    }

    /** The test and the close that the destructor and both assignments start with. */
    method CloseHeld(o: FileDesc)
      requires Valid() && o in alive
      modifies this`open, this`closings
      ensures Books(open, openings, closings) && HoldOpen({o}) && HoldApart()
      ensures o.fd >= 0 ==> o.fd in old(open) && closings == old(closings) + [old(open)[o.fd]]
      ensures o.fd < 0 ==> closings == old(closings)
      ensures open == old(open) - {o.fd}
    {
      DescriptorsAreNatural(open, openings, closings);
      hide Books;
      if o.fd >= 0 {
        Close(o.fd);
      }
    }

    /** `FileDesc (int fd)`: ownership stays single exactly when the descriptor is free. */
    method Construct(fd: int) returns (o: FileDesc)
      requires Valid()
      modifies this`alive
      ensures fresh(o) && alive == old(alive) + {o} && o.fd == fd
      ensures Valid() <==> old(Free(fd))
    {
      hide Books;
      o := new FileDesc(fd);
      alive := alive + {o};
    }

    /** `operator= (int fd)`, likewise: the object's own descriptor is not free either, for it is closed
        first. */
    method AssignInt(o: FileDesc, fd: int)
      requires Valid() && o in alive
      modifies this`open, this`closings, o
      ensures o.fd == fd && open == old(open) - {old(o.fd)}
      ensures old(o.fd) >= 0 ==> old(o.fd) in old(open) && closings == old(closings) + [old(open)[old(o.fd)]]
      ensures old(o.fd) < 0 ==> closings == old(closings)
      ensures Valid() <==> old(Free(fd))
    {
      hide Books;
      CloseHeld(o);
      o.fd := fd;
    }

    /** `operator= (FileDesc &&that)`; the two may be the same object, which then just closes. */
    method MoveAssign(o: FileDesc, that: FileDesc)
      requires Valid() && o in alive && that in alive
      modifies this`open, this`closings, o, that
      ensures Valid() && that.fd == -1 && open == old(open) - {old(o.fd)}
      ensures o != that ==> o.fd == old(that.fd)
      ensures old(o.fd) >= 0 ==> old(o.fd) in old(open) && closings == old(closings) + [old(open)[old(o.fd)]]
      ensures old(o.fd) < 0 ==> closings == old(closings)
    {
      hide Books;
      CloseHeld(o);
      o.fd := that.fd;
      that.fd := -1;
    }

    /** `FileDesc (FileDesc &&that)`. */
    method MoveConstruct(that: FileDesc) returns (o: FileDesc)
      requires Valid() && that in alive
      modifies this, that
      ensures Valid() && fresh(o) && alive == old(alive) + {o} && o.fd == old(that.fd) && that.fd == -1
      ensures open == old(open) && openings == old(openings) && closings == old(closings)
    {
      DescriptorsAreNatural(open, openings, closings);
      assert open - {-1} == open;
      hide Valid, Held;
      o := Construct(-1);
      MoveAssign(o, that);
    }

    /** `dup`; `fd` is what the kernel's `dup` returns, negative if it fails. */
    method Dup(that: FileDesc, fd: int) returns (o: FileDesc)
      requires Valid() && that in alive && fd !in open
      modifies this
      ensures Valid() && fresh(o) && alive == old(alive) + {o}
      ensures o.fd == (if that.fd >= 0 then fd else -1) && (o.fd >= 0 ==> o.fd != that.fd)
      ensures open == (if o.fd >= 0 then old(open)[fd := old(openings)] else old(open)) && closings == old(closings)
      ensures openings == old(openings) + if o.fd >= 0 then 1 else 0
    {
      hide Books;
      if that.fd >= 0 {
        if fd >= 0 {
          Open(fd);
        }
        o := Construct(fd);
      } else {
        o := Construct(-1);
      }
    }

    /** The destructor. */
    method Destroy(o: FileDesc)
      requires Valid() && o in alive
      modifies this
      ensures Valid() && alive == old(alive) - {o} && openings == old(openings) && open == old(open) - {o.fd}
      ensures o.fd >= 0 ==> o.fd in old(open) && closings == old(closings) + [old(open)[o.fd]]
      ensures o.fd < 0 ==> closings == old(closings)
    {
      hide Books;
      CloseHeld(o);
      alive := alive - {o};
    }

    /** Whether a number may be given to an object. */
    method IsFree(fd: int) returns (free: bool)
      ensures free <==> Free(fd)
    {
      if fd < 0 || fd !in open {
        return fd < 0;
      }
      var rest := alive;
      while rest != {}
        invariant rest <= alive && forall o :: o in alive && o !in rest ==> o.fd != fd
        decreases |rest|
      {
        var o :| o in rest;
        if o.fd == fd {
          return false;
        }
        rest := rest - {o};
      }
      return true;
    }

    /** The program may perform an operation: its objects are alive, a number that an object is given is
        free, and one that the kernel hands out is not in use. */
    ghost predicate May(op: Op, made: seq<FileDesc>)
      reads this, alive
    {
      match op
      case OpenOp(fd) => fd >= 0 && fd !in open
      case ConstructOp(fd) => Free(fd)
      case AssignOp(i, fd) => i < |made| && made[i] in alive && Free(fd)
      case MoveAssignOp(i, j) => i < |made| && j < |made| && made[i] in alive && made[j] in alive
      case MoveConstructOp(i) => i < |made| && made[i] in alive
      case DupOp(i, fd) => i < |made| && made[i] in alive && fd !in open
      case DestroyOp(i) => i < |made| && made[i] in alive
    }

    /** One operation, if the program may perform it. */
    method Perform(op: Op, made: seq<FileDesc>) returns (made': seq<FileDesc>)
      requires Valid() && forall o :: o in alive ==> o in made
      modifies this, alive
      ensures Valid() && (forall o :: o in alive ==> o in made') && made <= made'
      ensures forall o :: o in made' && o !in made ==> fresh(o)
      ensures old(closings) <= closings && old(openings) <= openings
      ensures !old(May(op, made)) ==> made' == made && alive == old(alive) && open == old(open)
      ensures old(May(op, made)) ==>
                match op
                case OpenOp(fd) => made' == made && alive == old(alive) && open == old(open)[fd := old(openings)]
                case ConstructOp(fd) =>
                  && |made'| == |made| + 1 && alive == old(alive) + {made'[|made|]} && made'[|made|].fd == fd
                  && open == old(open)
                case AssignOp(i, fd) =>
                  && made' == made && alive == old(alive) && made[i].fd == fd
                  && open == old(open) - {old(made[i].fd)}
                case MoveAssignOp(i, j) =>
                  && made' == made && alive == old(alive) && made[j].fd == -1
                  && (made[i] != made[j] ==> made[i].fd == old(made[j].fd))
                  && open == old(open) - {old(made[i].fd)}
                case MoveConstructOp(i) =>
                  && |made'| == |made| + 1 && alive == old(alive) + {made'[|made|]}
                  && made'[|made|].fd == old(made[i].fd) && made[i].fd == -1 && open == old(open)
                case DupOp(i, fd) =>
                  && |made'| == |made| + 1 && alive == old(alive) + {made'[|made|]}
                  && made'[|made|].fd == if old(made[i].fd) >= 0 then fd else -1
                case DestroyOp(i) =>
                  made' == made && alive == old(alive) - {made[i]} && open == old(open) - {old(made[i].fd)}
    {
      hide Books;
      made' := made;
      match op {
        case OpenOp(fd) =>
          if fd >= 0 && fd !in open {
            Open(fd);
          }
        case ConstructOp(fd) =>
          var free := IsFree(fd);
          if free {
            var o := Construct(fd);
            made' := made + [o];
          }
        case AssignOp(i, fd) =>
          var free := IsFree(fd);
          if i < |made| && made[i] in alive && free {
            AssignInt(made[i], fd);
          }
        case MoveAssignOp(i, j) =>
          if i < |made| && j < |made| && made[i] in alive && made[j] in alive {
            MoveAssign(made[i], made[j]);
          }
        case MoveConstructOp(i) =>
          if i < |made| && made[i] in alive {
            var o := MoveConstruct(made[i]);
            made' := made + [o];
          }
        case DupOp(i, fd) =>
          if i < |made| && made[i] in alive && fd !in open {
            var o := Dup(made[i], fd);
            made' := made + [o];
          }
        case DestroyOp(i) =>
          if i < |made| && made[i] in alive {
            Destroy(made[i]);
          }
      }
    }

    /** After any sequence of operations, what an object holds is open and held by no other, and every
        opening ever made is either open or has been closed exactly once. */
    method Run(ops: seq<Op>) returns (made: seq<FileDesc>)
      requires Valid() && alive == {}
      modifies this
      ensures Valid() && forall o :: o in alive ==> o in made
      ensures forall o, p :: o in alive && p in alive && o.fd == p.fd >= 0 ==> o == p && o.fd in open
      ensures NoRepeats(closings) && old(closings) <= closings
      ensures forall n: nat :: n in closings <==> n < openings && forall d :: d in open ==> open[d] != n
    {
      made := [];
      for i := 0 to |ops|
        invariant Valid() && old(closings) <= closings
        invariant (forall o :: o in alive ==> o in made) && (forall o :: o in made ==> fresh(o))
      {
        made := Perform(ops[i], made);
      }
    }

    /** When the last object is gone, exactly the descriptors that were held are closed, and no opening
        was ever closed twice. */
    method DestroyAll()
      requires Valid()
      modifies this
      ensures Valid() && alive == {} && openings == old(openings)
      ensures forall d :: d in open <==> d in old(open) && !old(Held(d))
      ensures NoRepeats(closings)
      ensures forall n: nat :: n in closings <==> n < openings && forall d :: d in open ==> open[d] != n
    {
      while alive != {}
        invariant Valid() && openings == old(openings) && alive <= old(alive)
        invariant forall d :: d in open <==> d in old(open) && (old(Held(d)) ==> Held(d))
        decreases |alive|
      {
        var o :| o in alive;
        Destroy(o);
      }
    }
  }
}
