/** Whether what is printed of a call is what the caller passed: the argument positions are those of
    the system call's own signature, as the user side prints them. */
module Fidelity {
  import opened Basics
  import opened SyscallRecords
  import opened Capture
  import opened Bits
  import opened Numerals
  import opened CallText
  import opened UserMemory

  /** `openat (dfd, pathname, ...)`, `openat2 (dfd, pathname, ...)`, `execve (filename, ...)`. */
  function PathArgument(nr: int): (k: Option<nat>)
    ensures k.Some? ==> k.value < 6
  {
    match nr
    case 56 => Some(1)     // openat
    case 437 => Some(1)    // openat2
    case 221 => Some(0)    // execve
    case _ => None
  }

  /** `connect (sockfd, addr, addrlen)`, `bind (sockfd, addr, addrlen)`,
      `sendto (sockfd, buf, len, flags, dest_addr, addrlen)`: the address and its length. */
  function AddressArguments(nr: int): (r: Option<(nat, nat)>)
    ensures r.Some? ==> r.value.0 < 6 && r.value.1 < 6
  {
    match nr
    case 203 => Some((1, 2))    // connect
    case 200 => Some((1, 2))    // bind
    case 206 => Some((4, 5))    // sendto
    case _ => None
  }

  // ---------------------------------------------------------------- paths

  /** The text behind the call's path argument, if the call has one and reading it succeeds. */
  function PathSeen(input: EnterInput): Option<string> {
    match PathArgument(input.nr)
    case None => None
    case Some(k) =>
      var p := input.args[k];
      if p != 0 && p in input.path && input.path[p].StrCopied? then Some(Chars(input.path[p].text)) else None
  }

  /** The string part of the record, from what the read at the call's path argument returns. */
  lemma PathRecorded(input: EnterInput)
    ensures var s := Captured(input);
            match PathArgument(input.nr)
            case None => s.strLen == 0
            case Some(k) =>
              var p := input.args[k];
              if p != 0 && p in input.path && input.path[p].StrCopied?
              then s.strLen == |input.path[p].text| + 1 && s.str[..s.strLen - 1] == input.path[p].text
              else s.strLen == 0
  {
    AddressLeavesString(CaptureString(Registers(input), input), input);
    hide CaptureSockaddr, Zeros;
  }

  lemma AddressLeavesString(s: EnterState, input: EnterInput)
    ensures CaptureSockaddr(s, input).strLen == s.strLen && CaptureSockaddr(s, input).str == s.str
  {
    hide Load16, Load32;
  }

  /** The path that the user side finds in an event is the one behind the caller's path argument. */
  lemma PathFidelity(input: EnterInput, id: U64, ret: I64)
    ensures ArgString(Complete(Captured(input), id, ret)) == PathSeen(input)
  {
    hide Captured, Chars, ArgString, StringShape, AddressShape, PathArgument;
    PathRecorded(input);
    CapturedShape(input);
    ArgStringOfEmitted(Complete(Captured(input), id, ret));
  }

  /** On memory that holds still, that is the caller's C string if it is shorter than 256 bytes, and its
      first 255 bytes if not. */
  lemma PathIsString(input: EnterInput, m: Memory, text: seq<U8>, id: U64, ret: I64)
    requires PathArgument(input.nr).Some? && input.args[PathArgument(input.nr).value] != 0 && Sees(input, m)
    requires StringAt(m, input.args[PathArgument(input.nr).value], text)
    ensures var printed := ArgString(Complete(Captured(input), id, ret));
            && printed == Some(Chars(text[..Min(|text|, 255)]))
            && (printed == Some(Chars(text)) <==> |text| < 256)
  {
    var p := input.args[PathArgument(input.nr).value];
    StringCopied(m, p, 256, text);
    assert ReadString(input, p) == StrCopied(text[..Min(|text|, 255)]);
    PathFidelity(input, id, ret);
    hide ArgString, Captured, Sees, StringAt, Chars;
    if |text| < 256 {
      assert text[..Min(|text|, 255)] == text;
    }
  }

  // ---------------------------------------------------------------- addresses

  /** A `sockaddr_in`: the port and the address in network order. */
  function Text4(b: SockaddrIn): string {
    "{sa_family=AF_INET, sin_port=" + Unsigned(0x100 * b[2] as int + b[3] as int) + ", sin_addr=\""
    + (Unsigned(b[4]) + "." + Unsigned(b[5]) + "." + Unsigned(b[6]) + "." + Unsigned(b[7])) + "\"}"
  }

  /** A `sockaddr_in6`: the port in network order, the sixteen bytes of the address, the scope in the
      machine's order. */
  function Text6(b: SockaddrIn6, ntop: Ntop): string {
    var port := Unsigned(0x100 * b[2] as int + b[3] as int);
    match ntop(b[8..24])
    case None => "{sa_family=AF_INET6, sin6_port=" + port + ", sin6_addr=?}"
    case Some(t) =>
      "{sa_family=AF_INET6, sin6_port=" + port + ", sin6_addr=\"" + t + "\", sin6_scope_id="
      + Unsigned(b[24] as int + 0x100 * b[25] as int + 0x1_0000 * b[26] as int + 0x100_0000 * b[27] as int) + "}"
  }

  /** The text of the socket address of `len` bytes at address `p`. */
  function AddressSeen(input: EnterInput, p: U64, len: U64, ntop: Ntop): string {
    if p == 0 || p !in input.family then "NULL"
    else if input.family[p] == [2, 0] && len >= 16 && p in input.in4 then Text4(input.in4[p])
    else if input.family[p] == [10, 0] && len >= 28 && p in input.in6 then Text6(input.in6[p], ntop)
    else "NULL"
  }

  /** The address text that is printed for a call. */
  function AddressPrinted(input: EnterInput, id: U64, ret: I64, ntop: Ntop): string {
    SockaddrText(Complete(Captured(input), id, ret), ntop)
  }

  lemma PortBytes(x: int, y: int)
    requires 0 <= x < 0x100 && 0 <= y < 0x100
    ensures Ntohs(x + 0x100 * y) == 0x100 * x + y
  {
    DivModOf(x + 0x100 * y, 0x100, y, x);
  }

  lemma AddressBytes(w: int, x: int, y: int, z: int)
    requires 0 <= w < 0x100 && 0 <= x < 0x100 && 0 <= y < 0x100 && 0 <= z < 0x100
    ensures Dotted(w + 0x100 * x + 0x1_0000 * y + 0x100_0000 * z)
            == Unsigned(w) + "." + Unsigned(x) + "." + Unsigned(y) + "." + Unsigned(z)
  {
    hide Unsigned;
    var a := w + 0x100 * x + 0x1_0000 * y + 0x100_0000 * z;
    DivModOf(a, 0x100, x + 0x100 * y + 0x1_0000 * z, w);
    DivModOf(x + 0x100 * y + 0x1_0000 * z, 0x100, y + 0x100 * z, x);
    DivModOf(a, 0x1_0000, y + 0x100 * z, w + 0x100 * x);
    DivModOf(y + 0x100 * z, 0x100, z, y);
    DivModOf(a, 0x100_0000, z, w + 0x100 * x + 0x1_0000 * y);
  }

  lemma Text4Is(b: SockaddrIn)
    ensures Inet4Text(Load16(b, 2), Load32(b, 4)) == Text4(b)
  {
    hide Unsigned, Ntohs, Dotted;
    PortBytes(b[2], b[3]);
    AddressBytes(b[4], b[5], b[6], b[7]);
  }

  lemma Text6Is(b: SockaddrIn6, ntop: Ntop)
    ensures Inet6Text(Load16(b, 2), ntop(b[8..24]), Load32(b, 24)) == Text6(b, ntop)
  {
    hide Unsigned, Ntohs;
    PortBytes(b[2], b[3]);
  }

  /** The address part of the record, from what the reads at the second argument return. */
  lemma AddressRecorded(input: EnterInput)
    requires TakesSockaddr(input.nr)
    ensures var s := Captured(input);
            var p := input.args[1];
            var len := if input.nr == NR_SENDTO then input.args[5] else input.args[2];
            if p != 0 && p in input.family && input.family[p] == [2, 0] && len >= 16 && p in input.in4 then
              && s.saValid && s.saFamily == AF_INET
              && s.saPort == Load16(input.in4[p], 2) && s.saAddr4 == Load32(input.in4[p], 4)
            else if p != 0 && p in input.family && input.family[p] == [10, 0] && len >= 28 && p in input.in6 then
              && s.saValid && s.saFamily == AF_INET6
              && s.saPort == Load16(input.in6[p], 2) && s.saAddr6 == input.in6[p][8..24]
              && s.saScopeId == Load32(input.in6[p], 24)
            else !s.saValid
  {
    AddressCapturedIff(input);
    if input.args[1] in input.family {
      FamilyBytes(input.family[input.args[1]]);
    }
    hide Overwrite, Load16, Load32;
  }

  /** What the code does, for all three calls: it prints the address behind the second argument. */
  lemma PrintsSecondArgument(input: EnterInput, id: U64, ret: I64, ntop: Ntop)
    requires TakesSockaddr(input.nr)
    ensures AddressPrinted(input, id, ret, ntop)
            == AddressSeen(input, input.args[1], if input.nr == NR_SENDTO then input.args[5] else input.args[2], ntop)
  {
    AddressRecorded(input);
    hide Captured, Load16, Load32, Inet4Text, Inet6Text, Text4, Text6;
    var p := input.args[1];
    if p in input.in4 {
      Text4Is(input.in4[p]);
    }
    if p in input.in6 {
      Text6Is(input.in6[p], ntop);
    }
  }

  /** For `connect` and `bind` that is the address the caller passed. */
  lemma AddressFidelity(input: EnterInput, id: U64, ret: I64, ntop: Ntop)
    requires input.nr == NR_CONNECT || input.nr == NR_BIND
    ensures var (k, n) := AddressArguments(input.nr).value;
            AddressPrinted(input, id, ret, ntop) == AddressSeen(input, input.args[k], input.args[n], ntop)
  {
    hide AddressPrinted, AddressSeen;
    PrintsSecondArgument(input, id, ret, ntop);
  }

  // ---------------------------------------------------------------- the address of sendto

  /** `sendto` with these arguments prints its destination, whatever memory holds. */
  ghost predicate SendtoFaithful(args: Args, id: U64, ret: I64, ntop: Ntop) {
    forall input: EnterInput, m: Memory ::
      input.nr == NR_SENDTO && input.args == args && Sees(input, m) ==>
      AddressPrinted(input, id, ret, ntop) == AddressSeen(input, args[4], args[5], ntop)
  }

  const SOMEWHERE: SockaddrIn := [2, 0, 0, 0, 0, 0, 0, 0, 0, 0, 0, 0, 0, 0, 0, 0]

  /** A memory that holds one IPv4 address, at `q`, and nothing else. */
  ghost function Lone(q: U64): Memory {
    Place(map[], q, SOMEWHERE)
  }

  /** It is seen at `q` and nowhere else. */
  lemma LoneAddress(input: EnterInput, q: U64, p: U64, len: U64, ntop: Ntop)
    requires Sees(input, Lone(q)) && q != 0 && len >= 16 && p != q
    ensures AddressSeen(input, q, len, ntop) != "NULL" && AddressSeen(input, p, len, ntop) == "NULL"
  {
    hide Unsigned;
    var m := Lone(q);
    assert Mapped(m, q, 2) && Mapped(m, q, 16);
    assert input.family[q] == [2, 0];
    assert AddressSeen(input, q, len, ntop) == Text4(input.in4[q]);
    assert AddressSeen(input, q, len, ntop)[0] == '{';
    if p < q {
      assert p !in m;
    } else {
      assert p + 15 !in m;
    }
    assert !Mapped(m, p, 16) && !Mapped(m, p, 28);
  }

  /** The tracer prints `sendto`'s destination for every memory exactly when the destination is passed
      in the buffer's place as well, or when no address is long enough to be read. */
  lemma SendtoFaithfulIff(args: Args, id: U64, ret: I64, ntop: Ntop)
    ensures SendtoFaithful(args, id, ret, ntop) <==> args[1] == args[4] || args[5] < 16
  {
    hide AddressPrinted, Unsigned;
    if args[1] == args[4] || args[5] < 16 {
      forall input: EnterInput, m: Memory | input.nr == NR_SENDTO && input.args == args && Sees(input, m)
        ensures AddressPrinted(input, id, ret, ntop) == AddressSeen(input, args[4], args[5], ntop)
      {
        PrintsSecondArgument(input, id, ret, ntop);
      }
    } else {
      hide Sees, AddressSeen;
      var q, p := if args[4] != 0 then args[4] else args[1], if args[4] != 0 then args[1] else args[4];
      var input := CallOn(NR_SENDTO, args, Lone(q));
      CallSees(NR_SENDTO, args, Lone(q));
      LoneAddress(input, q, p, args[5], ntop);
      PrintsSecondArgument(input, id, ret, ntop);
      assert !SendtoFaithful(args, id, ret, ntop);
    }
  }

  /** `sendto (3, 0x1000, 16, 0, 0x2000, 16)` with data in the buffer that looks like an address. */
  const ARGS: Args := [3, 0x1000, 16, 0, 0x2000, 16]
  const BUFFER: SockaddrIn := [2, 0, 0, 80, 10, 0, 0, 1, 0, 0, 0, 0, 0, 0, 0, 0]
  const DESTINATION: SockaddrIn := [2, 0, 0, 53, 10, 0, 0, 2, 0, 0, 0, 0, 0, 0, 0, 0]

  ghost function ExampleMemory(): Memory {
    Place(Place(map[], 0x2000, DESTINATION), 0x1000, BUFFER)
  }

  lemma ExampleBytes()
    ensures var m := ExampleMemory();
            && Mapped(m, 0x1000, 16) && BytesAt(m, 0x1000, 16) == BUFFER
            && Mapped(m, 0x2000, 16) && BytesAt(m, 0x2000, 16) == DESTINATION
  {
    hide Place, Mapped, BytesAt;
    PlacedBytes(map[], 0x2000, DESTINATION);
    PlacedBytes(Place(map[], 0x2000, DESTINATION), 0x1000, BUFFER);
    PlacedElsewhere(Place(map[], 0x2000, DESTINATION), 0x1000, BUFFER, 0x2000, 16);
  }

  /** A whole address at `a` is seen there. */
  lemma WholeAddressSeen(input: EnterInput, m: Memory, a: U64, ntop: Ntop)
    requires Sees(input, m) && a != 0 && Mapped(m, a, 16) && BytesAt(m, a, 16)[..2] == [2, 0]
    ensures AddressSeen(input, a, 16, ntop) == Text4(BytesAt(m, a, 16))
  {
    hide Text4, Text6;
    assert Mapped(m, a, 2);
    assert BytesAt(m, a, 2) == BytesAt(m, a, 16)[..2];
  }

  lemma ExampleShown(input: EnterInput, id: U64, ret: I64, ntop: Ntop)
    requires input.nr == NR_SENDTO && input.args == ARGS && Sees(input, ExampleMemory())
    ensures AddressSeen(input, ARGS[4], ARGS[5], ntop) == Text4(DESTINATION)
    ensures AddressPrinted(input, id, ret, ntop) == Text4(BUFFER)
  {
    ExampleBytes();
    hide AddressPrinted, Text4, Sees, ExampleMemory, AddressSeen;
    WholeAddressSeen(input, ExampleMemory(), 0x1000, ntop);
    WholeAddressSeen(input, ExampleMemory(), 0x2000, ntop);
    PrintsSecondArgument(input, id, ret, ntop);
  }

  /** The buffer is printed in the destination's stead. */
  lemma SendtoPrintsItsBuffer(id: U64, ret: I64, ntop: Ntop)
    ensures var input := CallOn(NR_SENDTO, ARGS, ExampleMemory());
            && AddressSeen(input, ARGS[4], ARGS[5], ntop) == Text4(DESTINATION)
            && AddressPrinted(input, id, ret, ntop) == Text4(BUFFER) != Text4(DESTINATION)
  {
    hide AddressPrinted, AddressSeen, Text4, Sees, ExampleMemory;
    TextsDiffer();
    CallSees(NR_SENDTO, ARGS, ExampleMemory());
    ExampleShown(CallOn(NR_SENDTO, ARGS, ExampleMemory()), id, ret, ntop);
  }

  lemma TextsDiffer()
    ensures Text4(BUFFER) != Text4(DESTINATION)
  {
    PortDigits();
    hide Unsigned;
    var n := |"{sa_family=AF_INET, sin_port="|;
    assert Text4(BUFFER)[n] == Unsigned(80)[0];
    assert Text4(DESTINATION)[n] == Unsigned(53)[0];
  }

  lemma PortDigits()
    ensures |Unsigned(80)| > 0 && |Unsigned(53)| > 0 && Unsigned(80)[0] == '8' && Unsigned(53)[0] == '5'
  {
    assert Digits(8, 10) == "8" && Digits(5, 10) == "5";
    assert 80 / 10 == 8 && 53 / 10 == 5;
  }
}
