/** The user side of the tracer: the text that it makes of an event. */
module CallText {
  import opened Basics
  import opened SyscallRecords
  import opened Capture
  import opened Numerals
  import opened Buffers
  import opened OpenFlags

  /** What `inet_ntop` makes of an IPv6 address: at most 45 characters. */
  type Ip6Text = s: string | |s| < 46 && NUL !in s witness ""

  /** The name that `syscall_name` gives, without `sys_`, and the one `futex_op_name` gives; no entry of
      the tables is longer. */
  type ShortName = s: string | |s| <= 29 && NUL !in s witness ""
  type FutexName = s: string | |s| <= 21 && NUL !in s witness ""

  /** The text that `inet_ntop` makes of an IPv6 address, if it makes one. */
  type Ntop = Addr6 -> Option<Ip6Text>

  /** What the formatter gets from the C library and from its tables: the values in `fcntl.h`, the
      behaviour of `inet_ntop`, and the names. */
  datatype Library = Library(fcntl: Fcntl, ntop: Ntop, name: ShortName, futexOp: FutexName)

  function Chars(b: seq<U8>): (s: string)
    ensures |s| == |b|
    ensures forall i :: 0 <= i < |b| ==> s[i] == b[i] as char
  {
    if b == [] then "" else Chars(b[..|b| - 1]) + [b[|b| - 1] as char]
  }

  /** `arg_string`: the C string in the event, if the kernel side captured one. */
  function ArgString(e: Event): Option<string> {
    if 0 < e.strLen <= 256 then Some(CString(Chars(e.str))) else None
  }

  /** `ntohs` on a little-endian machine. */
  function Ntohs(p: U16): U16 {
    p % 0x100 * 0x100 + p / 0x100
  }

  /** `inet_ntop (AF_INET, ...)`: the four bytes of the address in memory order. */
  function Dotted(a: U32): string {
    Unsigned(a % 0x100) + "." + Unsigned(a / 0x100 % 0x100) + "." + Unsigned(a / 0x1_0000 % 0x100) + "."
    + Unsigned(a / 0x100_0000)
  }

  function Inet4Text(port: U16, addr: U32): string {
    "{sa_family=AF_INET, sin_port=" + Unsigned(Ntohs(port)) + ", sin_addr=\"" + Dotted(addr) + "\"}"
  }

  function Inet6Text(port: U16, ip: Option<Ip6Text>, scope: U32): string {
    match ip
    case None => "{sa_family=AF_INET6, sin6_port=" + Unsigned(Ntohs(port)) + ", sin6_addr=?}"
    case Some(t) => "{sa_family=AF_INET6, sin6_port=" + Unsigned(Ntohs(port)) + ", sin6_addr=\"" + t
                    + "\", sin6_scope_id=" + Unsigned(scope) + "}"
  }

  /** The last resort of `format_sockaddr`. */
  function OtherFamilyText(family: U16): string {
    "{sa_family=" + Unsigned(family) + "}"
  }

  function SockaddrText(e: Event, ntop: Ntop): string {
    if !e.saValid then "NULL"
    else if e.saFamily == AF_INET then Inet4Text(e.saPort, e.saAddr4)
    else if e.saFamily == AF_INET6 then Inet6Text(e.saPort, ntop(e.saAddr6), e.saScopeId)
    else OtherFamilyText(e.saFamily)
  }

  lemma DottedLength(a: U32)
    ensures |Dotted(a)| <= 15
  {
    hide Unsigned;
    UnsignedLength(a % 0x100);
    UnsignedLength(a / 0x100 % 0x100);
    UnsignedLength(a / 0x1_0000 % 0x100);
    UnsignedLength(a / 0x100_0000);
  }

  lemma Inet4Length(port: U16, addr: U32)
    ensures |Inet4Text(port, addr)| < 192
  {
    hide Unsigned, Dotted, Ntohs;
    UnsignedLength(Ntohs(port));
    DottedLength(addr);
  }

  lemma Inet6Length(port: U16, ip: Option<Ip6Text>, scope: U32)
    ensures |Inet6Text(port, ip, scope)| < 192
  {
    hide Unsigned, Ntohs;
    UnsignedLength(Ntohs(port));
    UnsignedLength(scope);
  }

  /** The address text always fits into its 192 bytes, whatever the event. */
  lemma SockaddrLength(e: Event, ntop: Ntop)
    ensures |SockaddrText(e, ntop)| < 192
  {
    hide Inet4Text, Inet6Text, Unsigned;
    Inet4Length(e.saPort, e.saAddr4);
    Inet6Length(e.saPort, ntop(e.saAddr6), e.saScopeId);
    UnsignedLength(e.saFamily);
  }

  // ---------------------------------------------------------------- one line per call

  /** C's conversion of an unsigned 64-bit word to `long long`. */
  function ToI64(x: U64): I64 {
    if x < 0x8000_0000_0000_0000 then x else x - 0x1_0000_0000_0000_0000
  }

  /** A label and a value, followed by the rest of the line. */
  function Field(tag: string, value: string, rest: string): string {
    tag + (value + rest)
  }

  function OpenatText(e: Event, lib: Library, flags: string): string {
    match ArgString(e)
    case Some(s) =>
      lib.name + Field("(dfd=", Signed(ToI64(e.args[0])),
                 Field(", pathname=\"", s,
                 Field("\", flags=", flags,
                 Field(", mode=", SharpOctal(e.args[3]), ")"))))
    case None =>
      lib.name + Field("(dfd=", Signed(ToI64(e.args[0])),
                 Field(", pathname=", SharpHex(e.args[1]),
                 Field(", flags=", flags,
                 Field(", mode=", SharpOctal(e.args[3]), ")"))))
  }

  function Openat2Text(e: Event, lib: Library): string {
    match ArgString(e)
    case Some(s) =>
      lib.name + Field("(dfd=", Signed(ToI64(e.args[0])),
                 Field(", pathname=\"", s,
                 Field("\", how=", SharpHex(e.args[2]),
                 Field(", size=", Unsigned(e.args[3]), ")"))))
    case None =>
      lib.name + Field("(dfd=", Signed(ToI64(e.args[0])),
                 Field(", pathname=", SharpHex(e.args[1]),
                 Field(", how=", SharpHex(e.args[2]),
                 Field(", size=", Unsigned(e.args[3]), ")"))))
  }

  function ExecveText(e: Event, lib: Library): string {
    match ArgString(e)
    case Some(s) =>
      lib.name + Field("(filename=\"", s,
                 Field("\", argv=", SharpHex(e.args[1]),
                 Field(", envp=", SharpHex(e.args[2]), ")")))
    case None =>
      lib.name + Field("(filename=", SharpHex(e.args[0]),
                 Field(", argv=", SharpHex(e.args[1]),
                 Field(", envp=", SharpHex(e.args[2]), ")")))
  }

  function SendtoText(e: Event, lib: Library, addr: string): string {
    lib.name + Field("(sockfd=", Unsigned(e.args[0]),
               Field(", buf=", SharpHex(e.args[1]),
               Field(", len=", Unsigned(e.args[2]),
               Field(", flags=", SharpHex(e.args[3]),
               Field(", dest_addr=", addr,
               Field(", addrlen=", Unsigned(e.args[5]), ")"))))))
  }

  function ConnectText(e: Event, lib: Library, addr: string): string {
    lib.name + Field("(sockfd=", Unsigned(e.args[0]),
               Field(", addr=", addr,
               Field(", addrlen=", Unsigned(e.args[2]), ")")))
  }

  function FutexText(e: Event, lib: Library): string {
    lib.name + Field("(uaddr=", SharpHex(e.args[0]),
               Field(", op=", lib.futexOp,
               Field("(", SharpHex(e.args[1]),
               Field("), val=", Unsigned(e.args[2]),
               Field(", timeout/uaddr2=", SharpHex(e.args[3]),
               Field(", val3=", SharpHex(e.args[4]), ")"))))))
  }

  function EpollText(e: Event, lib: Library): string {
    lib.name + Field("(epfd=", Unsigned(e.args[0]),
               Field(", events=", SharpHex(e.args[1]),
               Field(", maxevents=", Unsigned(e.args[2]),
               Field(", timeout=", Signed(ToI64(e.args[3])),
               Field(", sigmask=", SharpHex(e.args[4]),
               Field(", sigsetsize=", Unsigned(e.args[5]), ")"))))))
  }

  function TransferText(e: Event, lib: Library): string {
    lib.name + Field("(fd=", Unsigned(e.args[0]),
               Field(", buf=", SharpHex(e.args[1]),
               Field(", count=", Unsigned(e.args[2]), ")")))
  }

  function IoctlText(e: Event, lib: Library): string {
    lib.name + Field("(fd=", Unsigned(e.args[0]),
               Field(", cmd=", SharpHex(e.args[1]),
               Field(", arg=", SharpHex(e.args[2]), ")")))
  }

  function RawText(e: Event, lib: Library): string {
    lib.name + Field("(", SharpHex(e.args[0]),
               Field(", ", SharpHex(e.args[1]),
               Field(", ", SharpHex(e.args[2]),
               Field(", ", SharpHex(e.args[3]),
               Field(", ", SharpHex(e.args[4]),
               Field(", ", SharpHex(e.args[5]), ")"))))))
  }

  /** The text that `format_syscall_args` means to print. */
  function LineOf(e: Event, lib: Library): string {
    var nr := e.syscallId;
    if nr == NR_READ || nr == NR_WRITE then TransferText(e, lib)
    else if nr == NR_IOCTL then IoctlText(e, lib)
    else if nr == NR_FUTEX then FutexText(e, lib)
    else if nr == NR_OPENAT then OpenatText(e, lib, FlagText(lib.fcntl, e.args[2] as bv64))
    else if nr == NR_OPENAT2 then Openat2Text(e, lib)
    else if nr == NR_EXECVE then ExecveText(e, lib)
    else if nr == NR_CONNECT || nr == NR_BIND then ConnectText(e, lib, SockaddrText(e, lib.ntop))
    else if nr == NR_SENDTO then SendtoText(e, lib, SockaddrText(e, lib.ntop))
    else if nr == NR_EPOLL_PWAIT then EpollText(e, lib)
    else RawText(e, lib)
  }

  method FormatSockaddr(e: Event, ntop: Ntop, buf: array<char>)
    requires buf.Length == 192
    modifies buf
    ensures Buffers.Holds(buf, SockaddrText(e, ntop))
  {
    SockaddrLength(e, ntop);
    hide Inet4Text, Inet6Text, OtherFamilyText;
    if !e.saValid {
      Print(buf, "NULL");
    } else if e.saFamily == AF_INET {
      Print(buf, Inet4Text(e.saPort, e.saAddr4));
    } else if e.saFamily == AF_INET6 {
      Print(buf, Inet6Text(e.saPort, ntop(e.saAddr6), e.saScopeId));
    } else {
      Print(buf, OtherFamilyText(e.saFamily));
    }
  }

  /** What a buffer holds after a text is printed into it, cut off if need be. */
  ghost predicate Shows(buf: array<char>, text: string)
    reads buf
  {
    buf.Length > 0 && Buffers.Holds(buf, text[..Min(|text|, buf.Length - 1)])
  }

  method PrintLine(out: array<char>, text: string)
    requires out.Length == 512
    modifies out
    ensures Shows(out, text)
  {
    var n := Snprintf(out, 0, 512, text);
  }

  /** The line goes through the two auxiliary buffers unharmed. */
  method FormatSyscallArgs(e: Event, lib: Library, out: array<char>)
    requires out.Length == 512
    modifies out
    ensures Shows(out, LineOf(e, lib))
  {
    hide TransferText, IoctlText, FutexText, OpenatText, Openat2Text, ExecveText, ConnectText, SendtoText, EpollText;
    hide RawText, Shows, FlagText, SockaddrText;
    var nr := e.syscallId;
    if nr == NR_READ || nr == NR_WRITE {
      PrintLine(out, TransferText(e, lib));
    } else if nr == NR_IOCTL {
      PrintLine(out, IoctlText(e, lib));
    } else if nr == NR_FUTEX {
      PrintLine(out, FutexText(e, lib));
    } else if nr == NR_OPENAT {
      var flagbuf := new char[256];
      FormatOpenatFlags(lib.fcntl, e.args[2] as bv64, flagbuf);
      FlagTextHasNoNul(lib.fcntl, e.args[2] as bv64);
      HoldsReads(flagbuf, FlagText(lib.fcntl, e.args[2] as bv64));
      PrintLine(out, OpenatText(e, lib, CString(flagbuf[..])));
    } else if nr == NR_OPENAT2 {
      PrintLine(out, Openat2Text(e, lib));
    } else if nr == NR_EXECVE {
      PrintLine(out, ExecveText(e, lib));
    } else if nr == NR_CONNECT || nr == NR_BIND || nr == NR_SENDTO {
      var addrbuf := new char[192];
      FormatSockaddr(e, lib.ntop, addrbuf);
      SockaddrHasNoNul(e, lib.ntop);
      HoldsReads(addrbuf, SockaddrText(e, lib.ntop));
      if nr == NR_SENDTO {
        PrintLine(out, SendtoText(e, lib, CString(addrbuf[..])));
      } else {
        PrintLine(out, ConnectText(e, lib, CString(addrbuf[..])));
      }
    } else if nr == NR_EPOLL_PWAIT {
      PrintLine(out, EpollText(e, lib));
    } else {
      PrintLine(out, RawText(e, lib));
    }
  }

  lemma UnsignedHasNoNul(n: nat)
    ensures NUL !in Unsigned(n)
  {
    DigitsAreDigits(n, 10);
  }

  lemma DottedHasNoNul(a: U32)
    ensures NUL !in Dotted(a)
  {
    hide Unsigned;
    UnsignedHasNoNul(a % 0x100);
    UnsignedHasNoNul(a / 0x100 % 0x100);
    UnsignedHasNoNul(a / 0x1_0000 % 0x100);
    UnsignedHasNoNul(a / 0x100_0000);
  }

  lemma Inet4HasNoNul(port: U16, addr: U32)
    ensures NUL !in Inet4Text(port, addr)
  {
    hide Unsigned, Dotted, Ntohs;
    UnsignedHasNoNul(Ntohs(port));
    DottedHasNoNul(addr);
  }

  lemma Inet6HasNoNul(port: U16, ip: Option<Ip6Text>, scope: U32)
    ensures NUL !in Inet6Text(port, ip, scope)
  {
    hide Unsigned, Ntohs;
    UnsignedHasNoNul(Ntohs(port));
    UnsignedHasNoNul(scope);
    var head := "{sa_family=AF_INET6, sin6_port=" + Unsigned(Ntohs(port));
    assert NUL !in head;
    match ip
    case None => assert Inet6Text(port, ip, scope) == head + ", sin6_addr=?}";
    case Some(t) =>
      var more := ", sin6_addr=\"" + t + "\", sin6_scope_id=";
      assert NUL !in more && NUL !in head + more;
      assert Inet6Text(port, ip, scope) == head + more + Unsigned(scope) + "}";
  }

  lemma SockaddrHasNoNul(e: Event, ntop: Ntop)
    ensures NUL !in SockaddrText(e, ntop)
  {
    hide Unsigned, Inet4Text, Inet6Text;
    UnsignedHasNoNul(e.saFamily);
    Inet4HasNoNul(e.saPort, e.saAddr4);
    Inet6HasNoNul(e.saPort, ntop(e.saAddr6), e.saScopeId);
  }

  // ---------------------------------------------------------------- events from the kernel side

  /** What holds of every event that the kernel side submits. */
  ghost predicate Emitted(e: Event) {
    && StringShape(e.syscallId, e.str, e.strLen)
    && AddressShape(e.syscallId, e.saFamily, e.saAddr4, e.saAddr6, e.saScopeId, e.saValid)
  }

  /** `arg_string` gives text exactly when something was captured, which happens only for calls that
      take a path; the text is the captured bytes, terminated where `str_len` says. */
  lemma ArgStringOfEmitted(e: Event)
    requires Emitted(e)
    ensures ArgString(e).Some? <==> e.strLen != 0
    ensures ArgString(e).Some? ==>
              && TakesPath(e.syscallId)
              && 0 < e.strLen <= 256
              && |ArgString(e).value| == e.strLen - 1
              && ArgString(e).value == Chars(e.str[..e.strLen - 1])
  {
    if e.strLen != 0 {
      var text := e.str[..e.strLen - 1];
      assert NUL !in Chars(text) by {
        forall i | 0 <= i < |text| ensures Chars(text)[i] != NUL {
          assert text[i] in text;
        }
      }
      CStringIs(Chars(e.str), Chars(text));
    }
  }

  /** The last resort of `format_sockaddr` is never reached. */
  lemma OtherFamilyNeverPrinted(e: Event, ntop: Ntop)
    requires Emitted(e)
    ensures SockaddrText(e, ntop) in {"NULL", Inet4Text(e.saPort, e.saAddr4), Inet6Text(e.saPort, ntop(e.saAddr6), e.saScopeId)}
    ensures e.saValid && e.saFamily == AF_INET ==> e.saAddr6 == Zeros(16) && e.saScopeId == 0
    ensures e.saValid && e.saFamily == AF_INET6 ==> e.saAddr4 == 0
  {
    hide Inet4Text, Inet6Text, OtherFamilyText;
  }

  lemma NumberLengths(e: Event)
    ensures forall i :: 0 <= i < 6 ==>
              && |Unsigned(e.args[i])| <= 20 && |SharpHex(e.args[i])| <= 18
              && |SharpOctal(e.args[i])| <= 23 && |Signed(ToI64(e.args[i]))| <= 20
  {
    hide Unsigned, SharpHex, SharpOctal, Signed;
    forall i | 0 <= i < 6
      ensures && |Unsigned(e.args[i])| <= 20 && |SharpHex(e.args[i])| <= 18
              && |SharpOctal(e.args[i])| <= 23 && |Signed(ToI64(e.args[i]))| <= 20
    {
      UnsignedLength(e.args[i]);
      SharpHexLength(e.args[i]);
      SharpOctalLength(e.args[i]);
      SignedLength(ToI64(e.args[i]));
    }
  }

  lemma PathLinesFit(e: Event, lib: Library, flags: string)
    requires Emitted(e) && |flags| <= 150
    ensures |OpenatText(e, lib, flags)| < 512 && |Openat2Text(e, lib)| < 512 && |ExecveText(e, lib)| < 512
  {
    ArgStringOfEmitted(e);
    NumberLengths(e);
    hide Unsigned, SharpHex, SharpOctal, Signed, ToI64, ArgString, Emitted, Chars;
  }

  lemma AddressLinesFit(e: Event, lib: Library, addr: string)
    requires |addr| < 192
    ensures |SendtoText(e, lib, addr)| < 512 && |ConnectText(e, lib, addr)| < 512
  {
    NumberLengths(e);
    hide Unsigned, SharpHex, SharpOctal, Signed, ToI64;
  }

  lemma OtherLinesFit(e: Event, lib: Library)
    ensures |FutexText(e, lib)| < 512 && |EpollText(e, lib)| < 512 && |TransferText(e, lib)| < 512
    ensures |IoctlText(e, lib)| < 512 && |RawText(e, lib)| < 512
  {
    NumberLengths(e);
    hide Unsigned, SharpHex, SharpOctal, Signed, ToI64;
  }

  /** The line of an event from the kernel side is never cut off in the 512-byte buffer. */
  lemma EmittedLineFits(e: Event, lib: Library)
    requires Emitted(e)
    ensures |LineOf(e, lib)| < 512
  {
    hide TransferText, IoctlText, FutexText, OpenatText, Openat2Text, ExecveText, ConnectText, SendtoText, EpollText;
    hide RawText, FlagText, SockaddrText, Emitted;
    FlagTextLength(lib.fcntl, e.args[2] as bv64);
    PathLinesFit(e, lib, FlagText(lib.fcntl, e.args[2] as bv64));
    SockaddrLength(e, lib.ntop);
    AddressLinesFit(e, lib, SockaddrText(e, lib.ntop));
    OtherLinesFit(e, lib);
  }
}
