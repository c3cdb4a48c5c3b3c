# Verified models of the eBPF tools for Android

Dafny models of the parts of this repository that carry state or delicate arithmetic, with proofs
that hold for all inputs, all runs and all interleavings. `dafny verify dfyconfig.toml` checks the
whole project.

**The system call tracer (`libbpfstrace`).** Threads run `handle_sys_enter` and `handle_sys_exit`
concurrently over the bounded `inflight` map and the `events` ring. `Protocol` is a step relation
with one step per statement that touches shared state, a program counter per thread, and every
outside choice (registers, user memory, reservation outcomes, the old contents of reserved bytes) in
the step's label. `AtomicTracer` is the reference in which a handler runs in one step.

- `Linearization`, `SmallMaps` and `Overload` settle when the interleaved handlers look like whole
  ones: exactly when the traced threads are no more than the entries of the map, or the map has at
  most one entry. Beyond that it fails, in a way that no single handler shows: thread *a* reserves,
  *b* exits and leaves room, *c* takes it, *b* enters again and is refused, and only then *a* deletes
  its entry. Run all at once, *a* would have made room for *b*.
- `Pairing` and `Conservation` hold without any bound on the threads.
- `Handlers` has the two handlers as the code writes them, over the maps in place.
- `TargetFilter` says which threads are traced, in arithmetic on the id word.
- `CallText`, `OpenFlags`, `Numerals` and `Buffers` are the user side, and `LineReading` reads the
  printed line back. `Fidelity` and `UserMemory` compare what is printed with what the caller passed,
  and `EndToEnd` carries that through every interleaving.

**The obstack allocator (`obstack.h`).** `ObstackAlign` has the alignment macros in 64-bit
arithmetic, `ObstackModel` one obstack with its chunks and memory, `ObstackLemmas` and `ObstackRuns`
what each operation keeps, `ObstackTheorems` what holds after any sequence of operations,
`ObstackMacros` both forms of the macros as they run, `ObstackProgram` carries the theorems over to
them, and `ObstackChunks` says when a chunk is given back. `_obstack_newchunk`, `_obstack_free` and
`_obstack_begin` have no body in the repository. They follow the header's comments: a new chunk is a range of its own with room for the object so far
and the request, the object is copied to its aligned start, and the old chunk is given back only if
`maybe_empty_object` is clear and the object is alone in it; freeing gives chunks back from the
newest until the current one holds the object, and then a zero-length object may remain there.

**Smaller cores.** `Words` and `Bitfield` are the relocatable bitfield reads, `Usdt` the argument
fetch of static probes, `BpfTable` bcc's table loops, `FileDesc` the ownership of descriptors, and
`Execs` the insert/lookup/delete cycle of `libbpfapp` under interleaving.

Where the code and its comments differ, the models follow the code:

- the comment on `BPF_CORE_READ_BITFIELD_PROBED` says that the macro returns the error of the probe
  read; it returns the value, and zero if the read fails
  (`ebpf-android-sdk/include/bpf/bpf_core_read.h:62-80`);
- the address of `sendto` is taken from its second argument, which the user side prints as `buf`
  (`libbpfstrace/libbpfstrace.bpf.c:97`, `libbpfstrace/libbpfstrace.c:305-306`); `Fidelity` has an
  example and the exact condition under which the right address is printed nevertheless.

What is taken as given: a map update fails only if the key is absent and the map is full; one thread
runs one handler at a time; a probe read of a string copies up to its terminator and replaces the
last byte of a full buffer by one; a read through a pointer into the map sees the entry as it then
is; the kernel hands out a descriptor number only while it is not open.

## Model

| member | source | states |
|---|---|---|
| Capture.EnterBuffer.constructor | libbpfstrace/libbpfstrace.bpf.c:146-171 | the record on the handler's stack starts cleared, with the system call number, all six registers and the command name filled in |
| Capture.EnterBuffer.MaybeCaptureString | libbpfstrace/libbpfstrace.bpf.c:67-85 | only openat, openat2 and execve with a non-null pointer are read, at that pointer; a failed read may leave anything in the buffer but sets no length; a set length is that of the text with its terminator |
| Capture.EnterBuffer.MaybeCaptureSockaddr | libbpfstrace/libbpfstrace.bpf.c:87-141 | family first, whole structure second, both at the second argument, from two reads that may see different memory; `sa_valid` is set only for an address call with family 2 or 10 |
| Capture.CapturedShape | libbpfstrace/libbpfstrace.bpf.c:67-141 | whatever the reads return: text only for path calls, terminated exactly at `str_len - 1`; an address only for address calls, of a known family, the other family's fields zero |
| Capture.AddressCapturedIff | libbpfstrace/libbpfstrace.bpf.c:94-140 | if and only if: the call takes an address, the pointer is set, the length argument covers the family's structure, and both reads there succeed |
| SyscallRecords.IdFromHalves | libbpfstrace/libbpfstrace.bpf.c:153-155 | the process and thread halves of an id word determine it |
| Protocol.TracedIff | libbpfstrace/libbpfstrace.bpf.c:155-159 | the filter in arithmetic on the id word: no target, or the high half is the target |
| TargetFilter.EnterStoredIff | libbpfstrace/libbpfstrace.bpf.c:154-177 | an enter that finds room is stored if and only if that holds; the others leave the map alone |
| TargetFilter.ReportedIsTarget | libbpfstrace/libbpfstrace.bpf.c:189-194 | in every run, every thread with an entry, inside a handler or reported satisfies it |
| TargetFilter.EventNamesThread | libbpfstrace/libbpfstrace.bpf.c:210-211 | an event's tgid is the high half and its pid the low half of the id word, as 32-bit ints |
| Capture.CapturedRegisters | libbpfstrace/libbpfstrace.bpf.c:161-171 | number, all six arguments and command name of the record are those found |
| Protocol.CopyFills | libbpfstrace/libbpfstrace.bpf.c:210-232 | each assignment fills one more field and disturbs none that is filled |
| Protocol.FilledIsComplete | libbpfstrace/libbpfstrace.bpf.c:210-232 | the nineteen assignments overwrite everything that the reserved bytes held |
| Protocol.OthersKept | libbpfstrace/libbpfstrace.bpf.c:143-238 | a step of one thread changes no other thread's entry, ring slot or place in its handler |
| Protocol.NextInv | libbpfstrace/libbpfstrace.bpf.c:143-238 | every step of every handler keeps the map within its capacity, the pointer into the map good, and each uncommitted slot its owner's own |
| Protocol.ReachableInv | libbpfstrace/libbpfstrace.bpf.c:143-238 | that invariant in every state that any interleaving of any number of threads reaches |
| Protocol.NeverStuck | libbpfstrace/libbpfstrace.bpf.c:197-236 | the pointer from the lookup stays good until the handler's own delete, so every handler can always take its next step |
| Handlers.Maps.constructor | libbpfstrace/libbpfstrace.bpf.c:54-65 | an empty map and an empty ring |
| Handlers.Maps.HandleSysEnter | libbpfstrace/libbpfstrace.bpf.c:143-179 | run by itself, the enter handler does to map and ring what the one-step reference tracer does; in arithmetic on the id word: nothing for another process, else the captured record is stored if there is room |
| Handlers.Maps.HandleSysExit | libbpfstrace/libbpfstrace.bpf.c:181-238 | run by itself, the exit handler does what the one-step reference tracer does, also when the reservation fails, whatever the reserved bytes held; in arithmetic on the id word: nothing for another process |
| SoloRuns.SoloEnter | libbpfstrace/libbpfstrace.bpf.c:143-179 | the enter handler's steps with nothing in between store the captured record, if there is room |
| SoloRuns.SoloFinish | libbpfstrace/libbpfstrace.bpf.c:210-237 | from its reservation on, an undisturbed exit handler submits the complete event and deletes the entry |
| Linearization.StepSimulated | libbpfstrace/libbpfstrace.bpf.c:143-238 | a step that refuses no store changes the abstract map and ring by exactly the handlers that take effect at it: an enter at its store, an exit at its reservation |
| Linearization.RunSimulated | libbpfstrace/libbpfstrace.bpf.c:143-238 | in every state of such a run, handlers mid-flight or not, the abstract map and ring are those of the handlers run all at once so far |
| Linearization.EffectsKeepOrder | libbpfstrace/libbpfstrace.bpf.c:143-238 | in every run, taking effect keeps each thread's order of calls |
| Linearization.EffectsKeepTime | libbpfstrace/libbpfstrace.bpf.c:143-238 | and real time: at every step the handlers in order of effect can be cut so that all that have ended are before the cut and all that have not begun are after it |
| Linearization.RunMatchesEffects | libbpfstrace/libbpfstrace.bpf.c:143-238 | an interleaving that refuses no store has a run of whole handlers with the same calls per thread, in real-time order, with the same ring and the same final map |
| Linearization.FewThreadsRefuseNothing | libbpfstrace/libbpfstrace.bpf.c:60-65 | with no more traced threads than entries, no store is refused |
| Linearization.FewThreadsLookAtomic | libbpfstrace/libbpfstrace.bpf.c:143-238 | so every interleaving of that many threads refines whole handlers |
| Overload.LastEnterIsStored | libbpfstrace/libbpfstrace.bpf.c:177-236 | in whole handlers, once one of `capacity + 1` threads has been reported and gone, another's last enter is always stored |
| Overload.OvertakingEnds | libbpfstrace/libbpfstrace.bpf.c:177-236 | a concrete interleaving of one thread too many in which that enter is refused, because a thread that reserved first deletes last |
| Overload.ManyThreadsDoNotLookAtomic | libbpfstrace/libbpfstrace.bpf.c:143-238 | so with one traced thread too many some interleaving refines no run of whole handlers |
| SmallMaps.RunSettled | libbpfstrace/libbpfstrace.bpf.c:143-238 | over a map of at most one entry, in every state, the map and the events of finished exits are those of whole handlers, refused stores included, each exit taking effect at its deletion |
| SmallMaps.SmallMapsLookAtomic | libbpfstrace/libbpfstrace.bpf.c:143-238 | so over such a map every interleaving of any number of threads refines whole handlers |
| Overload.LooksAtomicIff | libbpfstrace/libbpfstrace.bpf.c:143-238 | for every size of the map: refinement holds if and only if the traced threads are at most its entries or it has at most one |
| Overload.InflightLooksAtomicIff | libbpfstrace/libbpfstrace.bpf.c:60-65 | the same for the 16384 entries that the program declares |
| Pairing.ReachableHistory | libbpfstrace/libbpfstrace.bpf.c:143-238 | every place in a handler and every slot of the ring, told from the calls made so far |
| Pairing.EventIsPaired | libbpfstrace/libbpfstrace.bpf.c:146-236 | in every run, ill-bracketed or overfull ones included: a submitted event is exactly what the thread's latest enter captured plus the return value of its next call, an exit, with no other call of that thread in between |
| Pairing.NoEnterReportedTwice | libbpfstrace/libbpfstrace.bpf.c:197-236 | two events of a thread come from different enters, the later from the later |
| Pairing.EntryIsLastEnter | libbpfstrace/libbpfstrace.bpf.c:177-236 | between handlers, an entry is what the thread's last call captured, and that call was an enter |
| Pairing.BalancedRunLeavesNothing | libbpfstrace/libbpfstrace.bpf.c:202-236 | if every traced thread's last call was an exit the map is empty, however many reservations failed |
| Pairing.EveryEventHasShape | libbpfstrace/libbpfstrace.bpf.c:67-236 | every submitted event of every run has the string and address shape of `CapturedShape` |
| Conservation.BooksBalance | libbpfstrace/libbpfstrace.bpf.c:177-236 | in every reachable state: stored + submitted-but-not-yet-deleted = submitted + dropped + overwritten + entries in the map |
| Conservation.BookMeans | libbpfstrace/libbpfstrace.bpf.c:177-236 | what the columns count, by the map before and after a step |
| Conservation.EveryEnterAccountedFor | libbpfstrace/libbpfstrace.bpf.c:177-236 | whenever no handler is mid-flight: stored = submitted + dropped + overwritten + entries in the map, and the ring holds the submitted events and nothing else |
| Numerals.DigitsDenote | libbpfstrace/libbpfstrace.c:178-185 | the digits that a number is printed with denote that number |
| Numerals.DigitsLength | libbpfstrace/libbpfstrace.c:243-323 | a number below `base^k` prints in at most `k` digits |
| Buffers.SplitJoins | libbpfstrace/libbpfstrace.c:188-191 | splitting at the bars loses nothing and leaves no bar |
| Buffers.Snprintf | libbpfstrace/libbpfstrace.c:178-190 | at most `size` bytes are written, the last a terminator, the rest of the buffer is untouched, and the result is the untruncated length (section 7.21.6.5 of ISO C11) |
| OpenFlags.FormatOpenatFlags | libbpfstrace/libbpfstrace.c:173-204 | for every 64-bit word and every value of the flag macros, the offset stays inside the 256-byte buffer at every append and the buffer ends up holding the whole text |
| OpenFlags.AccessTextIs | libbpfstrace/libbpfstrace.c:176-185 | what stands before the first bar is O_RDONLY, O_WRONLY or O_RDWR if and only if `flags & O_ACCMODE` is 0, 1 or 2, and otherwise that number in hexadecimal |
| OpenFlags.FlagTextSplits | libbpfstrace/libbpfstrace.c:187-202 | what follows, split at the bars, is the literal list of the eleven names, each there if and only if the word has a bit of that name's mask, in order |
| OpenFlags.FlagTextTells | libbpfstrace/libbpfstrace.c:173-204 | two words print alike if and only if they have the same access mode and the same outcome for every mask test |
| OpenFlags.FlagTextLength | libbpfstrace/libbpfstrace.c:173-204 | the text is at most 150 characters long |
| CallText.FormatSockaddr | libbpfstrace/libbpfstrace.c:131-171 | the 192-byte buffer ends up holding the whole text, for every event |
| CallText.SockaddrLength | libbpfstrace/libbpfstrace.c:131-171 | no address text reaches 192 characters |
| CallText.OtherFamilyNeverPrinted | libbpfstrace/libbpfstrace.c:131-171 | for an event that the kernel side can submit, the last fallback is not reached and the other family's fields are zero |
| CallText.ArgStringOfEmitted | libbpfstrace/libbpfstrace.c:206-212 | for such an event, text comes back if and only if one was captured, only for openat, openat2 and execve, and it is the captured bytes, of length `str_len - 1` |
| CallText.FormatSyscallArgs | libbpfstrace/libbpfstrace.c:232-325 | the line passes through both auxiliary buffers intact and is shown up to 511 characters |
| LineReading.ReadsOnce | libbpfstrace/libbpfstrace.c:232-325 | a line can be read in one way only: labels and values determine each other |
| LineReading.ReadTransfer | libbpfstrace/libbpfstrace.c:242-249 | read and write: `fd=` and `count=` denote the first and third argument in decimal, `buf=` the second in hexadecimal |
| LineReading.ReadIoctl | libbpfstrace/libbpfstrace.c:250-253 | ioctl: fd, cmd and arg are the first three arguments |
| LineReading.ReadFutex | libbpfstrace/libbpfstrace.c:254-259 | futex: uaddr, op, val, timeout and val3 are the first five arguments |
| LineReading.ReadOpenat | libbpfstrace/libbpfstrace.c:260-267 | openat: `dfd=` is the first argument as a signed number, then the path, the flags text, and `mode=` the fourth argument in octal |
| LineReading.ReadOpenatPointer | libbpfstrace/libbpfstrace.c:268-273 | the same without a path, whose pointer is shown |
| LineReading.ReadOpenat2 | libbpfstrace/libbpfstrace.c:275-280 | openat2: dfd, path, how and size |
| LineReading.ReadOpenat2Pointer | libbpfstrace/libbpfstrace.c:281-286 | the same without a path |
| LineReading.ReadExecve | libbpfstrace/libbpfstrace.c:288-292 | execve: path, argv and envp |
| LineReading.ReadExecvePointer | libbpfstrace/libbpfstrace.c:293-296 | the same without a path |
| LineReading.ReadConnect | libbpfstrace/libbpfstrace.c:298-311 | connect and bind: sockfd, the address text, and addrlen, the third argument |
| LineReading.ReadSendto | libbpfstrace/libbpfstrace.c:300-306 | sendto: sockfd, buf, len, flags, the address text, and addrlen, the sixth argument |
| LineReading.ReadEpoll | libbpfstrace/libbpfstrace.c:314-319 | epoll_pwait: all six arguments, the timeout signed |
| LineReading.ReadRaw | libbpfstrace/libbpfstrace.c:320-323 | any other call: all six arguments in hexadecimal, in order |
| CallText.EmittedLineFits | libbpfstrace/libbpfstrace.c:331-344 | for an event that the kernel side can submit, it never is cut off, for any system call with a name of at most 29 characters |
| Fidelity.PathFidelity | libbpfstrace/libbpfstrace.bpf.c:67-85 | for every call: the path that the user side finds in the event is the text read behind the path argument of the call's own signature (second for openat and openat2, first for execve), and none where there is none |
| Fidelity.PathIsString | libbpfstrace/libbpfstrace.bpf.c:81-84 | on memory that holds still: the printed path is the first 255 bytes of the caller's C string, and the whole of it if and only if it is shorter than 256 bytes |
| UserMemory.StringCopied | libbpfstrace/libbpfstrace.bpf.c:82 | reading a C string into a buffer copies it whole if it and its terminator fit, and cuts it off at the end if not |
| Fidelity.PrintsSecondArgument | libbpfstrace/libbpfstrace.bpf.c:94-140 | what is printed as the address, for connect, bind and sendto: the bytes read behind the second argument, written out from their offsets in the structure, or NULL |
| Fidelity.AddressFidelity | libbpfstrace/libbpfstrace.c:298-313 | for connect and bind that is the address and length the caller passed |
| Fidelity.SendtoFaithfulIff | libbpfstrace/libbpfstrace.bpf.c:97-105 | for sendto it is the destination, for every memory, if and only if the destination was passed in the buffer's place too or the length is below 16 |
| Fidelity.SendtoPrintsItsBuffer | libbpfstrace/libbpfstrace.c:303-306 | a concrete call that prints an address out of its buffer in place of its destination |
| EndToEnd.EveryEventPrintsItsOwnCall | libbpfstrace/libbpfstrace.c:206-344 | for every event of every interleaving: the line fits its buffer; pid, tid, command name, arguments, return value and path are those of one enter and the next exit of one thread; for connect and bind so is the address |
| ObstackAlign.BptrAlignIsLeast | ebpf-android-sdk/include/obstack.h:132-136 | if any address at or above P is a multiple of A + 1 away from B, the macro gives the least, in 64-bit arithmetic |
| ObstackAlign.PtrAlignWraps | ebpf-android-sdk/include/obstack.h:138-147 | within A of the top of the address space the macro wraps to zero |
| ObstackAlign.NoAlignedAddressLeft | ebpf-android-sdk/include/obstack.h:132-147 | and there is then no aligned address to give |
| ObstackAlign.ClampedAlign | ebpf-android-sdk/include/obstack.h:420-426 | the wrapping macro and the unsigned comparison together give the next aligned address or the chunk's end, whichever is first, even where the aligned address does not fit in 64 bits |
| ObstackLemmas.NothingLost | ebpf-android-sdk/include/obstack.h:201-204 | a chunk that is given back while growing holds no finished object, not even an empty one |
| ObstackLemmas.NewChunkValid | ebpf-android-sdk/include/obstack.h:77-80 | moving to a new chunk keeps every finished object, carries the growing one over and makes the room asked for |
| ObstackLemmas.MakeRoomValid | ebpf-android-sdk/include/obstack.h:308-314 | the same, with or without a new chunk |
| ObstackRuns.GrowValid | ebpf-android-sdk/include/obstack.h:324-332 | finished objects stay; the growing object is longer by exactly the data |
| ObstackRuns.BlankValid | ebpf-android-sdk/include/obstack.h:386-392 | finished objects stay; the growing object is longer by so many unknown bytes |
| ObstackRuns.FinishValid | ebpf-android-sdk/include/obstack.h:414-427 | the growing object joins the finished ones at its own address with its own bytes; the next object starts aligned or at the end of the chunk |
| ObstackRuns.FreeValid | ebpf-android-sdk/include/obstack.h:429-436 | freeing any finished object, in whichever chunk, leaves exactly the objects finished before it |
| ObstackTheorems.BeginValid | ebpf-android-sdk/include/obstack.h:166-208 | a new obstack satisfies the invariant |
| ObstackTheorems.StepValid | ebpf-android-sdk/include/obstack.h:308-436 | every operation keeps it: ordered pointers, disjoint chunks, intact objects, the growing object as appended |
| ObstackTheorems.RunValid | ebpf-android-sdk/include/obstack.h:308-436 | so does every sequence of operations |
| ObstackTheorems.FinishedAreDisjoint | ebpf-android-sdk/include/obstack.h:86-97 | any two finished objects are disjoint |
| ObstackTheorems.FinishedObjectsLast | ebpf-android-sdk/include/obstack.h:74-97 | through any sequence of operations that does not free it, a finished object keeps its address and bytes, lies inside one live chunk, is aligned unless empty, and overlaps no other object |
| ObstackTheorems.NonemptyIsAligned | ebpf-android-sdk/include/obstack.h:414-427 | every nonempty finished object starts at a multiple of `alignment_mask + 1`, also after a finish that stopped at an unaligned chunk end |
| ObstackTheorems.GrowingIsConcatenation | ebpf-android-sdk/include/obstack.h:308-427 | after any sequence: `object_base <= next_free <= chunk_limit`, and the growing object is the concatenation of everything appended since the last finish, across chunks |
| ObstackTheorems.AllocFreeAlloc | ebpf-android-sdk/include/obstack.h:394-436 | allocating, freeing and allocating the same size again gives the same address and asks for no chunk, for every size |
| ObstackMacros.FinishComputes | ebpf-android-sdk/include/obstack.h:414-427 | the alignment and clamp as coded are the plain ones of the model, in every sound state |
| ObstackMacros.AfterGrow0 | ebpf-android-sdk/include/obstack.h:334-343 | copying the data and then a zero is growing by both at once, and the length plus one cannot wrap |
| ObstackMacros.Control.GnuMakeRoom | ebpf-android-sdk/include/obstack.h:308-314 | the GNU form computes the model's step and leaves `temp` alone |
| ObstackMacros.Control.GnuGrow | ebpf-android-sdk/include/obstack.h:324-332 | the same for `obstack_grow`: the object is longer by the data, which stands at its end |
| ObstackMacros.Control.GnuGrow0 | ebpf-android-sdk/include/obstack.h:334-343 | the same for `obstack_grow0` |
| ObstackMacros.Control.Gnu1Grow | ebpf-android-sdk/include/obstack.h:345-350 | the same for `obstack_1grow` |
| ObstackMacros.Control.GnuBlank | ebpf-android-sdk/include/obstack.h:386-392 | the same for `obstack_blank` |
| ObstackMacros.Control.GnuFinish | ebpf-android-sdk/include/obstack.h:414-427 | the same for `obstack_finish`, with the address it returns |
| ObstackMacros.Control.GnuFree | ebpf-android-sdk/include/obstack.h:429-436 | the same for `obstack_free`: the fast path agrees with unwinding, and the next object starts at the address given |
| ObstackMacros.AllocPlaces | ebpf-android-sdk/include/obstack.h:394-398 | what `obstack_alloc` returns is the start of an object with room for what had been grown and for the bytes asked for, aligned unless empty, inside the chunk and below the next object |
| ObstackMacros.CopyPlaces | ebpf-android-sdk/include/obstack.h:400-410 | what `obstack_copy` returns is the start of an object that consists of what had been grown and of the data |
| ObstackMacros.Control.GnuAlloc | ebpf-android-sdk/include/obstack.h:394-398 | the same for `obstack_alloc`; the bytes asked for lie between the address it returns and `next_free`, and that address is aligned |
| ObstackMacros.Control.GnuCopy | ebpf-android-sdk/include/obstack.h:400-404 | the same for `obstack_copy`; the data stands at the address it returns, behind what had been grown |
| ObstackMacros.Control.GnuCopy0 | ebpf-android-sdk/include/obstack.h:406-410 | the same for `obstack_copy0`, with a zero after the data |
| ObstackMacros.Control.PortableMakeRoom | ebpf-android-sdk/include/obstack.h:458-462 | the portable form, which works through the `temp` slot, computes the same step |
| ObstackMacros.Control.PortableGrow | ebpf-android-sdk/include/obstack.h:464-470 | the same for `obstack_grow`: the object is longer by the data, which stands at its end |
| ObstackMacros.Control.PortableGrow0 | ebpf-android-sdk/include/obstack.h:472-479 | the same for `obstack_grow0` |
| ObstackMacros.Control.Portable1Grow | ebpf-android-sdk/include/obstack.h:481-484 | the same for `obstack_1grow` |
| ObstackMacros.Control.PortableBlank | ebpf-android-sdk/include/obstack.h:504-508 | the same for `obstack_blank` |
| ObstackMacros.Control.PortableFinish | ebpf-android-sdk/include/obstack.h:519-531 | the same for `obstack_finish` |
| ObstackMacros.Control.PortableFree | ebpf-android-sdk/include/obstack.h:533-538 | the same for `obstack_free`: the fast path agrees with unwinding, and the next object starts at the address given |
| ObstackMacros.Control.PortableAlloc | ebpf-android-sdk/include/obstack.h:510-511 | the same for `obstack_alloc`; the bytes asked for lie between the address it returns and `next_free`, and that address is aligned |
| ObstackMacros.Control.PortableCopy | ebpf-android-sdk/include/obstack.h:513-514 | the same for `obstack_copy`; the data stands at the address it returns, behind what had been grown |
| ObstackMacros.Control.PortableCopy0 | ebpf-android-sdk/include/obstack.h:516-517 | the same for `obstack_copy0`, with a zero after the data |
| ObstackMacros.FormsAgree | ebpf-android-sdk/include/obstack.h:285-540 | for every sequence of calls, the two forms return the same addresses and leave the same control block and memory, `temp` aside |
| ObstackProgram.RunIsCalls | ebpf-android-sdk/include/obstack.h:308-436 | every run of operations in the theorems is a run of macro calls, of all ten macros, with the same outcome |
| ObstackProgram.ValueIsObject | ebpf-android-sdk/include/obstack.h:394-427 | the address that finish, alloc, copy and copy0 return is that of the object they finish |
| ObstackProgram.FinishedObjectsLastInMemory | ebpf-android-sdk/include/obstack.h:84-97 | run by the macros, any such sequence leaves the bytes of every finished object that it does not free in place, at the address that the macro returned |
| ObstackProgram.AllocFreeAllocInMemory | ebpf-android-sdk/include/obstack.h:394-436 | run by the macros: the address returned is freed and returned again |
| ObstackChunks.ChunkGivenBackIff | ebpf-android-sdk/include/obstack.h:201-204 | from a new obstack on, as long as nothing is freed: `maybe_empty_object` is set if and only if the current chunk holds an empty object, and a chunk is given back on growing if and only if it holds no finished object |
| Words.ShiftsExtend | ebpf-android-sdk/include/bpf/bpf_core_read.h:74-78 | shifting left by `64 - (off + sz)` and right by `64 - sz` gives bits off..off+sz of the word, sign- or zero-extended, for every field of a 64-bit word |
| Bitfield.ReadBitfield | ebpf-android-sdk/include/bpf/bpf_core_read.h:88-112 | the direct read returns those bits of the storage unit of 1, 2, 4 or 8 bytes, on little- and big-endian builds |
| Bitfield.ProbeStorage | ebpf-android-sdk/include/bpf/bpf_core_read.h:44-60 | the probe read puts the storage unit at the low-order end of the variable on either build |
| Bitfield.ReadBitfieldProbed | ebpf-android-sdk/include/bpf/bpf_core_read.h:70-80 | the probed read returns the same value as the direct one, or zero if the read fails |
| Bitfield.FieldValueBits | ebpf-android-sdk/include/bpf/bpf_core_read.h:70-112 | all 64 bits of that value: bits off up to off+sz are those bits of the bytes in memory, in either byte order, and above them copies of the topmost or zeros |
| Usdt.SpecId | ebpf-android-sdk/include/bpf/usdt.bpf.h:79-91 | the attach cookie as an int where the kernel has cookies, else the entry for the instruction pointer, else -ESRCH |
| Usdt.BpfUsdtArg | ebpf-android-sdk/include/bpf/usdt.bpf.h:111-187 | for the specification with that number, in literals: -ESRCH, -ENOENT from the argument count on, -EINVAL or the read's error, each with a zero result; otherwise the number of `size` bytes that agrees with the constant, the register, or the first `size` bytes at the operand's address in the target's byte order, signed or unsigned |
| Usdt.FinalShifts | ebpf-android-sdk/include/bpf/usdt.bpf.h:180-185 | the final shifts leave that number |
| Usdt.KeepLowBytes | ebpf-android-sdk/include/bpf/usdt.bpf.h:180-184 | the final shifts keep the low `size` bytes, extended as asked |
| Usdt.FirstBytes | ebpf-android-sdk/include/bpf/usdt.bpf.h:165-170 | after the big-endian correction the operand's first bytes are the low ones on either build |
| BpfTable.HashTable.Next | ebpf-android-sdk/include/bcc/BPFTable.h:82-84 | the key that follows a present one in the kernel's order, and the first one after an absent key |
| BpfTable.HashTable.RemoveValue | ebpf-android-sdk/include/bcc/BPFTable.h:223-227 | one key fewer, or an error and nothing changed; an absent key is an error |
| BpfTable.HashTable.GetTableOffline | ebpf-android-sdk/include/bcc/BPFTable.h:235-255 | on a map that nobody else changes: every key exactly once, with its value, and nothing else |
| BpfTable.HashTable.ClearTableNonAtomic | ebpf-android-sdk/include/bcc/BPFTable.h:257-263 | it ends; it reports success if and only if the map is empty, if and only if the kernel refuses none of the removals; what is left is unchanged |
| BpfTable.GetArrayOffline | ebpf-android-sdk/include/bcc/BPFTable.h:155-163 | below 2^31 elements, what each lookup found, in order, the default where it failed; from there on the `int` loop does not run and every element is the default |
| FileDesc.Process.Construct | ebpf-android-sdk/include/bcc/file_desc.h:27 | for every number: ownership stays single if and only if the number is negative or an open descriptor that no object holds |
| FileDesc.Process.MoveConstruct | ebpf-android-sdk/include/bcc/file_desc.h:28 | ownership moves; nothing is closed |
| FileDesc.Process.Destroy | ebpf-android-sdk/include/bcc/file_desc.h:31-34 | closes what the object holds, and only that |
| FileDesc.Process.AssignInt | ebpf-android-sdk/include/bcc/file_desc.h:36-41 | closes the old descriptor and only that; ownership stays single under the same if-and-only-if, which rules out the object's own descriptor |
| FileDesc.Process.MoveAssign | ebpf-android-sdk/include/bcc/file_desc.h:42-48 | closes the old descriptor and takes the other object's; a self-move closes and leaves the object empty |
| FileDesc.Process.Dup | ebpf-android-sdk/include/bcc/file_desc.h:51-58 | a new object with a descriptor of its own, or with none |
| FileDesc.Process.Perform | ebpf-android-sdk/include/bcc/file_desc.h:25-65 | what each operation does to the objects and the open descriptors, wherever the program may perform it |
| FileDesc.Process.Run | ebpf-android-sdk/include/bcc/file_desc.h:25-65 | after any sequence of opening, constructing, assigning, moving, self-moving, duplicating and destroying: what an object holds is open and held by no other, and every opening ever made is either open or has been closed exactly once |
| FileDesc.Process.DestroyAll | ebpf-android-sdk/include/bcc/file_desc.h:25-65 | once all objects are gone, exactly what they held is closed, and no opening ever made was closed twice |
| Execs.ReachableInv | libbpfapp/libbpfapp.bpf.c:59-92 | in every state of every interleaving, an entry belongs to a thread between its insert and its delete and holds that invocation's own data and zeros, nothing else |
| Execs.ExecsHoldsTheRunning | libbpfapp/libbpfapp.bpf.c:59-92 | `execs` holds exactly the threads between their insert and their delete, and is empty when no handler runs |
| Execs.HandlerSteps | libbpfapp/libbpfapp.bpf.c:59-67 | the lookup after a successful insert never fails, and an insert is refused if and only if the map is full |
| Execs.EveryAcceptedIsPrinted | libbpfapp/libbpfapp.bpf.c:59-92 | in every run, each thread's printed entries are those of its accepted invocations, in order, once each |
| Execs.WantedIs | libbpfapp/libbpfapp.bpf.c:56-67 | with that invocation's own data: the high half of the id word as pid, its uid and name, and the path followed by a zero |
| Execs.FewThreadsPrintAll | libbpfapp/libbpfapp.bpf.c:31-36 | with no more threads than entries, a run that ends with no handler running has printed every invocation of every thread |

## Left out

- `parse_pid`, `process_name_match`, `find_pid_by_name`, the `/proc` readers and the option parser: they would only add easy members.
- `errno_name`, `futex_op_name`, `syscall_name`: finite tables; names enter as parameters of at most 29 characters (the longest that the included table yields has 23), futex operations of at most 21.
- The return value text and the final `printf` of `handle_event`, and its check of the record's size: output.
- `inet_ntop`: for IPv6 any function from addresses to texts of at most 45 characters; for IPv4 the call cannot fail with a 16-byte buffer, so the `sin_addr=?` text is not modelled.
- The values of the `O_` macros other than the three access modes: parameters, so that the flag results hold for every C library.
- The consumer of the ring and the ring's size: a reservation may be granted or refused at any time.
- Memory ordering between CPUs: steps interleave one at a time.
- `obstack_free` with a null pointer, and with an address in no chunk (which aborts), `obstack_ptr_grow`, `obstack_int_grow`, `obstack_empty_p`, `obstack_memory_used`, and the failure handler, which does not return.
- The form of `__PTR_ALIGN` for machines whose `ptrdiff_t` is narrower than a pointer.
- BpfTable.HashTable.GetTableOffline: a map that other programs change meanwhile is not modelled.
- Bitfield.ReadBitfield: the relocations are those of a field inside its storage unit, as the loader fills them in.
- Usdt.BpfUsdtArg: argument sizes are 1, 2, 4 or 8 bytes, as the specification's comment says.
- The `my_pid_map` lookup and the other trace messages of the execve handler: output only.
- `libbpfso`, program loading, attaching and polling, generated skeletons, and the vendored headers without bodies.
