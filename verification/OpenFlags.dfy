/** `format_openat_flags`: the text of an open-flags word, for whatever values the C library's
    headers give the flags. */
module OpenFlags {
  import opened Numerals
  import opened Buffers

  /** The values of `O_ACCMODE` and of the flags in `fcntl.h`. */
  datatype Fcntl = Fcntl(
    accmode: bv64,
    creat: bv64,
    excl: bv64,
    noctty: bv64,
    trunc: bv64,
    append: bv64,
    nonblock: bv64,
    dsync: bv64,
    sync: bv64,
    cloexec: bv64,
    directory: bv64,
    nofollow: bv64)

  /** The flags in the order in which they are appended. */
  function Mask(f: Fcntl, i: nat): bv64 {
    if i == 0 then f.creat
    else if i == 1 then f.excl
    else if i == 2 then f.noctty
    else if i == 3 then f.trunc
    else if i == 4 then f.append
    else if i == 5 then f.nonblock
    else if i == 6 then f.dsync
    else if i == 7 then f.sync
    else if i == 8 then f.cloexec
    else if i == 9 then f.directory
    else f.nofollow
  }

  function Name(i: nat): (s: string)
    ensures |s| <= 11 && '|' !in s && NUL !in s
  {
    if i == 0 then "O_CREAT"
    else if i == 1 then "O_EXCL"
    else if i == 2 then "O_NOCTTY"
    else if i == 3 then "O_TRUNC"
    else if i == 4 then "O_APPEND"
    else if i == 5 then "O_NONBLOCK"
    else if i == 6 then "O_DSYNC"
    else if i == 7 then "O_SYNC"
    else if i == 8 then "O_CLOEXEC"
    else if i == 9 then "O_DIRECTORY"
    else "O_NOFOLLOW"
  }

  /** The access bits of a flags word, and the number they make. */
  function AccessBits(f: Fcntl, flags: bv64): bv64 {
    flags & f.accmode
  }

  function Access(f: Fcntl, flags: bv64): (n: nat)
    ensures n < 0x1_0000_0000_0000_0000
  {
    AccessBits(f, flags) as nat
  }

  function AccessText(access: nat): string {
    if access == 0 then "O_RDONLY"
    else if access == 1 then "O_WRONLY"
    else if access == 2 then "O_RDWR"
    else "0x" + Digits(access, 16)
  }

  predicate IsSet(flags: bv64, mask: bv64) {
    flags & mask != 0
  }

  function FlagPart(flags: bv64, mask: bv64, i: nat): string {
    if IsSet(flags, mask) then "|" + Name(i) else ""
  }

  /** The text of the first `n` flags. */
  function FlagsUpTo(f: Fcntl, flags: bv64, n: nat): string
    requires n <= 11
  {
    if n == 0 then "" else FlagsUpTo(f, flags, n - 1) + FlagPart(flags, Mask(f, n - 1), n - 1)
  }

  /** The text after `n` flags. */
  function Sofar(f: Fcntl, flags: bv64, n: nat): string
    requires n <= 11
  {
    AccessText(Access(f, flags)) + FlagsUpTo(f, flags, n)
  }

  function FlagText(f: Fcntl, flags: bv64): string {
    Sofar(f, flags, 11)
  }

  lemma AccessTextLength(access: nat)
    requires access < 0x1_0000_0000_0000_0000
    ensures |AccessText(access)| <= 18
  {
    hide Power, Digits;
    PowersOfSixteen();
    DigitsLength(access, 16, 16);
  }

  lemma {:induction false} FlagsLength(f: Fcntl, flags: bv64, n: nat)
    requires n <= 11
    ensures |FlagsUpTo(f, flags, n)| <= 12 * n
  {
    hide Name, IsSet, Mask;
    if n > 0 {
      FlagsLength(f, flags, n - 1);
    }
  }

  lemma SofarLength(f: Fcntl, flags: bv64, n: nat)
    requires n <= 11
    ensures |Sofar(f, flags, n)| <= 18 + 12 * n
  {
    hide AccessText, FlagsUpTo, Access;
    AccessTextLength(Access(f, flags));
    FlagsLength(f, flags, n);
  }

  lemma FlagTextLength(f: Fcntl, flags: bv64)
    ensures |FlagText(f, flags)| <= 150
  {
    hide Sofar;
    SofarLength(f, flags, 11);
  }

  lemma SofarStep(f: Fcntl, flags: bv64, i: nat)
    requires i < 11
    ensures Sofar(f, flags, i + 1) == Sofar(f, flags, i) + FlagPart(flags, Mask(f, i), i)
    ensures Sofar(f, flags, 0) == AccessText(Access(f, flags))
  {
    hide AccessText, FlagPart, Access, Mask;
    assert FlagsUpTo(f, flags, i + 1) == FlagsUpTo(f, flags, i) + FlagPart(flags, Mask(f, i), i);
  }

  /** `text` and its terminator have been written, and `off` is where the next append goes. */
  ghost predicate Written(buf: array<char>, off: nat, text: string)
    reads buf
  {
    off == |text| && Buffers.Holds(buf, text)
  }

  /** `off += snprintf (buf + off, sz - off, ...)` with a part that fits. */
  method AppendPart(buf: array<char>, off: nat, part: string, ghost text: string) returns (off': nat)
    requires buf.Length == 256 && Written(buf, off, text) && off + |part| < 256
    modifies buf
    ensures Written(buf, off', text + part)
  {
    var n := Snprintf(buf, off, 256 - off, part);
    off' := off + n;
    assert part[..n] == part;
    assert buf[..off'] == buf[..off] + buf[off..off'];
  }

  /** `APPEND_FLAG`. */
  method AppendFlag(f: Fcntl, flags: bv64, buf: array<char>, off: nat, i: nat) returns (off': nat)
    requires buf.Length == 256 && i < 11 && Written(buf, off, Sofar(f, flags, i))
    modifies buf
    ensures Written(buf, off', Sofar(f, flags, i + 1))
  {
    SofarLength(f, flags, i);
    SofarStep(f, flags, i);
    hide Name, Sofar, IsSet, Buffers.Holds, Mask;
    off' := off;
    if IsSet(flags, Mask(f, i)) {
      off' := AppendPart(buf, off, "|" + Name(i), Sofar(f, flags, i));
    }
  }

  /** The access mode, which comes first. */
  method AppendAccess(access: nat, buf: array<char>) returns (off: nat)
    requires buf.Length == 256 && access < 0x1_0000_0000_0000_0000
    modifies buf
    ensures Written(buf, off, AccessText(access))
  {
    AccessTextLength(access);
    hide Digits;
    ghost var a := AccessText(access);
    assert a[..|a|] == a;
    off := 0;
    var n;
    if access == 0 {
      n := Snprintf(buf, off, 256 - off, "O_RDONLY");
    } else if access == 1 {
      n := Snprintf(buf, off, 256 - off, "O_WRONLY");
    } else if access == 2 {
      n := Snprintf(buf, off, 256 - off, "O_RDWR");
    } else {
      n := Snprintf(buf, off, 256 - off, "0x" + Digits(access, 16));
    }
    off := off + n;
  }

  /** For every flags word the offset stays inside the buffer at every append, and the buffer ends
      up holding the whole text. */
  method FormatOpenatFlags(f: Fcntl, flags: bv64, buf: array<char>)
    requires buf.Length == 256
    modifies buf
    ensures Buffers.Holds(buf, FlagText(f, flags))
  {
    SofarStep(f, flags, 0);
    hide Sofar, Access, AccessText, Written, Mask;
    var off := AppendAccess(Access(f, flags), buf);
    off := AppendFlag(f, flags, buf, off, 0);
    off := AppendFlag(f, flags, buf, off, 1);
    off := AppendFlag(f, flags, buf, off, 2);
    off := AppendFlag(f, flags, buf, off, 3);
    off := AppendFlag(f, flags, buf, off, 4);
    off := AppendFlag(f, flags, buf, off, 5);
    off := AppendFlag(f, flags, buf, off, 6);
    off := AppendFlag(f, flags, buf, off, 7);
    off := AppendFlag(f, flags, buf, off, 8);
    off := AppendFlag(f, flags, buf, off, 9);
    off := AppendFlag(f, flags, buf, off, 10);
    WrittenHolds(buf, off, Sofar(f, flags, 11));
  }

  lemma WrittenHolds(buf: array<char>, off: nat, text: string)
    requires Written(buf, off, text)
    ensures Buffers.Holds(buf, text)
  {
  }

  lemma {:induction false} FlagsHaveNoNul(f: Fcntl, flags: bv64, n: nat)
    requires n <= 11
    ensures NUL !in FlagsUpTo(f, flags, n)
  {
    if n > 0 {
      FlagsHaveNoNul(f, flags, n - 1);
    }
  }

  lemma FlagTextHasNoNul(f: Fcntl, flags: bv64)
    ensures NUL !in FlagText(f, flags)
  {
    hide Access, FlagsUpTo;
    AccessHasNoBar(Access(f, flags));
    FlagsHaveNoNul(f, flags, 11);
  }

  // ---------------------------------------------------------------- reading it back

  function SetNames(f: Fcntl, flags: bv64, n: nat): seq<string>
    requires n <= 11
  {
    if n == 0 then []
    else SetNames(f, flags, n - 1) + if IsSet(flags, Mask(f, n - 1)) then [Name(n - 1)] else []
  }

  lemma AccessHasNoBar(access: nat)
    ensures '|' !in AccessText(access) && NUL !in AccessText(access)
  {
    DigitsAreDigits(access, 16);
    hide Digits;
  }

  lemma FlagsStep(f: Fcntl, flags: bv64, i: nat)
    requires i < 11
    ensures FlagsUpTo(f, flags, 0) == ""
    ensures FlagsUpTo(f, flags, i + 1)
            == FlagsUpTo(f, flags, i) + if IsSet(flags, Mask(f, i)) then "|" + Name(i) else ""
    ensures SetNames(f, flags, 0) == []
    ensures SetNames(f, flags, i + 1) == SetNames(f, flags, i) + if IsSet(flags, Mask(f, i)) then [Name(i)] else []
  {
    hide Name, IsSet, Mask;
  }

  lemma {:induction false} SplitUpTo(a: string, f: Fcntl, flags: bv64, n: nat)
    requires n <= 11 && '|' !in a
    ensures Split(a + FlagsUpTo(f, flags, n), '|') == [a] + SetNames(f, flags, n)
  {
    hide Split, Name, IsSet, FlagsUpTo, SetNames;
    if n == 0 {
      FlagsStep(f, flags, 0);
      SplitWhole(a, '|');
      assert a + "" == a;
    } else {
      FlagsStep(f, flags, n - 1);
      SplitUpTo(a, f, flags, n - 1);
      var before := a + FlagsUpTo(f, flags, n - 1);
      if IsSet(flags, Mask(f, n - 1)) {
        SplitLast(before, '|', Name(n - 1));
        assert a + FlagsUpTo(f, flags, n) == before + ['|'] + Name(n - 1);
      } else {
        assert a + FlagsUpTo(f, flags, n) == before;
      }
    }
  }

  lemma PartsOf(f: Fcntl, flags: bv64)
    ensures Split(FlagText(f, flags), '|') == [AccessText(Access(f, flags))] + SetNames(f, flags, 11)
  {
    hide Access, Mask;
    AccessHasNoBar(Access(f, flags));
    SplitUpTo(AccessText(Access(f, flags)), f, flags, 11);
  }

  function Shown(flags: bv64, mask: bv64, name: string): seq<string> {
    if flags & mask != 0 then [name] else []
  }

  /** Splitting the text at the bars gives back the access mode first, and then the names of exactly those
      flags that the word has a bit of, in order. */
  lemma FlagTextSplits(f: Fcntl, flags: bv64)
    ensures Split(FlagText(f, flags), '|')[1..] ==
              Shown(flags, f.creat, "O_CREAT") + Shown(flags, f.excl, "O_EXCL") + Shown(flags, f.noctty, "O_NOCTTY")
              + Shown(flags, f.trunc, "O_TRUNC") + Shown(flags, f.append, "O_APPEND")
              + Shown(flags, f.nonblock, "O_NONBLOCK") + Shown(flags, f.dsync, "O_DSYNC")
              + Shown(flags, f.sync, "O_SYNC") + Shown(flags, f.cloexec, "O_CLOEXEC")
              + Shown(flags, f.directory, "O_DIRECTORY") + Shown(flags, f.nofollow, "O_NOFOLLOW")
  {
    hide FlagText, Split, AccessText, SetNames, Shown, Mask, Access;
    PartsOf(f, flags);
    AllNames(f, flags);
    var parts := Split(FlagText(f, flags), '|');
    assert parts[1..] == SetNames(f, flags, 11);
  }

  /** What stands before the first bar. */
  function FirstPart(s: string): string {
    Split(s, '|')[0]
  }

  /** The access mode, by name or in hexadecimal. */
  lemma AccessTextIs(f: Fcntl, flags: bv64)
    ensures FirstPart(FlagText(f, flags)) == "O_RDONLY" <==> flags & f.accmode == 0
    ensures FirstPart(FlagText(f, flags)) == "O_WRONLY" <==> flags & f.accmode == 1
    ensures FirstPart(FlagText(f, flags)) == "O_RDWR" <==> flags & f.accmode == 2
    ensures Access(f, flags) > 2 ==> FirstPart(FlagText(f, flags)) == "0x" + Digits(Access(f, flags), 16)
  {
    AccessTextOf(f, flags, flags & f.accmode);
  }

  lemma AccessTextOf(f: Fcntl, flags: bv64, bits: bv64)
    requires bits == AccessBits(f, flags)
    ensures FirstPart(FlagText(f, flags)) == "O_RDONLY" <==> bits == 0
    ensures FirstPart(FlagText(f, flags)) == "O_WRONLY" <==> bits == 1
    ensures FirstPart(FlagText(f, flags)) == "O_RDWR" <==> bits == 2
    ensures Access(f, flags) > 2 ==> FirstPart(FlagText(f, flags)) == "0x" + Digits(Access(f, flags), 16)
  {
    hide FlagText, AccessText, FirstPart, Access, AccessBits;
    FirstIsAccess(f, flags);
    AccessNames(Access(f, flags));
    AccessIs(f, flags);
  }

  lemma FirstIsAccess(f: Fcntl, flags: bv64)
    ensures FirstPart(FlagText(f, flags)) == AccessText(Access(f, flags))
  {
    hide FlagText, Split, AccessText, SetNames, Access;
    PartsOf(f, flags);
  }

  lemma AccessNames(access: nat)
    ensures var text := AccessText(access);
            && (text == "O_RDONLY" <==> access == 0)
            && (text == "O_WRONLY" <==> access == 1)
            && (text == "O_RDWR" <==> access == 2)
            && (access > 2 ==> text == "0x" + Digits(access, 16))
  {
    hide Digits;
    var text := AccessText(access);
    if access > 2 {
      assert text[0] == '0';
    }
    assert "O_WRONLY"[2] != "O_RDONLY"[2];
  }

  lemma AccessIs(f: Fcntl, flags: bv64)
    ensures Access(f, flags) == 0 <==> AccessBits(f, flags) == 0
    ensures Access(f, flags) == 1 <==> AccessBits(f, flags) == 1
    ensures Access(f, flags) == 2 <==> AccessBits(f, flags) == 2
  {
    hide AccessBits;
    SmallAccess(AccessBits(f, flags));
  }

  lemma SmallAccess(x: bv64)
    ensures (x as nat == 0 <==> x == 0) && (x as nat == 1 <==> x == 1) && (x as nat == 2 <==> x == 2)
  {
  }

  lemma SetNamesStep(f: Fcntl, flags: bv64, i: nat)
    requires i < 11
    ensures SetNames(f, flags, i + 1) == SetNames(f, flags, i) + Shown(flags, Mask(f, i), Name(i))
    ensures SetNames(f, flags, 0) == []
  {
    hide Name;
  }

  lemma NamesAre()
    ensures Name(0) == "O_CREAT" && Name(1) == "O_EXCL" && Name(2) == "O_NOCTTY" && Name(3) == "O_TRUNC"
    ensures Name(4) == "O_APPEND" && Name(5) == "O_NONBLOCK" && Name(6) == "O_DSYNC" && Name(7) == "O_SYNC"
    ensures Name(8) == "O_CLOEXEC" && Name(9) == "O_DIRECTORY" && Name(10) == "O_NOFOLLOW"
  {
  }

  lemma MasksAre(f: Fcntl)
    ensures Mask(f, 0) == f.creat && Mask(f, 1) == f.excl && Mask(f, 2) == f.noctty && Mask(f, 3) == f.trunc
    ensures Mask(f, 4) == f.append && Mask(f, 5) == f.nonblock && Mask(f, 6) == f.dsync && Mask(f, 7) == f.sync
    ensures Mask(f, 8) == f.cloexec && Mask(f, 9) == f.directory && Mask(f, 10) == f.nofollow
  {
  }

  lemma AllNames(f: Fcntl, flags: bv64)
    ensures SetNames(f, flags, 11) ==
              Shown(flags, f.creat, "O_CREAT") + Shown(flags, f.excl, "O_EXCL") + Shown(flags, f.noctty, "O_NOCTTY")
              + Shown(flags, f.trunc, "O_TRUNC") + Shown(flags, f.append, "O_APPEND")
              + Shown(flags, f.nonblock, "O_NONBLOCK") + Shown(flags, f.dsync, "O_DSYNC")
              + Shown(flags, f.sync, "O_SYNC") + Shown(flags, f.cloexec, "O_CLOEXEC")
              + Shown(flags, f.directory, "O_DIRECTORY") + Shown(flags, f.nofollow, "O_NOFOLLOW")
  {
    hide SetNames, Shown, Name, Mask;
    NamesAre();
    MasksAre(f);
    SetNamesStep(f, flags, 0);
    assert [] + Shown(flags, f.creat, "O_CREAT") == Shown(flags, f.creat, "O_CREAT");
    SetNamesStep(f, flags, 1);
    SetNamesStep(f, flags, 2);
    SetNamesStep(f, flags, 3);
    SetNamesStep(f, flags, 4);
    SetNamesStep(f, flags, 5);
    SetNamesStep(f, flags, 6);
    SetNamesStep(f, flags, 7);
    SetNamesStep(f, flags, 8);
    SetNamesStep(f, flags, 9);
    SetNamesStep(f, flags, 10);
  }

  lemma NamesDiffer(i: nat, j: nat)
    requires i < j < 11
    ensures Name(i) != Name(j)
  {
    if |Name(i)| == |Name(j)| {
      var k := |Name(i)| - 1;
      assert Name(i)[2] != Name(j)[2] || Name(i)[k] != Name(j)[k] || Name(i)[4] != Name(j)[4];
    }
  }

  lemma {:induction false} NameListed(f: Fcntl, flags: bv64, n: nat, i: nat)
    requires n <= 11 && i < 11
    ensures Name(i) in SetNames(f, flags, n) <==> i < n && IsSet(flags, Mask(f, i))
  {
    hide Name, IsSet, Mask;
    if n > 0 {
      NameListed(f, flags, n - 1, i);
      if i < n - 1 {
        NamesDiffer(i, n - 1);
      } else if n - 1 < i {
        NamesDiffer(n - 1, i);
      }
    }
  }

  lemma HexTells(x: nat, y: nat)
    requires "0x" + Digits(x, 16) == "0x" + Digits(y, 16)
    ensures x == y
  {
    DigitsDenote(x, 16);
    DigitsDenote(y, 16);
    hide Digits, Denoted;
    assert ("0x" + Digits(x, 16))[2..] == Digits(x, 16);
    assert ("0x" + Digits(y, 16))[2..] == Digits(y, 16);
  }

  /** The access mode can be told from its text. */
  lemma AccessTextTells(x: nat, y: nat)
    requires AccessText(x) == AccessText(y)
    ensures x == y
  {
    hide Digits;
    var s, t := AccessText(x), AccessText(y);
    assert s[0] == t[0] && s[|s| - 1] == t[|t| - 1] && s[|s| - 2] == t[|t| - 2];
    if x > 2 && y > 2 {
      HexTells(x, y);
    }
  }

  ghost predicate SameBits(f: Fcntl, x: bv64, y: bv64) {
    forall i :: 0 <= i < 11 ==> (IsSet(x, Mask(f, i)) <==> IsSet(y, Mask(f, i)))
  }

  /** What the printed flags tell about the word: its access mode, and for each mask of the table
      whether the word has a bit of it. */
  lemma FlagTextTells(f: Fcntl, x: bv64, y: bv64)
    ensures FlagText(f, x) == FlagText(f, y) <==> Access(f, x) == Access(f, y) && SameBits(f, x, y)
  {
    if FlagText(f, x) == FlagText(f, y) {
      TextTellsBits(f, x, y);
    } else if SameBits(f, x, y) {
      hide Access, IsSet, AccessText;
      SameFlags(f, x, y, 11);
    }
  }

  lemma TextTellsBits(f: Fcntl, x: bv64, y: bv64)
    requires FlagText(f, x) == FlagText(f, y)
    ensures Access(f, x) == Access(f, y) && SameBits(f, x, y)
  {
    hide Access, IsSet, AccessText, SetNames, FlagText, Split, Name;
    PartsOf(f, x);
    PartsOf(f, y);
    var p := Split(FlagText(f, x), '|');
    assert AccessText(Access(f, x)) == p[0] == AccessText(Access(f, y));
    AccessTextTells(Access(f, x), Access(f, y));
    assert SetNames(f, x, 11) == p[1..] == SetNames(f, y, 11);
    forall i | 0 <= i < 11 ensures IsSet(x, Mask(f, i)) <==> IsSet(y, Mask(f, i)) {
      NameListed(f, x, 11, i);
      NameListed(f, y, 11, i);
    }
  }

  lemma {:induction false} SameFlags(f: Fcntl, x: bv64, y: bv64, n: nat)
    requires n <= 11
    requires forall i :: 0 <= i < 11 ==> (IsSet(x, Mask(f, i)) <==> IsSet(y, Mask(f, i)))
    ensures FlagsUpTo(f, x, n) == FlagsUpTo(f, y, n)
  {
    hide Name, IsSet, Mask;
    if n > 0 {
      SameFlags(f, x, y, n - 1);
    }
  }
}
