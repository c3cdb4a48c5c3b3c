/** Reading the printed line back: what each label shows of the call's arguments, without reference to
    how the line was put together. */
module LineReading {
  import opened Basics
  import opened SyscallRecords
  import opened Numerals
  import opened OpenFlags
  import opened CallText

  /** What a line is expected to hold: literal text, and numbers in decimal, in hexadecimal with `0x`, in
      octal with a leading zero, or as the signed decimal of a 64-bit word. */
  datatype Format =
    | End
    | Text(s: string, rest: Format)
    | Dec(v: nat, rest: Format)
    | Hex(v: nat, rest: Format)
    | Oct(v: nat, rest: Format)
    | Long(word: U64, rest: Format)

  predicate IsDigit(c: char, base: nat) {
    ('0' <= c <= '9' && (c as int - '0' as int) < base) || (base == 16 && 'a' <= c <= 'f')
  }

  /** How many digits a text begins with. */
  function Span(text: string, base: nat): (n: nat)
    ensures n <= |text|
  {
    if text == "" || !IsDigit(text[0], base) then 0 else 1 + Span(text[1..], base)
  }

  /** The number that a text begins with. */
  function NumberAt(text: string, base: nat): nat {
    Denoted(text[..Span(text, base)], base)
  }

  /** Reading a line from left to right gives these values; a number is as long as its digits go. */
  predicate Reads(line: string, f: Format)
    decreases f
  {
    match f
    case End => line == ""
    case Text(s, rest) => |s| <= |line| && line[..|s|] == s && Reads(line[|s|..], rest)
    case Dec(v, rest) =>
      var n := Span(line, 10);
      n > 0 && NumberAt(line, 10) == v && Reads(line[n..], rest)
    case Oct(v, rest) =>
      var n := Span(line, 8);
      n > 0 && line[0] == '0' && NumberAt(line, 8) == v && Reads(line[n..], rest)
    case Hex(v, rest) =>
      if |line| >= 2 && line[..2] == "0x" then
        var n := Span(line[2..], 16);
        n > 0 && NumberAt(line[2..], 16) == v && Reads(line[2..][n..], rest)
      else line != "" && line[0] == '0' && v == 0 && Reads(line[1..], rest)
    case Long(word, rest) =>
      if line != "" && line[0] == '-' then
        var n := Span(line[1..], 10);
        n > 0 && IsLong(-(NumberAt(line[1..], 10) as int), word) && Reads(line[1..][n..], rest)
      else
        var n := Span(line, 10);
        n > 0 && IsLong(NumberAt(line, 10), word) && Reads(line[n..], rest)
  }

  /** The `long long` that a 64-bit word is. */
  predicate IsLong(x: int, word: U64) {
    -0x8000_0000_0000_0000 <= x < 0x8000_0000_0000_0000 && (x - word) % 0x1_0000_0000_0000_0000 == 0
  }

  /** Formats that differ in their values only. */
  predicate SameShape(f: Format, g: Format) {
    match f
    case End => g.End?
    case Text(s, rest) => g.Text? && g.s == s && SameShape(rest, g.rest)
    case Dec(_, rest) => g.Dec? && SameShape(rest, g.rest)
    case Oct(_, rest) => g.Oct? && SameShape(rest, g.rest)
    case Hex(_, rest) => g.Hex? && SameShape(rest, g.rest)
    case Long(_, rest) => g.Long? && SameShape(rest, g.rest)
  }

  lemma OneWord(x: int, v: U64, w: U64)
    requires IsLong(x, v) && IsLong(x, w)
    ensures v == w
  {
  }

  /** A line can be read in one way only. */
  lemma {:induction false} ReadsOnce(line: string, f: Format, g: Format)
    requires Reads(line, f) && Reads(line, g) && SameShape(f, g)
    ensures f == g
    decreases f
  {
    hide Span, NumberAt, IsLong;
    match f
    case End =>
    case Text(s, rest) => ReadsOnce(line[|s|..], rest, g.rest);
    case Dec(_, rest) => ReadsOnce(line[Span(line, 10)..], rest, g.rest);
    case Oct(_, rest) => ReadsOnce(line[Span(line, 8)..], rest, g.rest);
    case Hex(_, rest) =>
      if |line| >= 2 && line[..2] == "0x" {
        ReadsOnce(line[2..][Span(line[2..], 16)..], rest, g.rest);
      } else {
        ReadsOnce(line[1..], rest, g.rest);
      }
    case Long(word, rest) =>
      if line != "" && line[0] == '-' {
        OneWord(-(NumberAt(line[1..], 10) as int), word, g.word);
        ReadsOnce(line[1..][Span(line[1..], 10)..], rest, g.rest);
      } else {
        OneWord(NumberAt(line, 10), word, g.word);
        ReadsOnce(line[Span(line, 10)..], rest, g.rest);
      }
  }

  // ---------------------------------------------------------------- single values

  /** What follows a number begins with none of its digits. */
  predicate Stops(rest: string) {
    rest != "" && (rest[0] == ',' || rest[0] == ')')
  }

  lemma {:induction false} DigitsOfBase(n: nat, base: nat)
    requires base == 8 || base == 10 || base == 16
    ensures forall i :: 0 <= i < |Digits(n, base)| ==> IsDigit(Digits(n, base)[i], base)
    decreases n
  {
    var q, r := DigitsStep(n, base);
    hide Digits, DigitChar, IsDigit;
    if n < base {
      DigitOfBase(n, base);
    } else {
      DigitsOfBase(q, base);
      DigitOfBase(r, base);
    }
  }

  lemma DigitOfBase(d: nat, base: nat)
    requires d < base && (base == 8 || base == 10 || base == 16)
    ensures IsDigit(DigitChar(d), base)
  {
  }

  lemma {:induction false} SpanIs(digits: string, rest: string, base: nat)
    requires forall i :: 0 <= i < |digits| ==> IsDigit(digits[i], base)
    requires Stops(rest)
    ensures Span(digits + rest, base) == |digits|
    decreases |digits|
  {
    if digits == "" {
      assert digits + rest == rest;
    } else {
      assert (digits + rest)[1..] == digits[1..] + rest;
      SpanIs(digits[1..], rest, base);
    }
  }

  /** A numeral that is followed by something else is read as its number. */
  lemma NumberIs(n: nat, rest: string, base: nat)
    requires (base == 8 || base == 10 || base == 16) && Stops(rest)
    ensures var line := Digits(n, base) + rest;
            && Span(line, base) == |Digits(n, base)| > 0 && NumberAt(line, base) == n
            && line[Span(line, base)..] == rest && IsDigit(line[0], base)
  {
    DigitsOfBase(n, base);
    DigitsDenote(n, base);
    hide Digits, Denoted, Span;
    SpanIs(Digits(n, base), rest, base);
    assert (Digits(n, base) + rest)[..|Digits(n, base)|] == Digits(n, base);
  }

  // ---------------------------------------------------------------- labels and values

  lemma ReadText(s: string, line: string, f: Format)
    requires Reads(line, f)
    ensures Reads(s + line, Text(s, f))
  {
    assert (s + line)[..|s|] == s && (s + line)[|s|..] == line;
  }

  /** A label, and what follows it. */
  lemma ReadField(tag: string, value: string, rest: string, f: Format)
    requires Reads(value + rest, f)
    ensures Reads(Field(tag, value, rest), Text(tag, f))
    ensures Stops(tag) ==> Stops(Field(tag, value, rest))
  {
    hide Reads;
    ReadText(tag, value + rest, f);
  }

  lemma ReadStr(tag: string, s: string, rest: string, f: Format)
    requires Reads(rest, f)
    ensures Reads(Field(tag, s, rest), Text(tag, Text(s, f)))
    ensures Stops(tag) ==> Stops(Field(tag, s, rest))
  {
    hide Reads, Field, Stops;
    ReadText(s, rest, f);
    ReadField(tag, s, rest, Text(s, f));
  }

  lemma ReadDec(tag: string, v: nat, rest: string, f: Format)
    requires Reads(rest, f) && Stops(rest)
    ensures Reads(Field(tag, Unsigned(v), rest), Text(tag, Dec(v, f)))
    ensures Stops(tag) ==> Stops(Field(tag, Unsigned(v), rest))
  {
    hide Digits, Span, NumberAt, Field, Stops;
    NumberIs(v, rest, 10);
    ReadField(tag, Unsigned(v), rest, Dec(v, f));
  }

  lemma ReadHex(tag: string, v: nat, rest: string, f: Format)
    requires Reads(rest, f) && Stops(rest)
    ensures Reads(Field(tag, SharpHex(v), rest), Text(tag, Hex(v, f)))
    ensures Stops(tag) ==> Stops(Field(tag, SharpHex(v), rest))
  {
    hide SharpHex, Reads, Field, Stops;
    if v == 0 {
      HexZero(rest, f);
    } else {
      HexIs(v, rest, f);
    }
    ReadField(tag, SharpHex(v), rest, Hex(v, f));
  }

  lemma HexZero(rest: string, f: Format)
    requires Reads(rest, f) && Stops(rest)
    ensures Reads(SharpHex(0) + rest, Hex(0, f))
  {
    var line := SharpHex(0) + rest;
    assert line[0] == '0' && line[1..] == rest && line[1] == rest[0];
    hide SharpHex, Span, NumberAt;
  }

  lemma HexIs(v: nat, rest: string, f: Format)
    requires Reads(rest, f) && Stops(rest) && v > 0
    ensures Reads(SharpHex(v) + rest, Hex(v, f))
  {
    HexParts(Digits(v, 16), rest);
    hide Digits, Span, NumberAt, Stops;
    NumberIs(v, rest, 16);
    var line, digits := "0x" + Digits(v, 16) + rest, Digits(v, 16) + rest;
    assert SharpHex(v) + rest == line;
    assert line[2..][Span(digits, 16)..] == rest;
  }

  lemma HexParts(digits: string, rest: string)
    ensures var line := "0x" + digits + rest; |line| >= 2 && line[..2] == "0x" && line[2..] == digits + rest
  {
  }

  lemma ReadOct(tag: string, v: nat, rest: string, f: Format)
    requires Reads(rest, f) && Stops(rest)
    ensures Reads(Field(tag, SharpOctal(v), rest), Text(tag, Oct(v, f)))
    ensures Stops(tag) ==> Stops(Field(tag, SharpOctal(v), rest))
  {
    hide SharpOctal, Span, NumberAt, Field, Stops;
    OctalIs(v, rest);
    ReadField(tag, SharpOctal(v), rest, Oct(v, f));
  }

  lemma OctalIs(v: nat, rest: string)
    requires Stops(rest)
    ensures var line := SharpOctal(v) + rest;
            && Span(line, 8) > 0 && line[0] == '0' && NumberAt(line, 8) == v && line[Span(line, 8)..] == rest
  {
    DigitsOfBase(v, 8);
    DigitsDenote(v, 8);
    hide Digits, Span, Denoted;
    var text := SharpOctal(v);
    forall i | 0 <= i < |text| ensures IsDigit(text[i], 8) {
      if i > 0 {
        assert text[i] == Digits(v, 8)[i - 1];
      }
    }
    SpanIs(text, rest, 8);
    assert (text + rest)[..|text|] == text;
    LeadingZero(Digits(v, 8), 8);
    ZeroDenotes(8);
  }

  lemma {:induction false} LeadingZero(s: string, base: nat)
    ensures Denoted("0" + s, base) == Denoted(s, base)
    decreases |s|
  {
    if s == "" {
      ZeroDenotes(base);
      assert "0" + s == "0";
    } else {
      var init, c := s[..|s| - 1], s[|s| - 1];
      assert s == init + [c] && "0" + s == ("0" + init) + [c];
      LeadingZero(init, base);
      DenotedSnoc(init, c, base);
      DenotedSnoc("0" + init, c, base);
    }
  }

  lemma ZeroDenotes(base: nat)
    ensures Denoted("", base) == 0 && Denoted("0", base) == 0
  {
    DenotedSnoc("", '0', base);
    assert "" + ['0'] == "0";
  }

  lemma ReadLong(tag: string, word: U64, rest: string, f: Format)
    requires Reads(rest, f) && Stops(rest)
    ensures Reads(Field(tag, Signed(ToI64(word)), rest), Text(tag, Long(word, f)))
    ensures Stops(tag) ==> Stops(Field(tag, Signed(ToI64(word)), rest))
  {
    LongOf(word);
    hide ToI64, IsLong, Reads, Field, Stops, Digits;
    var x: int := ToI64(word);
    if x < 0 {
      NegativeIs(0 - x, word, rest, f);
    } else {
      PositiveIs(x, word, rest, f);
    }
    ReadField(tag, Signed(ToI64(word)), rest, Long(word, f));
  }

  lemma LongOf(word: U64)
    ensures IsLong(ToI64(word), word)
  {
  }

  lemma NegativeIs(m: nat, word: U64, rest: string, f: Format)
    requires Reads(rest, f) && Stops(rest) && IsLong(0 - m, word)
    ensures Reads("-" + Digits(m, 10) + rest, Long(word, f))
  {
    hide Digits, Span, NumberAt, Stops, IsLong;
    var line := "-" + Digits(m, 10) + rest;
    assert line[0] == '-' && line[1..] == Digits(m, 10) + rest;
    NumberIs(m, rest, 10);
    var digits := line[1..];
    assert Span(digits, 10) > 0 && NumberAt(digits, 10) == m && digits[Span(digits, 10)..] == rest;
    assert -(NumberAt(digits, 10) as int) == 0 - m;
  }

  lemma PositiveIs(x: nat, word: U64, rest: string, f: Format)
    requires Reads(rest, f) && Stops(rest) && IsLong(x, word)
    ensures Reads(Digits(x, 10) + rest, Long(word, f))
  {
    hide Digits, Span, NumberAt, Stops, IsLong;
    NumberIs(x, rest, 10);
  }

  lemma ReadClose()
    ensures Reads(")", Text(")", End)) && Stops(")")
  {
    ReadText(")", "", End);
    assert ")" + "" == ")";
  }

  // ---------------------------------------------------------------- the lines

  /** `read` and `write`. */
  lemma ReadTransfer(e: Event, lib: Library)
    requires e.syscallId == 63 || e.syscallId == 64
    ensures Reads(LineOf(e, lib),
      Text(lib.name,
      Text("(fd=", Dec(e.args[0],
      Text(", buf=", Hex(e.args[1],
      Text(", count=", Dec(e.args[2],
      Text(")", End)))))))))
  {
    hide Reads, Field, Unsigned, SharpHex, SharpOctal, Signed, ToI64, SockaddrText, FlagText, ArgString;
    ReadClose();
    var r3, f3 := ")", Text(")", End);
    var r2, f2 := Field(", count=", Unsigned(e.args[2]), r3), Text(", count=", Dec(e.args[2], f3));
    ReadDec(", count=", e.args[2], r3, f3);
    var r1, f1 := Field(", buf=", SharpHex(e.args[1]), r2), Text(", buf=", Hex(e.args[1], f2));
    ReadHex(", buf=", e.args[1], r2, f2);
    var r0, f0 := Field("(fd=", Unsigned(e.args[0]), r1), Text("(fd=", Dec(e.args[0], f1));
    ReadDec("(fd=", e.args[0], r1, f1);
    ReadText(lib.name, r0, f0);
  }

  /** `ioctl`. */
  lemma ReadIoctl(e: Event, lib: Library)
    requires e.syscallId == 29
    ensures Reads(LineOf(e, lib),
      Text(lib.name,
      Text("(fd=", Dec(e.args[0],
      Text(", cmd=", Hex(e.args[1],
      Text(", arg=", Hex(e.args[2],
      Text(")", End)))))))))
  {
    hide Reads, Field, Unsigned, SharpHex, SharpOctal, Signed, ToI64, SockaddrText, FlagText, ArgString;
    ReadClose();
    var r3, f3 := ")", Text(")", End);
    var r2, f2 := Field(", arg=", SharpHex(e.args[2]), r3), Text(", arg=", Hex(e.args[2], f3));
    ReadHex(", arg=", e.args[2], r3, f3);
    var r1, f1 := Field(", cmd=", SharpHex(e.args[1]), r2), Text(", cmd=", Hex(e.args[1], f2));
    ReadHex(", cmd=", e.args[1], r2, f2);
    var r0, f0 := Field("(fd=", Unsigned(e.args[0]), r1), Text("(fd=", Dec(e.args[0], f1));
    ReadDec("(fd=", e.args[0], r1, f1);
    ReadText(lib.name, r0, f0);
  }

  /** `futex`. */
  lemma ReadFutex(e: Event, lib: Library)
    requires e.syscallId == 98
    ensures Reads(LineOf(e, lib),
      Text(lib.name,
      Text("(uaddr=", Hex(e.args[0],
      Text(", op=", Text(lib.futexOp,
      Text("(", Hex(e.args[1],
      Text("), val=", Dec(e.args[2],
      Text(", timeout/uaddr2=", Hex(e.args[3],
      Text(", val3=", Hex(e.args[4],
      Text(")", End)))))))))))))))
  {
    hide Reads, Field, Unsigned, SharpHex, SharpOctal, Signed, ToI64, SockaddrText, FlagText, ArgString;
    ReadClose();
    var r6, f6 := ")", Text(")", End);
    var r5, f5 := Field(", val3=", SharpHex(e.args[4]), r6), Text(", val3=", Hex(e.args[4], f6));
    ReadHex(", val3=", e.args[4], r6, f6);
    var r4, f4 := Field(", timeout/uaddr2=", SharpHex(e.args[3]), r5), Text(", timeout/uaddr2=", Hex(e.args[3], f5));
    ReadHex(", timeout/uaddr2=", e.args[3], r5, f5);
    var r3, f3 := Field("), val=", Unsigned(e.args[2]), r4), Text("), val=", Dec(e.args[2], f4));
    ReadDec("), val=", e.args[2], r4, f4);
    var r2, f2 := Field("(", SharpHex(e.args[1]), r3), Text("(", Hex(e.args[1], f3));
    ReadHex("(", e.args[1], r3, f3);
    var r1, f1 := Field(", op=", lib.futexOp, r2), Text(", op=", Text(lib.futexOp, f2));
    ReadStr(", op=", lib.futexOp, r2, f2);
    var r0, f0 := Field("(uaddr=", SharpHex(e.args[0]), r1), Text("(uaddr=", Hex(e.args[0], f1));
    ReadHex("(uaddr=", e.args[0], r1, f1);
    ReadText(lib.name, r0, f0);
  }

  /** `openat` with a path. */
  lemma ReadOpenat(e: Event, lib: Library)
    requires e.syscallId == 56 && ArgString(e).Some?
    ensures Reads(LineOf(e, lib),
      Text(lib.name,
      Text("(dfd=", Long(e.args[0],
      Text(", pathname=\"", Text(ArgString(e).value,
      Text("\", flags=", Text(FlagText(lib.fcntl, e.args[2] as bv64),
      Text(", mode=", Oct(e.args[3],
      Text(")", End)))))))))))
  {
    hide Reads, Field, Unsigned, SharpHex, SharpOctal, Signed, ToI64, SockaddrText, FlagText, ArgString;
    ReadClose();
    var r4, f4 := ")", Text(")", End);
    var r3, f3 := Field(", mode=", SharpOctal(e.args[3]), r4), Text(", mode=", Oct(e.args[3], f4));
    ReadOct(", mode=", e.args[3], r4, f4);
    var r2, f2 := Field("\", flags=", FlagText(lib.fcntl, e.args[2] as bv64), r3), Text("\", flags=", Text(FlagText(lib.fcntl, e.args[2] as bv64), f3));
    ReadStr("\", flags=", FlagText(lib.fcntl, e.args[2] as bv64), r3, f3);
    var r1, f1 := Field(", pathname=\"", ArgString(e).value, r2), Text(", pathname=\"", Text(ArgString(e).value, f2));
    ReadStr(", pathname=\"", ArgString(e).value, r2, f2);
    var r0, f0 := Field("(dfd=", Signed(ToI64(e.args[0])), r1), Text("(dfd=", Long(e.args[0], f1));
    ReadLong("(dfd=", e.args[0], r1, f1);
    ReadText(lib.name, r0, f0);
  }

  /** `openat` without one. */
  lemma ReadOpenatPointer(e: Event, lib: Library)
    requires e.syscallId == 56 && ArgString(e).None?
    ensures Reads(LineOf(e, lib),
      Text(lib.name,
      Text("(dfd=", Long(e.args[0],
      Text(", pathname=", Hex(e.args[1],
      Text(", flags=", Text(FlagText(lib.fcntl, e.args[2] as bv64),
      Text(", mode=", Oct(e.args[3],
      Text(")", End)))))))))))
  {
    hide Reads, Field, Unsigned, SharpHex, SharpOctal, Signed, ToI64, SockaddrText, FlagText, ArgString;
    ReadClose();
    var r4, f4 := ")", Text(")", End);
    var r3, f3 := Field(", mode=", SharpOctal(e.args[3]), r4), Text(", mode=", Oct(e.args[3], f4));
    ReadOct(", mode=", e.args[3], r4, f4);
    var r2, f2 := Field(", flags=", FlagText(lib.fcntl, e.args[2] as bv64), r3), Text(", flags=", Text(FlagText(lib.fcntl, e.args[2] as bv64), f3));
    ReadStr(", flags=", FlagText(lib.fcntl, e.args[2] as bv64), r3, f3);
    var r1, f1 := Field(", pathname=", SharpHex(e.args[1]), r2), Text(", pathname=", Hex(e.args[1], f2));
    ReadHex(", pathname=", e.args[1], r2, f2);
    var r0, f0 := Field("(dfd=", Signed(ToI64(e.args[0])), r1), Text("(dfd=", Long(e.args[0], f1));
    ReadLong("(dfd=", e.args[0], r1, f1);
    ReadText(lib.name, r0, f0);
  }

  /** `openat2` with a path. */
  lemma ReadOpenat2(e: Event, lib: Library)
    requires e.syscallId == 437 && ArgString(e).Some?
    ensures Reads(LineOf(e, lib),
      Text(lib.name,
      Text("(dfd=", Long(e.args[0],
      Text(", pathname=\"", Text(ArgString(e).value,
      Text("\", how=", Hex(e.args[2],
      Text(", size=", Dec(e.args[3],
      Text(")", End)))))))))))
  {
    hide Reads, Field, Unsigned, SharpHex, SharpOctal, Signed, ToI64, SockaddrText, FlagText, ArgString;
    ReadClose();
    var r4, f4 := ")", Text(")", End);
    var r3, f3 := Field(", size=", Unsigned(e.args[3]), r4), Text(", size=", Dec(e.args[3], f4));
    ReadDec(", size=", e.args[3], r4, f4);
    var r2, f2 := Field("\", how=", SharpHex(e.args[2]), r3), Text("\", how=", Hex(e.args[2], f3));
    ReadHex("\", how=", e.args[2], r3, f3);
    var r1, f1 := Field(", pathname=\"", ArgString(e).value, r2), Text(", pathname=\"", Text(ArgString(e).value, f2));
    ReadStr(", pathname=\"", ArgString(e).value, r2, f2);
    var r0, f0 := Field("(dfd=", Signed(ToI64(e.args[0])), r1), Text("(dfd=", Long(e.args[0], f1));
    ReadLong("(dfd=", e.args[0], r1, f1);
    ReadText(lib.name, r0, f0);
  }

  /** `openat2` without one. */
  lemma ReadOpenat2Pointer(e: Event, lib: Library)
    requires e.syscallId == 437 && ArgString(e).None?
    ensures Reads(LineOf(e, lib),
      Text(lib.name,
      Text("(dfd=", Long(e.args[0],
      Text(", pathname=", Hex(e.args[1],
      Text(", how=", Hex(e.args[2],
      Text(", size=", Dec(e.args[3],
      Text(")", End)))))))))))
  {
    hide Reads, Field, Unsigned, SharpHex, SharpOctal, Signed, ToI64, SockaddrText, FlagText, ArgString;
    ReadClose();
    var r4, f4 := ")", Text(")", End);
    var r3, f3 := Field(", size=", Unsigned(e.args[3]), r4), Text(", size=", Dec(e.args[3], f4));
    ReadDec(", size=", e.args[3], r4, f4);
    var r2, f2 := Field(", how=", SharpHex(e.args[2]), r3), Text(", how=", Hex(e.args[2], f3));
    ReadHex(", how=", e.args[2], r3, f3);
    var r1, f1 := Field(", pathname=", SharpHex(e.args[1]), r2), Text(", pathname=", Hex(e.args[1], f2));
    ReadHex(", pathname=", e.args[1], r2, f2);
    var r0, f0 := Field("(dfd=", Signed(ToI64(e.args[0])), r1), Text("(dfd=", Long(e.args[0], f1));
    ReadLong("(dfd=", e.args[0], r1, f1);
    ReadText(lib.name, r0, f0);
  }

  /** `execve` with a path. */
  lemma ReadExecve(e: Event, lib: Library)
    requires e.syscallId == 221 && ArgString(e).Some?
    ensures Reads(LineOf(e, lib),
      Text(lib.name,
      Text("(filename=\"", Text(ArgString(e).value,
      Text("\", argv=", Hex(e.args[1],
      Text(", envp=", Hex(e.args[2],
      Text(")", End)))))))))
  {
    hide Reads, Field, Unsigned, SharpHex, SharpOctal, Signed, ToI64, SockaddrText, FlagText, ArgString;
    ReadClose();
    var r3, f3 := ")", Text(")", End);
    var r2, f2 := Field(", envp=", SharpHex(e.args[2]), r3), Text(", envp=", Hex(e.args[2], f3));
    ReadHex(", envp=", e.args[2], r3, f3);
    var r1, f1 := Field("\", argv=", SharpHex(e.args[1]), r2), Text("\", argv=", Hex(e.args[1], f2));
    ReadHex("\", argv=", e.args[1], r2, f2);
    var r0, f0 := Field("(filename=\"", ArgString(e).value, r1), Text("(filename=\"", Text(ArgString(e).value, f1));
    ReadStr("(filename=\"", ArgString(e).value, r1, f1);
    ReadText(lib.name, r0, f0);
  }

  /** `execve` without one. */
  lemma ReadExecvePointer(e: Event, lib: Library)
    requires e.syscallId == 221 && ArgString(e).None?
    ensures Reads(LineOf(e, lib),
      Text(lib.name,
      Text("(filename=", Hex(e.args[0],
      Text(", argv=", Hex(e.args[1],
      Text(", envp=", Hex(e.args[2],
      Text(")", End)))))))))
  {
    hide Reads, Field, Unsigned, SharpHex, SharpOctal, Signed, ToI64, SockaddrText, FlagText, ArgString;
    ReadClose();
    var r3, f3 := ")", Text(")", End);
    var r2, f2 := Field(", envp=", SharpHex(e.args[2]), r3), Text(", envp=", Hex(e.args[2], f3));
    ReadHex(", envp=", e.args[2], r3, f3);
    var r1, f1 := Field(", argv=", SharpHex(e.args[1]), r2), Text(", argv=", Hex(e.args[1], f2));
    ReadHex(", argv=", e.args[1], r2, f2);
    var r0, f0 := Field("(filename=", SharpHex(e.args[0]), r1), Text("(filename=", Hex(e.args[0], f1));
    ReadHex("(filename=", e.args[0], r1, f1);
    ReadText(lib.name, r0, f0);
  }

  /** `connect` and `bind`. */
  lemma ReadConnect(e: Event, lib: Library)
    requires e.syscallId == 203 || e.syscallId == 200
    ensures Reads(LineOf(e, lib),
      Text(lib.name,
      Text("(sockfd=", Dec(e.args[0],
      Text(", addr=", Text(SockaddrText(e, lib.ntop),
      Text(", addrlen=", Dec(e.args[2],
      Text(")", End)))))))))
  {
    hide Reads, Field, Unsigned, SharpHex, SharpOctal, Signed, ToI64, SockaddrText, FlagText, ArgString;
    ReadClose();
    var r3, f3 := ")", Text(")", End);
    var r2, f2 := Field(", addrlen=", Unsigned(e.args[2]), r3), Text(", addrlen=", Dec(e.args[2], f3));
    ReadDec(", addrlen=", e.args[2], r3, f3);
    var r1, f1 := Field(", addr=", SockaddrText(e, lib.ntop), r2), Text(", addr=", Text(SockaddrText(e, lib.ntop), f2));
    ReadStr(", addr=", SockaddrText(e, lib.ntop), r2, f2);
    var r0, f0 := Field("(sockfd=", Unsigned(e.args[0]), r1), Text("(sockfd=", Dec(e.args[0], f1));
    ReadDec("(sockfd=", e.args[0], r1, f1);
    ReadText(lib.name, r0, f0);
  }

  /** `sendto`. */
  lemma ReadSendto(e: Event, lib: Library)
    requires e.syscallId == 206
    ensures Reads(LineOf(e, lib),
      Text(lib.name,
      Text("(sockfd=", Dec(e.args[0],
      Text(", buf=", Hex(e.args[1],
      Text(", len=", Dec(e.args[2],
      Text(", flags=", Hex(e.args[3],
      Text(", dest_addr=", Text(SockaddrText(e, lib.ntop),
      Text(", addrlen=", Dec(e.args[5],
      Text(")", End)))))))))))))))
  {
    hide Reads, Field, Unsigned, SharpHex, SharpOctal, Signed, ToI64, SockaddrText, FlagText, ArgString;
    ReadClose();
    var r6, f6 := ")", Text(")", End);
    var r5, f5 := Field(", addrlen=", Unsigned(e.args[5]), r6), Text(", addrlen=", Dec(e.args[5], f6));
    ReadDec(", addrlen=", e.args[5], r6, f6);
    var r4, f4 := Field(", dest_addr=", SockaddrText(e, lib.ntop), r5), Text(", dest_addr=", Text(SockaddrText(e, lib.ntop), f5));
    ReadStr(", dest_addr=", SockaddrText(e, lib.ntop), r5, f5);
    var r3, f3 := Field(", flags=", SharpHex(e.args[3]), r4), Text(", flags=", Hex(e.args[3], f4));
    ReadHex(", flags=", e.args[3], r4, f4);
    var r2, f2 := Field(", len=", Unsigned(e.args[2]), r3), Text(", len=", Dec(e.args[2], f3));
    ReadDec(", len=", e.args[2], r3, f3);
    var r1, f1 := Field(", buf=", SharpHex(e.args[1]), r2), Text(", buf=", Hex(e.args[1], f2));
    ReadHex(", buf=", e.args[1], r2, f2);
    var r0, f0 := Field("(sockfd=", Unsigned(e.args[0]), r1), Text("(sockfd=", Dec(e.args[0], f1));
    ReadDec("(sockfd=", e.args[0], r1, f1);
    ReadText(lib.name, r0, f0);
  }

  /** `epoll_pwait`. */
  lemma ReadEpoll(e: Event, lib: Library)
    requires e.syscallId == 22
    ensures Reads(LineOf(e, lib),
      Text(lib.name,
      Text("(epfd=", Dec(e.args[0],
      Text(", events=", Hex(e.args[1],
      Text(", maxevents=", Dec(e.args[2],
      Text(", timeout=", Long(e.args[3],
      Text(", sigmask=", Hex(e.args[4],
      Text(", sigsetsize=", Dec(e.args[5],
      Text(")", End)))))))))))))))
  {
    hide Reads, Field, Unsigned, SharpHex, SharpOctal, Signed, ToI64, SockaddrText, FlagText, ArgString;
    ReadClose();
    var r6, f6 := ")", Text(")", End);
    var r5, f5 := Field(", sigsetsize=", Unsigned(e.args[5]), r6), Text(", sigsetsize=", Dec(e.args[5], f6));
    ReadDec(", sigsetsize=", e.args[5], r6, f6);
    var r4, f4 := Field(", sigmask=", SharpHex(e.args[4]), r5), Text(", sigmask=", Hex(e.args[4], f5));
    ReadHex(", sigmask=", e.args[4], r5, f5);
    var r3, f3 := Field(", timeout=", Signed(ToI64(e.args[3])), r4), Text(", timeout=", Long(e.args[3], f4));
    ReadLong(", timeout=", e.args[3], r4, f4);
    var r2, f2 := Field(", maxevents=", Unsigned(e.args[2]), r3), Text(", maxevents=", Dec(e.args[2], f3));
    ReadDec(", maxevents=", e.args[2], r3, f3);
    var r1, f1 := Field(", events=", SharpHex(e.args[1]), r2), Text(", events=", Hex(e.args[1], f2));
    ReadHex(", events=", e.args[1], r2, f2);
    var r0, f0 := Field("(epfd=", Unsigned(e.args[0]), r1), Text("(epfd=", Dec(e.args[0], f1));
    ReadDec("(epfd=", e.args[0], r1, f1);
    ReadText(lib.name, r0, f0);
  }

  /** Any other call. */
  lemma ReadRaw(e: Event, lib: Library)
    requires e.syscallId !in {63, 64, 29, 98, 56, 437, 221, 203, 200, 206, 22}
    ensures Reads(LineOf(e, lib),
      Text(lib.name,
      Text("(", Hex(e.args[0],
      Text(", ", Hex(e.args[1],
      Text(", ", Hex(e.args[2],
      Text(", ", Hex(e.args[3],
      Text(", ", Hex(e.args[4],
      Text(", ", Hex(e.args[5],
      Text(")", End)))))))))))))))
  {
    hide Reads, Field, Unsigned, SharpHex, SharpOctal, Signed, ToI64, SockaddrText, FlagText, ArgString;
    ReadClose();
    var r6, f6 := ")", Text(")", End);
    var r5, f5 := Field(", ", SharpHex(e.args[5]), r6), Text(", ", Hex(e.args[5], f6));
    ReadHex(", ", e.args[5], r6, f6);
    var r4, f4 := Field(", ", SharpHex(e.args[4]), r5), Text(", ", Hex(e.args[4], f5));
    ReadHex(", ", e.args[4], r5, f5);
    var r3, f3 := Field(", ", SharpHex(e.args[3]), r4), Text(", ", Hex(e.args[3], f4));
    ReadHex(", ", e.args[3], r4, f4);
    var r2, f2 := Field(", ", SharpHex(e.args[2]), r3), Text(", ", Hex(e.args[2], f3));
    ReadHex(", ", e.args[2], r3, f3);
    var r1, f1 := Field(", ", SharpHex(e.args[1]), r2), Text(", ", Hex(e.args[1], f2));
    ReadHex(", ", e.args[1], r2, f2);
    var r0, f0 := Field("(", SharpHex(e.args[0]), r1), Text("(", Hex(e.args[0], f1));
    ReadHex("(", e.args[0], r1, f1);
    ReadText(lib.name, r0, f0);
  }
}
