/** C strings in fixed-size buffers. */
module Buffers {
  import opened Basics

  const NUL := '\0'

  /** The buffer holds `text` and its terminator from its start. */
  ghost predicate Holds(buf: array<char>, text: string)
    reads buf
  {
    |text| < buf.Length && buf[..|text|] == text && buf[|text|] == NUL
  }

  /** `snprintf (buf + off, size, "%s", text)`, after section 7.21.6.5 of ISO C11: at most `size`
      bytes are written, the last of them a terminator, and the result is the length that the whole
      text has. */
  method Snprintf(buf: array<char>, off: nat, size: nat, text: string) returns (n: nat)
    requires off + size <= buf.Length
    modifies buf
    ensures n == |text|
    ensures size > 0 ==>
              var k := Min(|text|, size - 1);
              buf[off..off + k] == text[..k] && buf[off + k] == NUL
    ensures buf[..off] == old(buf[..off])
    ensures buf[off + size..] == old(buf[off + size..])
  {
    n := |text|;
    if size == 0 {
      return;
    }
    var k := Min(|text|, size - 1);
    for i := 0 to k
      invariant buf[off..off + i] == text[..i]
      invariant buf[..off] == old(buf[..off])
      invariant buf[off + size..] == old(buf[off + size..])
    {
      buf[off + i] := text[i];
    }
    buf[off + k] := NUL;
  }

  /** Printing a text that fits into a buffer leaves exactly that text. */
  method Print(buf: array<char>, text: string)
    requires |text| < buf.Length
    modifies buf
    ensures Holds(buf, text)
  {
    var n := Snprintf(buf, 0, buf.Length, text);
    assert text[..|text|] == text;
  }

  /** The C string at the start of a buffer. */
  function CString(s: string): (r: string)
    ensures |r| <= |s| && r == s[..|r|] && NUL !in r
    ensures |r| < |s| ==> s[|r|] == NUL
  {
    if s == "" || s[0] == NUL then "" else [s[0]] + CString(s[1..])
  }

  /** Only one length has its first terminator right behind it. */
  lemma CStringIs(s: string, text: string)
    requires |text| < |s| && s[..|text|] == text && s[|text|] == NUL && NUL !in text
    ensures CString(s) == text
  {
    var r := CString(s);
    forall i | 0 <= i < |text| ensures s[i] != NUL {
      assert text[i] == s[i];
    }
    forall i | 0 <= i < |r| ensures s[i] != NUL {
      assert r[i] == s[i];
    }
  }

  lemma HoldsReads(buf: array<char>, text: string)
    requires Holds(buf, text) && NUL !in text
    ensures CString(buf[..]) == text
  {
    assert buf[..][..|text|] == buf[..|text|];
    CStringIs(buf[..], text);
  }

  // ---------------------------------------------------------------- splitting

  function Split(s: string, c: char): (r: seq<string>)
    ensures |r| > 0
  {
    if s == "" then [""]
    else
      var r := Split(s[1..], c);
      if s[0] == c then [""] + r else [[s[0]] + r[0]] + r[1..]
  }

  lemma {:induction false} SplitWhole(s: string, c: char)
    requires c !in s
    ensures Split(s, c) == [s]
  {
    if s != "" {
      SplitWhole(s[1..], c);
      assert s == [s[0]] + s[1..];
    }
  }

  /** What follows the last separator is the last part. */
  lemma {:induction false} SplitLast(s: string, c: char, part: string)
    requires c !in part
    ensures Split(s + [c] + part, c) == Split(s, c) + [part]
  {
    var all := s + [c] + part;
    if s == "" {
      assert all[1..] == part && all[0] == c;
      SplitWhole(part, c);
    } else {
      assert all[1..] == s[1..] + [c] + part && all[0] == s[0];
      SplitLast(s[1..], c, part);
      var r := Split(s[1..], c);
      assert (r + [part])[1..] == r[1..] + [part];
    }
  }

  function Join(parts: seq<string>, c: char): string {
    if parts == [] then "" else if |parts| == 1 then parts[0] else parts[0] + [c] + Join(parts[1..], c)
  }

  /** The parts hold no separator, and with separators between them they are the whole. */
  lemma {:induction false} SplitJoins(s: string, c: char)
    ensures Join(Split(s, c), c) == s
    ensures forall i :: 0 <= i < |Split(s, c)| ==> c !in Split(s, c)[i]
  {
    if s != "" {
      SplitJoins(s[1..], c);
      var r := Split(s[1..], c);
      if s[0] == c {
        assert ([""] + r)[1..] == r;
      } else {
        assert ([[s[0]] + r[0]] + r[1..])[1..] == r[1..];
      }
      assert s == [s[0]] + s[1..];
    }
  }
}
