/** Byte strings and the splitting operations that the proxy's parsers share. */
module Bytes {
  import opened Options

  type byte = b: int | 0 <= b < 256

  type bytes = seq<byte>

  /** How a byte stream ends behind its last byte. */
  datatype Ending = Eof | TimedOut | Reset

  const CR: byte := 13
  const LF: byte := 10

  /** `s.split(sep)` for a separator of one byte. */
  function SplitOn(s: bytes, sep: byte): (pieces: seq<bytes>)
    ensures |pieces| >= 1
  {
    if s == [] then [[]] else Grow(s[0], sep, SplitOn(s[1..], sep))
  }

  function Grow(b: byte, sep: byte, rest: seq<bytes>): seq<bytes>
    requires |rest| >= 1
  {
    if b == sep then [[]] + rest else [[b] + rest[0]] + rest[1..]
  }

  function SplitLines(s: bytes): (lines: seq<bytes>)
    ensures |lines| >= 1
  {
    SplitOn(s, LF)
  }

  function Join(pieces: seq<bytes>, sep: byte): bytes
    requires |pieces| >= 1
  {
    if |pieces| == 1 then pieces[0] else pieces[0] + [sep] + Join(pieces[1..], sep)
  }

  /** Splitting is the one way to cut a text into separator-free pieces that join to it. */
  lemma {:induction false} JoinUndoesSplit(s: bytes, sep: byte)
    ensures Join(SplitOn(s, sep), sep) == s
    ensures forall i :: 0 <= i < |SplitOn(s, sep)| ==> sep !in SplitOn(s, sep)[i]
  {
    if s != [] {
      JoinUndoesSplit(s[1..], sep);
      var rest := SplitOn(s[1..], sep);
      if s[0] == sep {
        assert ([[]] + rest)[1..] == rest;
      } else {
        assert SplitOn(s, sep)[1..] == rest[1..];
      }
    }
  }

  lemma {:induction false} SplitFirst(x: bytes, y: bytes, sep: byte)
    requires sep !in x
    ensures SplitOn(x, sep) == [x]
    ensures SplitOn(x + [sep] + y, sep) == [x] + SplitOn(y, sep)
  {
    if x == [] {
      assert (x + [sep] + y)[1..] == y;
    } else {
      assert x[0] in x && x == [x[0]] + x[1..];
      SplitFirst(x[1..], y, sep);
      assert (x + [sep] + y)[1..] == x[1..] + [sep] + y;
      assert ([x[1..]] + SplitOn(y, sep))[1..] == SplitOn(y, sep);
    }
  }

  lemma {:induction false} SplitUndoesJoin(pieces: seq<bytes>, sep: byte)
    requires |pieces| >= 1 && forall i :: 0 <= i < |pieces| ==> sep !in pieces[i]
    ensures SplitOn(Join(pieces, sep), sep) == pieces
  {
    if |pieces| == 1 {
      SplitFirst(pieces[0], [], sep);
    } else {
      SplitFirst(pieces[0], Join(pieces[1..], sep), sep);
      SplitUndoesJoin(pieces[1..], sep);
    }
  }

  /** Bytes put in front of a text only touch its first line. */
  lemma {:induction false} SplitPrepend(x: bytes, y: bytes)
    ensures SplitLines(x + y) == SplitLines(x + SplitLines(y)[0]) + SplitLines(y)[1..]
  {
    var first, others := SplitLines(y)[0], SplitLines(y)[1..];
    if x == [] {
      assert x + y == y && x + first == first;
      JoinUndoesSplit(y, LF);
      SplitFirst(first, [], LF);
    } else {
      SplitPrepend(x[1..], y);
      assert (x + y)[1..] == x[1..] + y;
      assert (x + first)[1..] == x[1..] + first;
      GrowAppend(x[0], SplitLines(x[1..] + first), others);
    }
  }

  lemma GrowAppend(b: byte, rest: seq<bytes>, others: seq<bytes>)
    requires |rest| >= 1
    ensures Grow(b, LF, rest + others) == Grow(b, LF, rest) + others
  {
    assert (rest + others)[1..] == rest[1..] + others;
  }

  function IndexOf(s: bytes, b: byte): (i: Option<nat>)
    ensures i.Some? ==> i.value < |s| && s[i.value] == b && b !in s[..i.value]
    ensures i.None? ==> b !in s
  {
    if s == [] then None
    else if s[0] == b then Some(0)
    else
      match IndexOf(s[1..], b)
      case None => None
      case Some(i) =>
        assert s[..i + 1] == [s[0]] + s[1..][..i];
        Some(i + 1)
  }

  function LastIndexOf(s: bytes, b: byte): (i: Option<nat>)
    ensures i.Some? ==> i.value < |s| && s[i.value] == b && b !in s[i.value + 1..]
    ensures i.None? ==> b !in s
  {
    if s == [] then None
    else if s[|s| - 1] == b then Some(|s| - 1)
    else
      match LastIndexOf(s[..|s| - 1], b)
      case None =>
        assert s == s[..|s| - 1] + [s[|s| - 1]];
        None
      case Some(i) =>
        assert s[i + 1..] == s[..|s| - 1][i + 1..] + [s[|s| - 1]];
        Some(i)
  }

  predicate IsAsciiText(s: string) {
    forall i :: 0 <= i < |s| ==> s[i] < 128 as char
  }

  /** The bytes of an ASCII literal. */
  function Ascii(s: string): (r: bytes)
    requires IsAsciiText(s)
    ensures |r| == |s|
    ensures forall i :: 0 <= i < |s| ==> r[i] == s[i] as int
  {
    seq(|s|, i requires 0 <= i < |s| => s[i] as int)
  }

  function LowerByte(b: byte): byte {
    if 65 <= b <= 90 then b + 32 else b
  }

  function Lower(s: bytes): (r: bytes)
    ensures |r| == |s|
    ensures forall i :: 0 <= i < |s| ==> r[i] == if 'A' as int <= s[i] <= 'Z' as int then s[i] + 32 else s[i]
  {
    seq(|s|, i requires 0 <= i < |s| => LowerByte(s[i]))
  }

  predicate IsSpace(b: byte) {
    b == 32 || 9 <= b <= 13
  }

  function LeftStrip(s: bytes): bytes {
    if s != [] && IsSpace(s[0]) then LeftStrip(s[1..]) else s
  }

  function RightStrip(s: bytes): bytes {
    if s != [] && IsSpace(s[|s| - 1]) then RightStrip(s[..|s| - 1]) else s
  }

  /** `s.strip()` */
  function Strip(s: bytes): bytes {
    RightStrip(LeftStrip(s))
  }

  ghost predicate IsBlank(s: bytes) {
    forall i :: 0 <= i < |s| ==> s[i] == 32 || 9 <= s[i] <= 13
  }

  /** Neither the first nor the last byte is a blank. */
  ghost predicate IsTrimmed(s: bytes) {
    s != [] ==> !IsBlank(s[..1]) && !IsBlank(s[|s| - 1..])
  }

  /** What `strip` takes away are blanks at both ends, and all of them. */
  lemma {:induction false} LeftStripParts(s: bytes) returns (lead: bytes)
    ensures s == lead + LeftStrip(s) && IsBlank(lead)
    ensures LeftStrip(s) != [] ==> !IsSpace(LeftStrip(s)[0])
  {
    if s != [] && IsSpace(s[0]) {
      var rest := LeftStripParts(s[1..]);
      lead := [s[0]] + rest;
    } else {
      lead := [];
    }
  }

  lemma {:induction false} RightStripParts(s: bytes) returns (trail: bytes)
    ensures s == RightStrip(s) + trail && IsBlank(trail)
    ensures RightStrip(s) != [] ==> !IsSpace(RightStrip(s)[|RightStrip(s)| - 1])
  {
    if s != [] && IsSpace(s[|s| - 1]) {
      var rest := RightStripParts(s[..|s| - 1]);
      trail := rest + [s[|s| - 1]];
    } else {
      trail := [];
    }
  }

  lemma StripParts(s: bytes) returns (lead: bytes, trail: bytes)
    ensures s == lead + Strip(s) + trail && IsBlank(lead) && IsBlank(trail)
    ensures Strip(s) != [] ==> !IsSpace(Strip(s)[0]) && !IsSpace(Strip(s)[|Strip(s)| - 1])
  {
    lead := LeftStripParts(s);
    trail := RightStripParts(LeftStrip(s));
  }

  lemma {:induction false} LeftStripIs(lead: bytes, s: bytes)
    requires IsBlank(lead) && (s != [] ==> !IsSpace(s[0]))
    ensures LeftStrip(lead + s) == s
  {
    if lead == [] {
      assert lead + s == s;
    } else {
      assert (lead + s)[0] == lead[0] && (lead + s)[1..] == lead[1..] + s;
      LeftStripIs(lead[1..], s);
    }
  }

  lemma {:induction false} RightStripIs(s: bytes, trail: bytes)
    requires IsBlank(trail) && (s != [] ==> !IsSpace(s[|s| - 1]))
    ensures RightStrip(s + trail) == s
  {
    if trail == [] {
      assert s + trail == s;
    } else {
      var all := s + trail;
      assert all[|all| - 1] == trail[|trail| - 1] && all[..|all| - 1] == s + trail[..|trail| - 1];
      RightStripIs(s, trail[..|trail| - 1]);
    }
  }

  lemma StripIs(lead: bytes, core: bytes, trail: bytes)
    requires IsBlank(lead) && IsBlank(trail) && IsTrimmed(core)
    ensures Strip(lead + core + trail) == core
  {
    assert lead + core + trail == lead + (core + trail);
    if core == [] {
      assert lead + (core + trail) == (lead + trail) + [];
      LeftStripIs(lead + trail, []);
    } else {
      assert core[..1] == [core[0]] && core[|core| - 1..] == [core[|core| - 1]];
      assert (core + trail)[0] == core[0];
      LeftStripIs(lead, core + trail);
      RightStripIs(core, trail);
    }
  }
}
