/** Dotted-decimal IPv4 text: `inet_ntoa`, and `inet_aton` on texts without leading zeros. */
module Dotted {
  import opened Options
  import opened Bytes
  import Numerals

  const DOT: byte := 46

  function Digit(d: nat): byte
    requires d < 10
  {
    48 + d
  }

  function PrintOctet(b: byte): bytes {
    if b < 10 then [Digit(b)]
    else if b < 100 then [Digit(b / 10), Digit(b % 10)]
    else [Digit(b / 100), Digit(b / 10 % 10), Digit(b % 10)]
  }

  function Ntoa(a: bytes): bytes
    requires |a| == 4
  {
    PrintOctet(a[0]) + [DOT] + (PrintOctet(a[1]) + [DOT] + (PrintOctet(a[2]) + [DOT] + PrintOctet(a[3])))
  }

  function ParseNumber(s: bytes, sofar: nat): Option<nat> {
    if s == [] then Some(sofar)
    else if 48 <= s[0] <= 57 then ParseNumber(s[1..], sofar * 10 + (s[0] - 48))
    else None
  }

  function ParseOctet(s: bytes): Option<byte> {
    if s == [] || (|s| > 1 && s[0] == 48) then None else
      match ParseNumber(s, 0)
      case None => None
      case Some(n) => if n < 256 then Some(n) else None
  }

  function Aton(s: bytes): Option<bytes> {
    var parts := SplitOn(s, DOT);
    if |parts| != 4 then None else
      var a, b, c, d := ParseOctet(parts[0]), ParseOctet(parts[1]), ParseOctet(parts[2]), ParseOctet(parts[3]);
      if a.None? || b.None? || c.None? || d.None? then None
      else Some([a.value, b.value, c.value, d.value])
  }

  lemma OctetBack(b: byte)
    ensures ParseOctet(PrintOctet(b)) == Some(b)
    ensures DOT !in PrintOctet(b) && IsPlain(PrintOctet(b))
  {
    if b < 10 {
      var s: bytes := [Digit(b)];
      assert s[1..] == [] && ParseNumber(s, 0) == ParseNumber([], b);
    } else if b < 100 {
      TwoDigits(b / 10, b % 10);
    } else {
      ThreeDigits(b / 100, b / 10 % 10, b % 10);
      assert b / 100 * 100 + b / 10 % 10 * 10 + b % 10 == b;
    }
  }

  lemma TwoDigits(y: nat, z: nat)
    requires y < 10 && z < 10
    ensures ParseNumber([Digit(y), Digit(z)], 0) == Some(y * 10 + z)
  {
    var s: bytes := [Digit(y), Digit(z)];
    assert s[1..] == [Digit(z)] && s[1..][1..] == [];
    assert ParseNumber(s[1..], y) == ParseNumber([], y * 10 + z);
  }

  lemma ThreeDigits(x: nat, y: nat, z: nat)
    requires x < 10 && y < 10 && z < 10
    ensures ParseNumber([Digit(x), Digit(y), Digit(z)], 0) == Some(x * 100 + y * 10 + z)
  {
    var s: bytes := [Digit(x), Digit(y), Digit(z)];
    assert s[1..] == [Digit(y), Digit(z)] && s[1..][1..] == [Digit(z)] && s[1..][1..][1..] == [];
    assert ParseNumber(s[1..], x) == ParseNumber(s[1..][1..], x * 10 + y);
    assert ParseNumber(s[1..][1..], x * 10 + y) == ParseNumber([], (x * 10 + y) * 10 + z);
  }

  predicate IsPlain(s: bytes) {
    forall i :: 0 <= i < |s| ==> s[i] < 128
  }

  /** Parsing the printed address gives back its four bytes. */
  lemma AtonUndoesNtoa(a: bytes)
    requires |a| == 4
    ensures Aton(Ntoa(a)) == Some(a)
  {
    var p0, p1, p2, p3 := PrintOctet(a[0]), PrintOctet(a[1]), PrintOctet(a[2]), PrintOctet(a[3]);
    OctetBack(a[0]);
    OctetBack(a[1]);
    OctetBack(a[2]);
    OctetBack(a[3]);
    SplitFirst(p3, [], DOT);
    SplitFirst(p2, p3, DOT);
    SplitFirst(p1, p2 + [DOT] + p3, DOT);
    SplitFirst(p0, p1 + [DOT] + (p2 + [DOT] + p3), DOT);
    assert SplitOn(Ntoa(a), DOT) == [p0, p1, p2, p3];
    assert a == [a[0], a[1], a[2], a[3]];
  }

  lemma OctetIsDecimal(b: byte)
    ensures PrintOctet(b) == Numerals.DecimalText(b)
  {
    if b >= 10 {
      assert Numerals.DecimalText(b) == Numerals.DecimalText(b / 10) + [48 + b % 10];
    }
    if b >= 100 {
      assert Numerals.DecimalText(b / 10) == Numerals.DecimalText(b / 100) + [48 + b / 10 % 10];
    }
  }

  /** The text is the four decimal numbers with points between them. */
  lemma NtoaIsDecimal(a: bytes)
    requires |a| == 4
    ensures Ntoa(a) == Numerals.DecimalText(a[0]) + [46] + (Numerals.DecimalText(a[1]) + [46]
                       + (Numerals.DecimalText(a[2]) + [46] + Numerals.DecimalText(a[3])))
  {
    OctetIsDecimal(a[0]);
    OctetIsDecimal(a[1]);
    OctetIsDecimal(a[2]);
    OctetIsDecimal(a[3]);
  }

  lemma NtoaIsPlain(a: bytes)
    requires |a| == 4
    ensures IsPlain(Ntoa(a))
  {
    OctetBack(a[0]);
    OctetBack(a[1]);
    OctetBack(a[2]);
    OctetBack(a[3]);
  }
}
