/** Base64 (section 4 of RFC 4648): the encoder, and the lenient decoder that Python's
    `b64decode` is by default: bytes outside the alphabet are skipped, a complete pad ends
    the text, and an unfinished quad is an error.
 */
module Base64 {
  import opened Options
  import opened Bytes

  type sextet = v: int | 0 <= v < 64

  const PAD: byte := 61

  function Digit(v: sextet): byte {
    if v < 26 then 65 + v else if v < 52 then 71 + v else if v < 62 then v - 4 else if v == 62 then 43 else 47
  }

  function Value(b: byte): Option<sextet> {
    if 65 <= b <= 90 then Some(b - 65)
    else if 97 <= b <= 122 then Some(b - 71)
    else if 48 <= b <= 57 then Some(b + 4)
    else if b == 43 then Some(62)
    else if b == 47 then Some(63)
    else None
  }

  function Encode(s: bytes): bytes
    decreases |s|
  {
    if s == [] then []
    else if |s| == 1 then [Digit(s[0] / 4), Digit(s[0] % 4 * 16), PAD, PAD]
    else if |s| == 2 then
      [Digit(s[0] / 4), Digit(s[0] % 4 * 16 + s[1] / 16), Digit(s[1] % 16 * 4), PAD]
    else
      [Digit(s[0] / 4), Digit(s[0] % 4 * 16 + s[1] / 16), Digit(s[1] % 16 * 4 + s[2] / 64), Digit(s[2] % 64)]
      + Encode(s[3..])
  }

  /** The decoder's registers: position in the quad, bits left over, pads seen. */
  datatype Scan = Scan(quad: nat, left: sextet, pads: nat)

  const START := Scan(0, 0, 0)

  /** The byte that a digit completes, if any, and the registers after it. */
  function Take(st: Scan, v: sextet): (bytes, Scan) {
    if st.quad == 0 then ([], Scan(1, v, 0))
    else if st.quad == 1 then ([(st.left * 4 + v / 16) % 256], Scan(2, v % 16, 0))
    else if st.quad == 2 then ([(st.left * 16 + v / 4) % 256], Scan(3, v % 4, 0))
    else ([(st.left * 64 + v) % 256], Scan(0, 0, 0))
  }

  /** `out` is what has been decoded so far. */
  function DecodeFrom(s: bytes, st: Scan, out: bytes): Option<bytes> {
    if s == [] then (if st.quad == 0 then Some(out) else None)
    else if s[0] == PAD then
      if st.quad < 2 then DecodeFrom(s[1..], st, out)
      else if st.quad + st.pads + 1 >= 4 then Some(out)
      else DecodeFrom(s[1..], st.(pads := st.pads + 1), out)
    else
      match Value(s[0])
      case None => DecodeFrom(s[1..], st, out)
      case Some(v) => DecodeFrom(s[1..], Take(st, v).1, out + Take(st, v).0)
  }

  function Decode(s: bytes): Option<bytes> {
    DecodeFrom(s, START, [])
  }

  lemma DigitValue(v: sextet)
    ensures Value(Digit(v)) == Some(v) && Digit(v) != PAD
  {
  }

  lemma DecodeDigit(v: sextet, rest: bytes, st: Scan, out: bytes)
    ensures DecodeFrom([Digit(v)] + rest, st, out) == DecodeFrom(rest, Take(st, v).1, out + Take(st, v).0)
  {
    DigitValue(v);
    assert ([Digit(v)] + rest)[1..] == rest;
  }

  lemma DecodePad(rest: bytes, st: Scan, out: bytes)
    requires st.quad >= 2
    ensures DecodeFrom([PAD] + rest, st, out) ==
            if st.quad + st.pads + 1 >= 4 then Some(out) else DecodeFrom(rest, st.(pads := st.pads + 1), out)
  {
    assert ([PAD] + rest)[1..] == rest;
  }

  lemma Shift(high: nat, base: nat, low: nat)
    requires base == 4 || base == 16
    requires low < base
    ensures (high * base + low) / base == high && (high * base + low) % base == low
  {
  }

  lemma TakeSecond(x: byte, more: nat)
    requires more < 16
    ensures Take(Scan(1, x / 4, 0), x % 4 * 16 + more) == ([x], Scan(2, more, 0))
  {
    Shift(x % 4, 16, more);
  }

  lemma TakeThird(y: byte, more: nat)
    requires more < 4
    ensures Take(Scan(2, y / 16, 0), y % 16 * 4 + more) == ([y], Scan(3, more, 0))
  {
    Shift(y % 16, 4, more);
  }

  /** The first two digits of a quad give back the first byte. */
  lemma DecodePair(x: byte, more: nat, rest: bytes, out: bytes)
    requires more < 16
    ensures DecodeFrom([Digit(x / 4)] + ([Digit(x % 4 * 16 + more)] + rest), START, out)
            == DecodeFrom(rest, Scan(2, more, 0), out + [x])
  {
    var a, b := x / 4, x % 4 * 16 + more;
    DecodeDigit(a, [Digit(b)] + rest, START, out);
    assert Take(START, a) == ([], Scan(1, a, 0)) && out + [] == out;
    TakeSecond(x, more);
    DecodeDigit(b, rest, Scan(1, a, 0), out);
  }

  /** The third digit gives back the second byte. */
  lemma DecodeThird(y: byte, more: nat, rest: bytes, out: bytes)
    requires more < 4
    ensures DecodeFrom([Digit(y % 16 * 4 + more)] + rest, Scan(2, y / 16, 0), out)
            == DecodeFrom(rest, Scan(3, more, 0), out + [y])
  {
    TakeThird(y, more);
    DecodeDigit(y % 16 * 4 + more, rest, Scan(2, y / 16, 0), out);
  }

  /** The fourth digit gives back the third byte and closes the quad. */
  lemma DecodeFourth(z: byte, rest: bytes, out: bytes)
    ensures DecodeFrom([Digit(z % 64)] + rest, Scan(3, z / 64, 0), out) == DecodeFrom(rest, START, out + [z])
  {
    DecodeDigit(z % 64, rest, Scan(3, z / 64, 0), out);
  }

  lemma DecodeQuad(x: byte, y: byte, z: byte, rest: bytes, out: bytes)
    ensures DecodeFrom([Digit(x / 4), Digit(x % 4 * 16 + y / 16), Digit(y % 16 * 4 + z / 64), Digit(z % 64)] + rest,
                       START, out)
            == DecodeFrom(rest, START, out + [x, y, z])
  {
    var last := [Digit(z % 64)] + rest;
    var third := [Digit(y % 16 * 4 + z / 64)] + last;
    assert [Digit(x / 4), Digit(x % 4 * 16 + y / 16), Digit(y % 16 * 4 + z / 64), Digit(z % 64)] + rest
           == [Digit(x / 4)] + ([Digit(x % 4 * 16 + y / 16)] + third);
    DecodePair(x, y / 16, third, out);
    DecodeThird(y, z / 64, last, out + [x]);
    DecodeFourth(z, rest, out + [x] + [y]);
    assert out + [x] + [y] + [z] == out + [x, y, z];
  }

  lemma DecodeOneLeft(x: byte, out: bytes)
    ensures DecodeFrom([Digit(x / 4)] + ([Digit(x % 4 * 16 + 0)] + ([PAD] + [PAD])), START, out) == Some(out + [x])
  {
    DecodePair(x, 0, [PAD] + [PAD], out);
    DecodePad([PAD], Scan(2, 0, 0), out + [x]);
    assert [PAD] + [] == [PAD];
    DecodePad([], Scan(2, 0, 1), out + [x]);
  }

  lemma DecodeTwoLeft(x: byte, y: byte, out: bytes)
    ensures DecodeFrom([Digit(x / 4)] + ([Digit(x % 4 * 16 + y / 16)] + ([Digit(y % 16 * 4 + 0)] + [PAD])), START, out)
            == Some(out + [x] + [y])
  {
    DecodePair(x, y / 16, [Digit(y % 16 * 4 + 0)] + [PAD], out);
    DecodeThird(y, 0, [PAD], out + [x]);
    assert [PAD] + [] == [PAD];
    DecodePad([], Scan(3, 0, 0), out + [x] + [y]);
  }

  lemma {:induction false} DecodeEncoded(s: bytes, out: bytes)
    ensures DecodeFrom(Encode(s), START, out) == Some(out + s)
    decreases |s|
  {
    if |s| == 0 {
      assert out + s == out;
    } else if |s| == 1 {
      assert Encode(s) == [Digit(s[0] / 4)] + ([Digit(s[0] % 4 * 16 + 0)] + ([PAD] + [PAD]));
      DecodeOneLeft(s[0], out);
      assert s == [s[0]];
    } else if |s| == 2 {
      assert Encode(s) == [Digit(s[0] / 4)] + ([Digit(s[0] % 4 * 16 + s[1] / 16)]
                                               + ([Digit(s[1] % 16 * 4 + 0)] + [PAD]));
      DecodeTwoLeft(s[0], s[1], out);
      assert out + [s[0]] + [s[1]] == out + s;
    } else {
      DecodeQuad(s[0], s[1], s[2], Encode(s[3..]), out);
      DecodeEncoded(s[3..], out + [s[0], s[1], s[2]]);
      assert out + [s[0], s[1], s[2]] + s[3..] == out + s;
    }
  }

  /** Decoding undoes encoding, for every byte string. */
  lemma DecodeUndoesEncode(s: bytes)
    ensures Decode(Encode(s)) == Some(s)
  {
    DecodeEncoded(s, []);
    assert [] + s == s;
  }

  /** The encoder only writes printable ASCII without separators. */
  lemma {:induction false} EncodedText(s: bytes)
    ensures forall i :: 0 <= i < |Encode(s)| ==> 33 <= Encode(s)[i] < 127 && Encode(s)[i] != 58
    ensures |Encode(s)| == (|s| + 2) / 3 * 4
    decreases |s|
  {
    if |s| > 2 {
      EncodedText(s[3..]);
    }
  }

  // ---------------------------------------------------------------- the alphabet, and other texts

  /** Table 1 of section 4 of RFC 4648. */
  lemma DigitsAreTheAlphabet(v: sextet)
    ensures v < 26 ==> Digit(v) == 'A' as int + v
    ensures 26 <= v < 52 ==> Digit(v) == 'a' as int + (v - 26)
    ensures 52 <= v < 62 ==> Digit(v) == '0' as int + (v - 52)
    ensures v == 62 ==> Digit(v) == '+' as int
    ensures v == 63 ==> Digit(v) == '/' as int
  {
  }

  /** A byte that is neither a digit nor a pad changes nothing, wherever it stands. */
  lemma {:induction false} JunkIsSkipped(a: bytes, junk: byte, b: bytes, st: Scan, out: bytes)
    requires Value(junk).None? && junk != PAD
    ensures DecodeFrom(a + [junk] + b, st, out) == DecodeFrom(a + b, st, out)
    decreases |a|
  {
    if a == [] {
      assert a + [junk] + b == [junk] + b && ([junk] + b)[1..] == b && a + b == b;
    } else {
      assert (a + [junk] + b)[1..] == a[1..] + [junk] + b && (a + b)[1..] == a[1..] + b;
      var c := a[0];
      if c == PAD {
        if st.quad < 2 {
          JunkIsSkipped(a[1..], junk, b, st, out);
        } else if st.quad + st.pads + 1 < 4 {
          JunkIsSkipped(a[1..], junk, b, st.(pads := st.pads + 1), out);
        }
      } else {
        match Value(c)
        case None => JunkIsSkipped(a[1..], junk, b, st, out);
        case Some(v) => JunkIsSkipped(a[1..], junk, b, Take(st, v).1, out + Take(st, v).0);
      }
    }
  }

  /** Digits alone decode exactly if they fill whole quads. */
  lemma {:induction false} WholeQuadsOnly(s: bytes, st: Scan, out: bytes)
    requires st.quad < 4 && forall i :: 0 <= i < |s| ==> Value(s[i]).Some? && s[i] != PAD
    ensures DecodeFrom(s, st, out).Some? <==> (st.quad + |s|) % 4 == 0
    decreases |s|
  {
    if s != [] {
      var v := Value(s[0]).value;
      assert Take(st, v).1.quad == if st.quad == 3 then 0 else st.quad + 1;
      WholeQuadsOnly(s[1..], Take(st, v).1, out + Take(st, v).0);
    }
  }

  /** The first test vectors of section 10 of RFC 4648. */
  lemma Vectors()
    ensures Encode(Ascii("f")) == Ascii("Zg==")
    ensures Encode(Ascii("fo")) == Ascii("Zm8=")
    ensures Encode(Ascii("foo")) == Ascii("Zm9v")
  {
    assert Ascii("f") == [102] && Ascii("fo") == [102, 111] && Ascii("foo") == [102, 111, 111];
    assert Encode([102, 111, 111]) == [90, 109, 57, 118] + Encode([102, 111, 111][3..]);
  }
}
