/** Python's `int(b"...")`, which auth_proxy.py applies to the port of a CONNECT target, and the
    numbers that texts stand for.
 */
module Numerals {
  import opened Options
  import opened Bytes

  const UNDERSCORE: byte := 95
  const PLUS: byte := 43
  const MINUS: byte := 45

  predicate IsDigit(b: byte) {
    48 <= b <= 57
  }

  // ---------------------------------------------------------------- the reader

  /** Decimal digits with single underscores between them. */
  function ParseDigits(s: bytes, sofar: nat, afterDigit: bool): Option<nat> {
    if s == [] then (if afterDigit then Some(sofar) else None)
    else if IsDigit(s[0]) then ParseDigits(s[1..], sofar * 10 + (s[0] - 48), true)
    else if s[0] == UNDERSCORE && afterDigit then ParseDigits(s[1..], sofar, false)
    else None
  }

  /** Blanks around, an optional sign, then digits. */
  function ParseInt(s: bytes): Option<int> {
    ParseSigned(Strip(s))
  }

  function ParseSigned(t: bytes): Option<int> {
    var signed := t != [] && (t[0] == PLUS || t[0] == MINUS);
    match ParseDigits(if signed then t[1..] else t, 0, false)
    case None => None
    case Some(n) => var magnitude: int := n; Some(if signed && t[0] == MINUS then -magnitude else magnitude)
  }

  // ---------------------------------------------------------------- what texts stand for

  /** The decimal text of a number. */
  function DecimalText(n: nat): (s: bytes)
    ensures s != []
  {
    if n < 10 then [48 + n] else DecimalText(n / 10) + [48 + n % 10]
  }

  /** Digits, with underscores that stand alone and between digits. */
  ghost predicate IsNumeral(s: bytes) {
    IsBeginning(s) && s != [] && 48 <= s[|s| - 1] <= 57
  }

  ghost predicate IsBeginning(s: bytes) {
    && (s != [] ==> 48 <= s[0] <= 57)
    && (forall i :: 0 <= i < |s| ==> 48 <= s[i] <= 57 || s[i] == 95)
    && (forall i :: 0 < i < |s| && s[i] == 95 ==> s[i - 1] != 95)
  }

  /** The last digit counts once, what stands before it ten times; underscores do not count. */
  function NumeralValue(s: bytes): nat {
    if s == [] then 0
    else if 48 <= s[|s| - 1] <= 57 then NumeralValue(s[..|s| - 1]) * 10 + (s[|s| - 1] as nat - 48)
    else NumeralValue(s[..|s| - 1])
  }

  /** The text is a numeral with blanks around it and a sign or none before it. */
  ghost predicate ReadsAs(s: bytes, lead: bytes, sign: bytes, numeral: bytes, trail: bytes, value: int) {
    && s == lead + (sign + numeral) + trail
    && IsBlank(lead) && IsBlank(trail) && IsNumeral(numeral)
    && (sign == [] || sign == [43] || sign == [45])
    && value == if sign == [45] then -(NumeralValue(numeral) as int) else NumeralValue(numeral)
  }

  /** The text stands for the number. */
  ghost predicate Denotes(s: bytes, value: int) {
    exists lead, sign, numeral, trail :: ReadsAs(s, lead, sign, numeral, trail, value)
  }

  // ---------------------------------------------------------------- the reader is right

  lemma NumeralSnoc(p: bytes, b: byte)
    ensures NumeralValue(p + [b]) == if IsDigit(b) then NumeralValue(p) * 10 + (b as nat - 48) else NumeralValue(p)
  {
    assert (p + [b])[..|p|] == p;
  }

  lemma BeginningSnoc(p: bytes, b: byte)
    requires IsBeginning(p)
    ensures IsBeginning(p + [b]) <==>
            IsDigit(b) || (b == UNDERSCORE && p != [] && IsDigit(p[|p| - 1]))
  {
    var s := p + [b];
    assert s[|p|] == b && (p != [] ==> s[0] == p[0] && s[|p| - 1] == p[|p| - 1]);
    assert forall i :: 0 <= i < |p| ==> s[i] == p[i];
  }

  lemma BeginningOfMore(p: bytes, s: bytes)
    requires IsBeginning(p + s)
    ensures IsBeginning(p)
  {
    assert forall i :: 0 <= i < |p| ==> (p + s)[i] == p[i];
  }

  /** Reading on from a beginning gives the value of the whole numeral, if it is one. */
  lemma {:induction false} ParseDigitsFrom(p: bytes, s: bytes)
    requires IsBeginning(p)
    ensures ParseDigits(s, NumeralValue(p), p != [] && IsDigit(p[|p| - 1])) ==
            if IsNumeral(p + s) then Some(NumeralValue(p + s)) else None
    decreases |s|
  {
    if s == [] {
      assert p + s == p;
    } else {
      var q := p + [s[0]];
      assert p + s == q + s[1..];
      BeginningSnoc(p, s[0]);
      NumeralSnoc(p, s[0]);
      if IsBeginning(q) {
        ParseDigitsFrom(q, s[1..]);
      } else if IsBeginning(p + s) {
        BeginningOfMore(q, s[1..]);
        assert false;
      }
    }
  }

  lemma ParseDigitsIs(s: bytes)
    ensures ParseDigits(s, 0, false) == if IsNumeral(s) then Some(NumeralValue(s)) else None
  {
    ParseDigitsFrom([], s);
    assert [] + s == s;
  }

  lemma SignedText(sign: bytes, numeral: bytes)
    requires IsNumeral(numeral) && (sign == [] || sign == [43] || sign == [45])
    ensures IsTrimmed(sign + numeral)
  {
    var t := sign + numeral;
    assert t[|t| - 1] == numeral[|numeral| - 1];
    assert t[..1] == [t[0]] && t[|t| - 1..] == [t[|t| - 1]];
  }

  /** A text is read as exactly the number it stands for. */
  lemma DenotedIsRead(s: bytes, lead: bytes, sign: bytes, numeral: bytes, trail: bytes, value: int)
    requires ReadsAs(s, lead, sign, numeral, trail, value)
    ensures ParseInt(s) == Some(value)
  {
    SignedText(sign, numeral);
    StripIs(lead, sign + numeral, trail);
    ParseDigitsIs(numeral);
    SignIsRead(sign, numeral, NumeralValue(numeral));
  }

  lemma SignIsRead(sign: bytes, numeral: bytes, n: nat)
    requires numeral != [] && IsDigit(numeral[0]) && ParseDigits(numeral, 0, false) == Some(n)
    requires sign == [] || sign == [43] || sign == [45]
    ensures ParseSigned(sign + numeral) == Some(if sign == [45] then -(n as int) else n)
  {
    var t := sign + numeral;
    if sign == [] {
      assert t == numeral;
    } else {
      assert t[0] == sign[0] && t[1..] == numeral;
    }
  }

  /** The reader gives a number exactly for the texts that stand for one, and that number. */
  lemma {:induction false} ParseIntIff(s: bytes, value: int)
    ensures ParseInt(s) == Some(value) <==> Denotes(s, value)
  {
    if Denotes(s, value) {
      var lead, sign, numeral, trail :| ReadsAs(s, lead, sign, numeral, trail, value);
      DenotedIsRead(s, lead, sign, numeral, trail, value);
    }
    if ParseInt(s) == Some(value) {
      var lead, trail := StripParts(s);
      var t := Strip(s);
      var signed := t != [] && (t[0] == PLUS || t[0] == MINUS);
      var sign, numeral := if signed then t[..1] else [], if signed then t[1..] else t;
      ParseDigitsIs(numeral);
      assert t == sign + numeral;
      assert ReadsAs(s, lead, sign, numeral, trail, value);
    }
  }

  lemma {:induction false} DecimalIsNumeral(n: nat)
    ensures IsNumeral(DecimalText(n)) && NumeralValue(DecimalText(n)) == n
    ensures forall i :: 0 <= i < |DecimalText(n)| ==> IsDigit(DecimalText(n)[i])
  {
    if n < 10 {
      assert DecimalText(n)[..0] == [];
    } else {
      DecimalIsNumeral(n / 10);
      BeginningSnoc(DecimalText(n / 10), 48 + n % 10);
      NumeralSnoc(DecimalText(n / 10), 48 + n % 10);
    }
  }

  /** Reading undoes printing, for every number. */
  lemma ReadUndoesPrint(n: nat)
    ensures ParseInt(DecimalText(n)) == Some(n) && Denotes(DecimalText(n), n)
  {
    var s := DecimalText(n);
    DecimalIsNumeral(n);
    assert [] + ([] + s) + [] == s;
    assert ReadsAs(s, [], [], s, [], n);
    DenotedIsRead(s, [], [], s, [], n);
  }
}
