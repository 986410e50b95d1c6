/** The texts that `secrets.token_urlsafe(32)` produces, and the shape test of authd.py. */
module TokenText {
  import opened Options
  import opened Bytes
  import Base64
  import Tokens

  /** The URL-safe alphabet, section 5 of RFC 4648. */
  function UrlChar(b: byte): char {
    if b == 43 then '-' else if b == 47 then '_' else b as char
  }

  /** URL-safe base64 without its pads. */
  function UrlSafe(code: bytes): string {
    if code == [] then ""
    else if code[|code| - 1] == Base64.PAD then UrlSafe(code[..|code| - 1])
    else UrlText(code)
  }

  function UrlText(code: bytes): (s: string)
    ensures |s| == |code| && forall i :: 0 <= i < |s| ==> s[i] == UrlChar(code[i])
  {
    if code == [] then "" else [UrlChar(code[0])] + UrlText(code[1..])
  }

  /** The text of 32 random bytes. */
  function TokenUrlSafe(random: bytes): string {
    UrlSafe(Base64.Encode(random))
  }

  /** The code of bytes that leave two over: digits, and one pad at the end. */
  lemma {:induction false} CodeOfTwoLeft(s: bytes)
    requires |s| % 3 == 2
    ensures var code := Base64.Encode(s);
            && |code| == (|s| + 1) / 3 * 4 && code[|code| - 1] == Base64.PAD
            && forall i :: 0 <= i < |code| - 1 ==> code[i] != Base64.PAD && Base64.Value(code[i]).Some?
    decreases |s|
  {
    if |s| == 2 {
      Base64.DigitValue(s[0] / 4);
      Base64.DigitValue(s[0] % 4 * 16 + s[1] / 16);
      Base64.DigitValue(s[1] % 16 * 4);
    } else {
      CodeOfTwoLeft(s[3..]);
      Base64.DigitValue(s[0] / 4);
      Base64.DigitValue(s[0] % 4 * 16 + s[1] / 16);
      Base64.DigitValue(s[1] % 16 * 4 + s[2] / 64);
      Base64.DigitValue(s[2] % 64);
    }
  }

  lemma UrlCharIsInAlphabet(b: byte)
    requires Base64.Value(b).Some?
    ensures Tokens.InTokenAlphabet(UrlChar(b))
  {
  }

  /** The shape is the prefix and 43 characters of the alphabet. */
  lemma ShapeIs(s: string)
    ensures Tokens.LooksLikeToken(s) <==>
            && |s| == 47 && s[..4] == "pto_"
            && forall i :: 4 <= i < 47 ==> ('A' <= s[i] <= 'Z' || 'a' <= s[i] <= 'z' || '0' <= s[i] <= '9'
                                            || s[i] == '-' || s[i] == '_')
  {
  }

  /** Every token that the daemon can generate has the shape. */
  lemma GeneratedTokensHaveTheShape(random: bytes)
    requires |random| == 32
    ensures Tokens.LooksLikeToken("pto_" + TokenUrlSafe(random))
  {
    var code := Base64.Encode(random);
    CodeOfTwoLeft(random);
    var digits := code[..43];
    assert digits[42] == code[42];
    assert UrlSafe(code) == UrlSafe(digits) == UrlText(digits);
    var token := "pto_" + TokenUrlSafe(random);
    forall i | 4 <= i < 47
      ensures Tokens.InTokenAlphabet(token[i])
    {
      assert token[i] == UrlChar(code[i - 4]);
      UrlCharIsInAlphabet(code[i - 4]);
    }
    assert token[..4] == "pto_";
  }
}
