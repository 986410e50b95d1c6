/** Proxy tokens of authd.py: the shape test, the stored record, rotation with a grace
    period, and what a run of issues and revocations lets match.

    SHA-256 is a free constructor, so equal digests mean equal tokens and no other stored
    text equals a digest.
 */
module Tokens {
  import opened Options

  const TOKEN_PREFIX := "pto_"
  const TOKEN_BYTES := 32
  const TOKEN_BODY_LENGTH := (TOKEN_BYTES * 8 + 5) / 6
  const TOKEN_ROTATION_GRACE: real := 600.0

  datatype Text = Plain(text: string) | Sha256(token: string)

  /** The stripped content of token.sha256. `Single` is the first file format, one bare
      digest; `written` are its hexadecimal digits as they stand in the file. */
  datatype TokenFile =
    | Missing
    | Record(current: Text, previous: Text, previousUntil: real)
    | Single(text: Text, written: string)

  /** `Raises`: a bare digest that reads as a JSON number makes the code call `.get` on it. */
  datatype Verdict = Matches | Refused | Raises

  predicate HasPrefix(s: string) {
    |s| >= |TOKEN_PREFIX| && s[..|TOKEN_PREFIX|] == TOKEN_PREFIX
  }

  predicate InTokenAlphabet(c: char) {
    'A' <= c <= 'Z' || 'a' <= c <= 'z' || '0' <= c <= '9' || c == '-' || c == '_'
  }

  predicate LooksLikeToken(s: string) {
    && HasPrefix(s)
    && |s| - |TOKEN_PREFIX| == TOKEN_BODY_LENGTH
    && forall i :: |TOKEN_PREFIX| <= i < |s| ==> InTokenAlphabet(s[i])
  }

  // ---------------------------------------------------------------- digests that are numbers

  predicate IsDecimal(c: char) {
    '0' <= c <= '9'
  }

  /** What `hexdigest()` returns for SHA-256. */
  ghost predicate IsHexDigest(s: string) {
    |s| == 64 && forall i :: 0 <= i < |s| ==> IsDecimal(s[i]) || 'a' <= s[i] <= 'f'
  }

  function SkipDigits(s: string, i: nat): (end: nat)
    requires i <= |s|
    ensures i <= end <= |s| && (end < |s| ==> !IsDecimal(s[end]))
    ensures forall j :: i <= j < end ==> IsDecimal(s[j])
    decreases |s| - i
  {
    if i < |s| && IsDecimal(s[i]) then SkipDigits(s, i + 1) else i
  }

  /** The integer part of a JSON number: one zero, or digits that start with another one. */
  function IntegerEnd(s: string): (end: nat)
    ensures end <= |s|
  {
    if s == "" || !IsDecimal(s[0]) then 0 else if s[0] == '0' then 1 else SkipDigits(s, 1)
  }

  /** An exponent is taken only if a digit follows the letter. */
  function ExponentEnd(s: string, i: nat): (end: nat)
    requires i <= |s|
    ensures i <= end <= |s|
  {
    if i + 1 < |s| && s[i] == 'e' && IsDecimal(s[i + 1]) then SkipDigits(s, i + 2) else i
  }

  /** The JSON decoder takes the whole text as one number. Signs, fractions and capital
      letters cannot occur in a digest. */
  predicate ReadsAsNumber(s: string) {
    IntegerEnd(s) > 0 && ExponentEnd(s, IntegerEnd(s)) == |s|
  }

  /** Digits only, with a letter `e` inside at position `k` if `k` is within the text, and no
      needless zero in front. */
  ghost predicate IsNumeral(s: string, k: nat) {
    && 0 < k <= |s| && k != |s| - 1
    && (forall i :: 0 <= i < |s| && i != k ==> IsDecimal(s[i]))
    && (k < |s| ==> s[k] == 'e')
    && (s[0] == '0' ==> k == 1)
  }

  /** Which digests the decoder takes for numbers. */
  lemma NumericDigests(s: string)
    requires IsHexDigest(s)
    ensures ReadsAsNumber(s) <==> exists k :: IsNumeral(s, k)
  {
    if ReadsAsNumber(s) {
      assert IsNumeral(s, IntegerEnd(s));
    }
    if k :| IsNumeral(s, k) {
      assert IntegerEnd(s) == k;
    }
  }

  /** A digest that the decoder takes for a number, and one that it does not. */
  lemma SomeDigestsAreNumeric()
    ensures var ones := seq(64, _ => '1'); IsHexDigest(ones) && ReadsAsNumber(ones)
    ensures var letters := seq(64, _ => 'a'); IsHexDigest(letters) && !ReadsAsNumber(letters)
  {
    var ones := seq(64, _ => '1');
    assert IsNumeral(ones, 64);
    NumericDigests(ones);
  }

  // ---------------------------------------------------------------- the record

  function Check(file: TokenFile, token: string, now: real): Verdict {
    if !HasPrefix(token) then Refused else
      match file
      case Missing => Refused
      case Record(current, previous, until) =>
        if current == Sha256(token) || (until >= now && previous == Sha256(token))
        then Matches else Refused
      case Single(text, written) =>
        if ReadsAsNumber(written) then Raises else if text == Sha256(token) then Matches else Refused
  }

  /** The text that the next issue keeps as `previous`; None when reading it raises. */
  function Superseded(file: TokenFile): Option<Text> {
    match file
    case Missing => Some(Plain(""))
    case Record(current, _, _) => Some(current)
    case Single(text, written) => if ReadsAsNumber(written) then None else Some(text)
  }

  function NewRecord(token: string, previous: Text, now: real): TokenFile {
    Record(Sha256(token), previous,
           if previous != Plain("") then now + TOKEN_ROTATION_GRACE else 0.0)
  }

  // ---------------------------------------------------------------- runs

  datatype Event = Issue(token: string, at: real) | Revoke

  datatype Issued = Issued(token: string, at: real)

  /** A file that one of the two writers of the format left behind. */
  ghost predicate WellKept(file: TokenFile) {
    match file
    case Missing => true
    case Single(text, written) => text.Sha256? && !ReadsAsNumber(written)
    case Record(current, previous, _) => current.Sha256? && (previous.Sha256? || previous == Plain(""))
  }

  function Step(file: TokenFile, e: Event): TokenFile {
    match e
    case Revoke => Missing
    case Issue(token, at) =>
      var previous := Superseded(file);
      if previous.None? then file else NewRecord(token, previous.value, at)
  }

  function Run(start: TokenFile, h: seq<Event>): TokenFile {
    if h == [] then start else Step(Run(start, h[..|h| - 1]), h[|h| - 1])
  }

  /** The tokens in force when the run starts: a bare digest counts as the last one issued. */
  function Inherited(start: TokenFile): seq<Issued> {
    match start
    case Missing => []
    case Single(text, _) => if text.Sha256? then [Issued(text.token, 0.0)] else []
    case Record(current, previous, until) =>
      (if previous.Sha256? then [Issued(previous.token, 0.0)] else []) +
      (if current.Sha256? then [Issued(current.token, until - TOKEN_ROTATION_GRACE)] else [])
  }

  /** Every token issued since the last revocation, oldest first. */
  function IssuedSinceRevoke(start: TokenFile, h: seq<Event>): seq<Issued> {
    if h == [] then Inherited(start) else
      match h[|h| - 1]
      case Revoke => []
      case Issue(token, at) => IssuedSinceRevoke(start, h[..|h| - 1]) + [Issued(token, at)]
  }

  /** In force: the newest token, and the one before it until the rotation grace runs out. */
  predicate InForce(issued: seq<Issued>, token: string, now: real) {
    var n := |issued|;
    || (n >= 1 && issued[n - 1].token == token)
    || (n >= 2 && issued[n - 2].token == token && now <= issued[n - 1].at + 600.0)
  }

  ghost predicate Reflects(file: TokenFile, issued: seq<Issued>) {
    var n := |issued|;
    match file
    case Missing => n == 0
    case Single(text, written) => !ReadsAsNumber(written) && n == 1 && text == Sha256(issued[0].token)
    case Record(current, previous, until) =>
      && n >= 1
      && current == Sha256(issued[n - 1].token)
      && if n == 1 then previous == Plain("")
         else previous == Sha256(issued[n - 2].token)
              && until == issued[n - 1].at + TOKEN_ROTATION_GRACE
  }

  lemma {:induction false} RunReflectsHistory(start: TokenFile, h: seq<Event>)
    requires WellKept(start)
    ensures Reflects(Run(start, h), IssuedSinceRevoke(start, h))
  {
    if h != [] {
      RunReflectsHistory(start, h[..|h| - 1]);
    }
  }

  /** Token history: after any run of issues and revocations a token matches exactly when it
      carries the prefix and is in force for the tokens issued since the last revocation. */
  lemma {:induction false} MatchIffInForce(start: TokenFile, h: seq<Event>, token: string, now: real)
    requires WellKept(start)
    ensures Check(Run(start, h), token, now) ==
            if HasPrefix(token) && InForce(IssuedSinceRevoke(start, h), token, now)
            then Matches else Refused
  {
    RunReflectsHistory(start, h);
  }

  /** At most two tokens match at the same time. */
  lemma {:induction false} AtMostTwoMatch(start: TokenFile, h: seq<Event>, now: real, a: string, b: string, c: string)
    requires WellKept(start)
    requires Check(Run(start, h), a, now) == Check(Run(start, h), b, now)
             == Check(Run(start, h), c, now) == Matches
    ensures a == b || b == c || a == c
  {
    RunReflectsHistory(start, h);
  }

  ghost predicate IssuedIn(h: seq<Event>, token: string) {
    exists i :: 0 <= i < |h| && h[i].Issue? && h[i].token == token
  }

  lemma {:induction false} SinceRevokeOnly(start: TokenFile, h: seq<Event>, later: seq<Event>)
    ensures forall x :: x in IssuedSinceRevoke(start, h + [Revoke] + later) ==> IssuedIn(later, x.token)
  {
    var all := h + [Revoke] + later;
    if later == [] {
      assert all[|all| - 1] == Revoke;
    } else {
      var before := later[..|later| - 1];
      SinceRevokeOnly(start, h, before);
      assert all[..|all| - 1] == h + [Revoke] + before;
      assert all[|all| - 1] == later[|before|];
      forall x | x in IssuedSinceRevoke(start, all)
        ensures IssuedIn(later, x.token)
      {
        if x in IssuedSinceRevoke(start, h + [Revoke] + before) {
          var i :| 0 <= i < |before| && before[i].Issue? && before[i].token == x.token;
          assert later[i].token == x.token;
        } else {
          assert later[|before|].token == x.token;
        }
      }
    }
  }

  /** Once revoked, a token matches again only if a later issue generates the same one. */
  lemma RevokedNeverMatches(start: TokenFile, h: seq<Event>, later: seq<Event>, token: string, now: real)
    requires WellKept(start)
    requires !IssuedIn(later, token)
    ensures Check(Run(start, h + [Revoke] + later), token, now) == Refused
  {
    var all := h + [Revoke] + later;
    MatchIffInForce(start, all, token, now);
    SinceRevokeOnly(start, h, later);
  }

  /** A first-format file raises, at once and after any number of issues, exactly when its
      digest reads as a number: then no issue can replace it, and otherwise the first one does. */
  lemma {:induction false} StuckIffNumeric(text: Text, written: string, h: seq<Event>, token: string, now: real)
    requires HasPrefix(token)
    requires forall i :: 0 <= i < |h| ==> h[i].Issue?
    ensures Check(Run(Single(text, written), h), token, now) == Raises <==> ReadsAsNumber(written)
    ensures Run(Single(text, written), h) == Single(text, written) <==> h == [] || ReadsAsNumber(written)
    ensures Run(Single(text, written), h) == Single(text, written) || Run(Single(text, written), h).Record?
  {
    if h != [] {
      StuckIffNumeric(text, written, h[..|h| - 1], token, now);
    }
  }
}
