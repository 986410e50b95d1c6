/** The whitelist decision of auth_proxy.py, `host_allowed`, over loaded patterns. Whether a
    text is an IP literal is decided by Python's `ipaddress` and is a parameter here.
 */
module Whitelist {
  import opened Bytes

  const DOT: byte := 46
  const STAR: byte := 42
  const QUESTION: byte := 63
  const BRACKET: byte := 91

  function StripDots(h: bytes): bytes {
    if h != [] && h[|h| - 1] == DOT then StripDots(h[..|h| - 1]) else h
  }

  /** `host.lower().rstrip(".")` */
  function Normal(host: bytes): bytes {
    StripDots(Lower(host))
  }

  /** `fnmatch` for patterns without bracket expressions. */
  predicate Matches(h: bytes, pattern: bytes)
    decreases |h| + |pattern|
  {
    if pattern == [] then h == []
    else if pattern[0] == STAR then Matches(h, pattern[1..]) || (h != [] && Matches(h[1..], pattern))
    else h != [] && (pattern[0] == QUESTION || pattern[0] == h[0]) && Matches(h[1..], pattern[1..])
  }

  const LOOPBACK4 := Ascii("127.0.0.1")
  const LOOPBACK6 := Ascii("::1")

  predicate HostAllowed(host: bytes, patterns: seq<bytes>, isIp: bytes -> bool) {
    var h := Normal(host);
    if isIp(h) then h == LOOPBACK4 || h == LOOPBACK6
    else AnyMatches(h, patterns)
  }

  predicate AnyMatches(h: bytes, patterns: seq<bytes>) {
    exists i :: 0 <= i < |patterns| && Matches(h, patterns[i])
  }

  // ---------------------------------------------------------------- what patterns mean

  /** A name without wildcards. */
  ghost predicate Literal(d: bytes) {
    forall b :: b in d ==> b != 42 && b != 63 && b != 91
  }

  lemma {:induction false} LiteralMatches(h: bytes, d: bytes)
    requires Literal(d)
    ensures Matches(h, d) <==> h == d
  {
    if d != [] {
      assert d[0] in d && d == [d[0]] + d[1..];
      assert forall b :: b in d[1..] ==> b in d;
      if h != [] {
        LiteralMatches(h[1..], d[1..]);
        assert h == [h[0]] + h[1..];
      }
    }
  }

  predicate EndsWith(h: bytes, suffix: bytes) {
    |h| >= |suffix| && h[|h| - |suffix|..] == suffix
  }

  lemma {:induction false} StarMatchesSuffix(h: bytes, suffix: bytes)
    requires Literal(suffix)
    ensures Matches(h, [STAR] + suffix) <==> EndsWith(h, suffix)
  {
    var pattern := [STAR] + suffix;
    assert pattern[1..] == suffix;
    LiteralMatches(h, suffix);
    if h != [] {
      StarMatchesSuffix(h[1..], suffix);
      if |h| > |suffix| {
        assert h[1..][|h| - 1 - |suffix|..] == h[|h| - |suffix|..];
      } else if |h| == |suffix| {
        assert h[0..] == h;
      }
    }
  }

  /** The two kinds of entries in the built-in list: one name, or everything below a name. */
  datatype Rule = Exact(name: bytes) | Below(name: bytes)

  function Pattern(r: Rule): bytes {
    match r
    case Exact(name) => name
    case Below(name) => [42] + ([46] + name)
  }

  predicate Covers(r: Rule, h: bytes) {
    match r
    case Exact(name) => h == name
    case Below(name) => EndsWith(h, [46] + name)
  }

  function Patterns(rules: seq<Rule>): (ps: seq<bytes>)
    ensures |ps| == |rules|
    ensures forall i :: 0 <= i < |rules| ==> ps[i] == Pattern(rules[i])
  {
    if rules == [] then [] else [Pattern(rules[0])] + Patterns(rules[1..])
  }

  lemma PatternMeaning(r: Rule, h: bytes)
    requires Literal(r.name)
    ensures Matches(h, Pattern(r)) <==> Covers(r, h)
  {
    match r
    case Exact(name) => LiteralMatches(h, name);
    case Below(name) => StarMatchesSuffix(h, [DOT] + name);
  }

  ghost predicate CoveredBy(h: bytes, rules: seq<Rule>) {
    exists i :: 0 <= i < |rules| && Covers(rules[i], h)
  }

  lemma PatternsMeaning(h: bytes, rules: seq<Rule>)
    requires forall i :: 0 <= i < |rules| ==> Literal(rules[i].name)
    ensures AnyMatches(h, Patterns(rules)) <==> CoveredBy(h, rules)
  {
    var ps := Patterns(rules);
    if i :| 0 <= i < |rules| && Covers(rules[i], h) {
      PatternMeaning(rules[i], h);
      assert Matches(h, ps[i]);
    }
    if i :| 0 <= i < |ps| && Matches(h, ps[i]) {
      PatternMeaning(rules[i], h);
      assert Covers(rules[i], h);
    }
  }

  /** For a list of such entries, a host passes exactly when it is a loopback literal, or no IP
      literal and equal to an exact name or below a dotted one; lookalikes that merely end in
      a name's letters do not pass. */
  lemma {:induction false} AllowedIffCovered(host: bytes, rules: seq<Rule>, isIp: bytes -> bool)
    requires forall i :: 0 <= i < |rules| ==> Literal(rules[i].name)
    ensures HostAllowed(host, Patterns(rules), isIp) <==>
            if isIp(Normal(host)) then Normal(host) == Ascii("127.0.0.1") || Normal(host) == Ascii("::1")
            else CoveredBy(Normal(host), rules)
  {
    PatternsMeaning(Normal(host), rules);
  }

  lemma {:induction false} LowerTwice(h: bytes)
    ensures Lower(Lower(h)) == Lower(h)
  {
  }

  /** Letter case and trailing dots never change the decision, whatever the patterns. */
  lemma SpellingIsIrrelevant(host: bytes, patterns: seq<bytes>, isIp: bytes -> bool)
    ensures HostAllowed(Lower(host), patterns, isIp) == HostAllowed(host, patterns, isIp)
    ensures HostAllowed(host + [46], patterns, isIp) == HostAllowed(host, patterns, isIp)
  {
    LowerTwice(host);
    assert Lower(host + [DOT]) == Lower(host) + [DOT];
    assert (Lower(host) + [DOT])[..|host|] == Lower(host);
  }

  /** No capital letter, and no point at the end. */
  ghost predicate IsPlainName(name: bytes) {
    && (forall i :: 0 <= i < |name| ==> !(65 <= name[i] <= 90))
    && (name != [] ==> name[|name| - 1] != 46)
  }

  lemma {:induction false} DotsAreStripped(name: bytes, n: nat)
    requires name != [] ==> name[|name| - 1] != DOT
    ensures StripDots(name + Dots(n)) == name
  {
    if n == 0 {
      assert name + Dots(0) == name;
    } else {
      var all := name + Dots(n);
      assert all[|all| - 1] == DOT && all[..|all| - 1] == name + Dots(n - 1);
      DotsAreStripped(name, n - 1);
    }
  }

  function Dots(n: nat): (s: bytes)
    ensures |s| == n && forall i :: 0 <= i < n ==> s[i] == 46
  {
    seq(n, _ => 46)
  }

  /** The name that is judged: of a text that is a plain name but for its letter case and any
      number of trailing points, that plain name. */
  lemma NormalIs(name: bytes, host: bytes, n: nat)
    requires IsPlainName(name) && Lower(host) == name
    ensures Normal(host + Dots(n)) == name
    ensures Normal(name) == name
  {
    DotsAreStripped(name, n);
    DotsAreStripped(name, 0);
    assert Lower(host + Dots(n)) == name + Dots(n);
    assert name + Dots(0) == name && Lower(name) == name;
  }

  /** A star stands for any text, the empty one too. */
  lemma {:induction false} StarMatchesAnything(h: bytes, rest: bytes)
    ensures Matches(h, [42] + rest) <==> exists k :: 0 <= k <= |h| && Matches(h[k..], rest)
  {
    var pattern := [STAR] + rest;
    assert pattern[1..] == rest && h[0..] == h;
    if h != [] {
      StarMatchesAnything(h[1..], rest);
      if k :| 0 <= k <= |h[1..]| && Matches(h[1..][k..], rest) {
        assert h[k + 1..] == h[1..][k..];
      }
      if k :| 0 <= k <= |h| && Matches(h[k..], rest) {
        if k > 0 {
          assert h[1..][k - 1..] == h[k..];
        }
      }
    }
  }

  /** A question mark stands for one byte, and any other byte for itself. */
  lemma OneByteMatches(h: bytes, b: byte, rest: bytes)
    requires b != 42
    ensures Matches(h, [b] + rest) <==> h != [] && (b == 63 || h[0] == b) && Matches(h[1..], rest)
    ensures Matches(h, []) <==> h == []
  {
    assert ([b] + rest)[1..] == rest;
  }
}
