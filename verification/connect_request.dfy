/** The CONNECT request: what `handle_http` of auth_proxy.py makes of a request head, and the
    request that `authenticated_connect` of status_proxy.py prints.

    User names and passwords are their UTF-8 bytes.
 */
module ConnectRequest {
  import opened Options
  import opened Bytes
  import opened HttpHead
  import opened Numerals
  import Base64

  const COLON: byte := 58
  const SPACE: byte := 32

  // ---------------------------------------------------------------- the parser

  datatype Parsed =
    | BadRequest
    | NotConnect
    | BadTarget(host: bytes)
    | NoAuth(host: bytes, port: int)
    | BadAuth(host: bytes, port: int)
    | Connect(user: bytes, password: bytes, host: bytes, port: int)

  function Key(header: bytes, colon: nat): bytes
    requires colon < |header|
  {
    Lower(Strip(header[..colon]))
  }

  /** The value under a lower-case key in the dict of headers: the last one wins. */
  function Header(headers: seq<bytes>, key: bytes): bytes {
    if headers == [] then [] else
      var h := headers[|headers| - 1];
      match IndexOf(h, COLON)
      case None => Header(headers[..|headers| - 1], key)
      case Some(i) => if Key(h, i) == key then Strip(h[i + 1..]) else Header(headers[..|headers| - 1], key)
  }

  predicate IsAscii(s: bytes) {
    forall i :: 0 <= i < |s| ==> s[i] < 128
  }

  const BASIC := Ascii("basic ")
  const AUTH_KEY := Ascii("proxy-authorization")

  predicate IsBasic(pa: bytes) {
    |pa| >= |BASIC| && Lower(pa[..|BASIC|]) == BASIC
  }

  /** User and password of a Basic credential; the user ends at the first colon. */
  function Credentials(pa: bytes): Option<(bytes, bytes)>
    requires IsBasic(pa)
  {
    if !IsAscii(pa) then None else
      match Base64.Decode(Strip(pa[|BASIC|..]))
      case None => None
      case Some(text) =>
        match IndexOf(text, COLON)
        case None => Some((text, []))
        case Some(i) => Some((text[..i], text[i + 1..]))
  }

  function Parse(line: bytes, headers: seq<bytes>): Parsed {
    var parts := SplitOn(line, SPACE);
    if |parts| < 3 then BadRequest
    else if Lower(parts[0]) != Ascii("connect") then NotConnect
    else
      match LastIndexOf(parts[1], COLON)
      case None => BadTarget([])
      case Some(i) =>
        var host := parts[1][..i];
        match ParseInt(parts[1][i + 1..])
        case None => BadTarget(host)
        case Some(port) =>
          var pa := Header(headers, AUTH_KEY);
          if !IsBasic(pa) then NoAuth(host, port)
          else
            match Credentials(pa)
            case None => BadAuth(host, port)
            case Some(c) => Connect(c.0, c.1, host, port)
  }

  function Lookup(headers: map<bytes, bytes>, key: bytes): bytes {
    if key in headers then headers[key] else []
  }

  ghost predicate Collects(headers: map<bytes, bytes>, lines: seq<bytes>) {
    forall key :: Lookup(headers, key) == Header(lines, key)
  }

  /** What one header line does to the dict. */
  function Collect(headers: map<bytes, bytes>, line: bytes): map<bytes, bytes> {
    match IndexOf(line, COLON)
    case None => headers
    case Some(i) => headers[Key(line, i) := Strip(line[i + 1..])]
  }

  lemma CollectNext(headers: map<bytes, bytes>, lines: seq<bytes>, line: bytes)
    requires Collects(headers, lines)
    ensures Collects(Collect(headers, line), lines + [line])
  {
    forall key
      ensures Lookup(Collect(headers, line), key) == Header(lines + [line], key)
    {
      HeaderSnoc(lines, line, key);
      assert Lookup(headers, key) == Header(lines, key);
    }
  }

  lemma HeaderSnoc(lines: seq<bytes>, line: bytes, key: bytes)
    ensures Header(lines + [line], key) ==
            match IndexOf(line, COLON)
            case None => Header(lines, key)
            case Some(i) => if Key(line, i) == key then Strip(line[i + 1..]) else Header(lines, key)
  {
    assert (lines + [line])[..|lines|] == lines;
  }

  /** The loop over the header lines, which fills a dict: the last line with a key wins. */
  method CollectHeaders(lines: seq<bytes>) returns (headers: map<bytes, bytes>)
    ensures Collects(headers, lines)
  {
    headers := map[];
    var i := 0;
    while i < |lines|
      invariant 0 <= i <= |lines|
      invariant Collects(headers, lines[..i])
    {
      assert lines[..i + 1] == lines[..i] + [lines[i]];
      CollectNext(headers, lines[..i], lines[i]);
      headers := Collect(headers, lines[i]);
      i := i + 1;
    }
    assert lines[..i] == lines;
  }

  method ParseRequest(line: bytes, headerLines: seq<bytes>) returns (r: Parsed)
    ensures r == Parse(line, headerLines)
  {
    var parts := SplitOn(line, SPACE);
    if |parts| < 3 {
      return BadRequest;
    }
    var headers := CollectHeaders(headerLines);
    if Lower(parts[0]) != Ascii("connect") {
      return NotConnect;
    }
    var colon := LastIndexOf(parts[1], COLON);
    if colon.None? {
      return BadTarget([]);
    }
    var host := parts[1][..colon.value];
    var port := ParseInt(parts[1][colon.value + 1..]);
    if port.None? {
      return BadTarget(host);
    }
    var pa := Lookup(headers, AUTH_KEY);
    if !IsBasic(pa) {
      return NoAuth(host, port.value);
    }
    var credentials := Credentials(pa);
    if credentials.None? {
      return BadAuth(host, port.value);
    }
    return Connect(credentials.value.0, credentials.value.1, host, port.value);
  }

  // ---------------------------------------------------------------- the printer

  const PREFIX := Ascii("Proxy-Authorization: Basic ")

  /** The four lines of the request, without their line breaks. */
  function RequestLines(user: bytes, password: bytes, target: bytes): seq<bytes> {
    [Ascii("CONNECT ") + target + Ascii(" HTTP/1.1"),
     Ascii("Host: ") + target,
     PREFIX + Base64.Encode(user + [58] + password),
     Ascii("Connection: close")]
  }

  function Request(user: bytes, password: bytes, target: bytes): bytes {
    JoinCrLf(RequestLines(user, password, target)) + [13, 10, 13, 10]
  }

  // ---------------------------------------------------------------- splitting printed lines

  ghost predicate CleanLine(s: bytes) {
    s != [] && CR !in s && LF !in s
  }

  ghost predicate CleanLines(lines: seq<bytes>) {
    |lines| >= 1 && forall i :: 0 <= i < |lines| ==> CleanLine(lines[i])
  }

  lemma OccursByte(s: bytes, pattern: bytes, i: nat, m: nat)
    requires m < |pattern|
    ensures OccursAt(s, pattern, i) ==> i + m < |s| && s[i + m] == pattern[m]
  {
    if OccursAt(s, pattern, i) {
      assert s[i..i + |pattern|][m] == s[i + m];
    }
  }

  lemma NoCrLfInside(x: bytes, rest: bytes, j: nat)
    requires CR !in x && j < |x|
    ensures !OccursAt(x + rest, CRLF, j)
    ensures !OccursAt(x + rest, TERMINATOR, j)
  {
    assert (x + rest)[j] == x[j] && x[j] in x;
    OccursByte(x + rest, CRLF, j, 0);
    OccursByte(x + rest, TERMINATOR, j, 0);
  }

  lemma {:induction false} SplitCleanLines(lines: seq<bytes>)
    requires CleanLines(lines)
    ensures SplitCrLf(JoinCrLf(lines)) == lines
  {
    var first := lines[0];
    var all := JoinCrLf(lines);
    if |lines| == 1 {
      forall j: nat
        ensures !OccursAt(first, CRLF, j)
      {
        assert first + [] == first;
        if j < |first| { NoCrLfInside(first, [], j); }
      }
    } else {
      var rest := JoinCrLf(lines[1..]);
      assert all == first + (CRLF + rest);
      forall j: nat | j < |first|
        ensures !OccursAt(all, CRLF, j)
      {
        NoCrLfInside(first, CRLF + rest, j);
      }
      FindIs(all, CRLF, |first|);
      assert all[..|first|] == first && all[|first| + 2..] == rest;
      SplitCleanLines(lines[1..]);
    }
  }

  /** The first terminator after clean lines is the one that was put there. */
  lemma {:induction false} NoEarlyTerminator(lines: seq<bytes>, tail: bytes, j: nat)
    requires CleanLines(lines) && j < |JoinCrLf(lines)|
    ensures !OccursAt(JoinCrLf(lines) + TERMINATOR + tail, TERMINATOR, j)
  {
    var first := lines[0];
    var all := JoinCrLf(lines) + TERMINATOR + tail;
    if |lines| == 1 {
      assert all == first + (TERMINATOR + tail);
      NoCrLfInside(first, TERMINATOR + tail, j);
    } else {
      var after := JoinCrLf(lines[1..]) + TERMINATOR + tail;
      assert all == first + (CRLF + after);
      if j < |first| {
        NoCrLfInside(first, CRLF + after, j);
      } else if j == |first| {
        JoinStarts(lines[1..]);
        assert all[j + 2] == after[0] == lines[1][0];
        assert lines[1][0] in lines[1];
        OccursByte(all, TERMINATOR, j, 2);
      } else if j == |first| + 1 {
        assert all[j] == LF;
        OccursByte(all, TERMINATOR, j, 0);
      } else {
        NoEarlyTerminator(lines[1..], tail, j - |first| - 2);
        OccursInSuffix(all, after, |first| + 2, j);
      }
    }
  }

  lemma OccursInSuffix(all: bytes, after: bytes, offset: nat, j: nat)
    requires offset <= j && offset <= |all| && all[offset..] == after
    ensures OccursAt(all, TERMINATOR, j) ==> OccursAt(after, TERMINATOR, j - offset)
  {
    if OccursAt(all, TERMINATOR, j) {
      assert after[j - offset..j - offset + 4] == all[j..j + 4];
    }
  }

  lemma JoinStarts(lines: seq<bytes>)
    requires CleanLines(lines)
    ensures JoinCrLf(lines) != [] && JoinCrLf(lines)[0] == lines[0][0]
  {
  }

  lemma PrintedHeadEnd(lines: seq<bytes>, tail: bytes)
    requires CleanLines(lines)
    ensures HeadEnd(JoinCrLf(lines) + TERMINATOR + tail) == Some(|JoinCrLf(lines)| + 4)
  {
    var head := JoinCrLf(lines);
    var all := head + TERMINATOR + tail;
    forall j: nat | j < |head|
      ensures !OccursAt(all, TERMINATOR, j)
    {
      NoEarlyTerminator(lines, tail, j);
    }
    assert all[|head|..|head| + 4] == TERMINATOR;
    FindIs(all, TERMINATOR, |head|);
  }

  // ---------------------------------------------------------------- parsing the printed request

  /** A host and a port that a target line can carry. */
  ghost predicate GoodTarget(host: bytes, portText: bytes, port: int) {
    && (forall b :: b in host ==> b != SPACE && b != CR && b != LF)
    && (forall b :: b in portText ==> b != SPACE && b != CR && b != LF && b != COLON)
    && Denotes(portText, port)
  }

  /** The ports that the probe prints are such texts. */
  lemma PrintedPort(host: bytes, port: nat)
    requires forall b :: b in host ==> b != SPACE && b != CR && b != LF
    ensures GoodTarget(host, DecimalText(port), port)
  {
    DecimalIsNumeral(port);
    ReadUndoesPrint(port);
  }

  lemma TargetIsClean(host: bytes, portText: bytes, port: int)
    requires GoodTarget(host, portText, port)
    ensures SPACE !in host + [COLON] + portText && NoBreak(host + [COLON] + portText)
  {
  }

  lemma {:induction false} LastIndexIs(s: bytes, b: byte, k: nat)
    requires k < |s| && s[k] == b && b !in s[k + 1..]
    ensures LastIndexOf(s, b) == Some(k)
  {
    if k < |s| - 1 {
      var init := s[..|s| - 1];
      assert s[|s| - 1] == s[k + 1..][|s| - k - 2];
      assert s[k + 1..] == init[k + 1..] + [s[|s| - 1]];
      LastIndexIs(init, b, k);
    }
  }

  lemma {:induction false} FirstIndexIs(s: bytes, b: byte, k: nat)
    requires k < |s| && s[k] == b && b !in s[..k]
    ensures IndexOf(s, b) == Some(k)
  {
    if k > 0 {
      assert s[0] == s[..k][0];
      assert s[..k] == [s[0]] + s[1..][..k - 1];
      FirstIndexIs(s[1..], b, k - 1);
    }
  }

  lemma LastColon(x: bytes, y: bytes)
    requires COLON !in y
    ensures LastIndexOf(x + [COLON] + y, COLON) == Some(|x|)
  {
    assert (x + [COLON] + y)[|x| + 1..] == y;
    LastIndexIs(x + [COLON] + y, COLON, |x|);
  }

  lemma FirstColon(x: bytes, y: bytes)
    requires COLON !in x
    ensures IndexOf(x + [COLON] + y, COLON) == Some(|x|)
  {
    assert (x + [COLON] + y)[..|x|] == x;
    FirstIndexIs(x + [COLON] + y, COLON, |x|);
  }

  lemma LineWords()
    ensures Ascii("CONNECT ") == Ascii("CONNECT") + [SPACE]
    ensures Ascii(" HTTP/1.1") == [SPACE] + Ascii("HTTP/1.1")
    ensures SPACE !in Ascii("CONNECT") && SPACE !in Ascii("HTTP/1.1")
  {
  }

  lemma {:induction false} SplitThree(x: bytes, y: bytes, z: bytes)
    requires SPACE !in x && SPACE !in y && SPACE !in z
    ensures SplitOn((x + [SPACE]) + y + ([SPACE] + z), SPACE) == [x, y, z]
  {
    assert (x + [SPACE]) + y + ([SPACE] + z) == x + [SPACE] + (y + [SPACE] + z);
    SplitFirst(x, y + [SPACE] + z, SPACE);
    SplitFirst(y, z, SPACE);
    SplitFirst(z, [], SPACE);
  }

  lemma SplitRequestLine(target: bytes)
    requires SPACE !in target
    ensures SplitOn(Ascii("CONNECT ") + target + Ascii(" HTTP/1.1"), SPACE)
            == [Ascii("CONNECT"), target, Ascii("HTTP/1.1")]
  {
    LineWords();
    SplitThree(Ascii("CONNECT"), target, Ascii("HTTP/1.1"));
  }

  lemma StripKeeps(s: bytes)
    requires s != [] ==> !IsSpace(s[0]) && !IsSpace(s[|s| - 1])
    ensures Strip(s) == s
    ensures Strip([SPACE] + s) == s
  {
    assert ([SPACE] + s)[1..] == s;
  }

  lemma HeaderWords()
    ensures Ascii("Connection: close") == Ascii("Connection") + [COLON] + Ascii(" close")
    ensures COLON !in Ascii("Connection")
    ensures PREFIX == Ascii("Proxy-Authorization") + [COLON] + ([SPACE] + Ascii("Basic "))
    ensures COLON !in Ascii("Proxy-Authorization")
    ensures Lower(Ascii("Proxy-Authorization")) == AUTH_KEY
    ensures |Lower(Ascii("Connection"))| != |AUTH_KEY|
    ensures Lower(Ascii("Basic ")) == BASIC
  {
  }

  /** The last header of a list decides when it carries the key, and is passed over if not. */
  lemma LastHeader(headers: seq<bytes>, name: bytes, value: bytes, key: bytes)
    requires headers != [] && headers[|headers| - 1] == name + [COLON] + value
    requires COLON !in name && name != [] && !IsSpace(name[0]) && !IsSpace(name[|name| - 1])
    ensures Header(headers, key) ==
            if Lower(name) == key then Strip(value) else Header(headers[..|headers| - 1], key)
  {
    var h := headers[|headers| - 1];
    FirstColon(name, value);
    assert h[..|name|] == name && h[|name| + 1..] == value;
    StripKeeps(name);
  }

  lemma SecondToLastHeader(first: bytes, name: bytes, value: bytes, other: bytes, rest: bytes)
    requires COLON !in name && name != [] && !IsSpace(name[0]) && !IsSpace(name[|name| - 1])
    requires COLON !in other && other != [] && !IsSpace(other[0]) && !IsSpace(other[|other| - 1])
    requires |other| != |name|
    ensures Header([first, name + [COLON] + value, other + [COLON] + rest], Lower(name)) == Strip(value)
  {
    var second, third := name + [COLON] + value, other + [COLON] + rest;
    LastHeader([first, second, third], other, rest, Lower(name));
    assert [first, second, third][..2] == [first, second];
    LastHeader([first, second], name, value, Lower(name));
  }

  lemma PrefixedHeader(first: bytes, prefix: bytes, name: bytes, basic: bytes, code: bytes, other: bytes, rest: bytes)
    requires prefix == name + [COLON] + ([SPACE] + basic)
    requires COLON !in name && name != [] && !IsSpace(name[0]) && !IsSpace(name[|name| - 1])
    requires COLON !in other && other != [] && !IsSpace(other[0]) && !IsSpace(other[|other| - 1])
    requires |other| != |name|
    requires basic != [] && !IsSpace(basic[0]) && code != [] && !IsSpace(code[|code| - 1])
    ensures Header([first, prefix + code, other + [COLON] + rest], Lower(name)) == basic + code
  {
    var value := [SPACE] + (basic + code);
    assert prefix + code == name + [COLON] + value;
    SecondToLastHeader(first, name, value, other, rest);
    StripKeeps(basic + code);
  }

  /** The credential header is found behind the `Connection` header that follows it. */
  lemma AuthHeaderFound(host: bytes, code: bytes)
    requires code != [] && !IsSpace(code[|code| - 1])
    ensures Header([host, PREFIX + code, Ascii("Connection: close")], AUTH_KEY) == Ascii("Basic ") + code
  {
    HeaderWords();
    PrefixedHeader(host, PREFIX, Ascii("Proxy-Authorization"), Ascii("Basic "), code,
                   Ascii("Connection"), Ascii(" close"));
  }

  lemma CredentialsBack(user: bytes, password: bytes)
    requires COLON !in user
    ensures var pa := Ascii("Basic ") + Base64.Encode(user + [COLON] + password);
            IsBasic(pa) && Credentials(pa) == Some((user, password))
  {
    var text := user + [COLON] + password;
    var code := Base64.Encode(text);
    var pa := Ascii("Basic ") + code;
    Base64.EncodedText(text);
    assert pa[..6] == Ascii("Basic ") && Lower(Ascii("Basic ")) == BASIC;
    assert pa[6..] == code;
    StripKeeps(code);
    Base64.DecodeUndoesEncode(text);
    FirstColon(user, password);
    assert text[..|user|] == user && text[|user| + 1..] == password;
  }

  predicate NoBreak(s: bytes) {
    CR !in s && LF !in s
  }

  lemma NoBreakJoin(a: bytes, b: bytes)
    requires NoBreak(a) && NoBreak(b)
    ensures NoBreak(a + b)
  {
  }

  lemma WordsAreClean()
    ensures NoBreak(Ascii("CONNECT ")) && NoBreak(Ascii(" HTTP/1.1"))
    ensures NoBreak(Ascii("Host: ")) && NoBreak(Ascii("Connection: close")) && NoBreak(PREFIX)
  {
  }

  lemma PrintedLinesAreClean(user: bytes, password: bytes, target: bytes)
    requires NoBreak(target)
    ensures CleanLines(RequestLines(user, password, target))
  {
    var code := Base64.Encode(user + [COLON] + password);
    Base64.EncodedText(user + [COLON] + password);
    WordsAreClean();
    assert NoBreak(code);
    NoBreakJoin(Ascii("CONNECT "), target);
    NoBreakJoin(Ascii("CONNECT ") + target, Ascii(" HTTP/1.1"));
    NoBreakJoin(Ascii("Host: "), target);
    NoBreakJoin(PREFIX, code);
  }

  /** A request line that asks for a tunnel to the target. */
  ghost predicate AsksFor(line: bytes, target: bytes) {
    var words := SplitOn(line, SPACE);
    |words| == 3 && Lower(words[0]) == Ascii("connect") && words[1] == target
  }

  /** Headers that carry the Basic credential of the user. */
  ghost predicate Carries(headers: seq<bytes>, user: bytes, password: bytes) {
    var pa := Header(headers, AUTH_KEY);
    IsBasic(pa) && Credentials(pa) == Some((user, password))
  }

  lemma ParseBy(line: bytes, headers: seq<bytes>, user: bytes, password: bytes,
                host: bytes, portText: bytes, port: int)
    requires AsksFor(line, host + [COLON] + portText) && GoodTarget(host, portText, port)
    requires Carries(headers, user, password)
    ensures Parse(line, headers) == Connect(user, password, host, port)
  {
    LastColon(host, portText);
    ParseIntIff(portText, port);
    var target := host + [COLON] + portText;
    assert target[..|host|] == host && target[|host| + 1..] == portText;
  }

  /** The target names a port behind its last colon. */
  ghost predicate HasPort(target: bytes) {
    exists host, portText, port :: NamesPort(target, host, portText, port)
  }

  ghost predicate NamesPort(target: bytes, host: bytes, portText: bytes, port: int) {
    target == host + [COLON] + portText && COLON !in portText && Denotes(portText, port)
  }

  lemma NamedPortIsParsed(target: bytes, host: bytes, portText: bytes, port: int)
    requires NamesPort(target, host, portText, port)
    ensures LastIndexOf(target, COLON) == Some(|host|) && ParseInt(target[|host| + 1..]) == Some(port)
  {
    LastColon(host, portText);
    ParseIntIff(portText, port);
    assert target[|host| + 1..] == portText;
  }

  lemma ParsedPortIsNamed(target: bytes, i: nat, port: int)
    requires LastIndexOf(target, COLON) == Some(i) && ParseInt(target[i + 1..]) == Some(port)
    ensures NamesPort(target, target[..i], target[i + 1..], port)
  {
    ParseIntIff(target[i + 1..], port);
    assert target == target[..i] + [COLON] + target[i + 1..];
  }

  lemma {:induction false} HasPortIff(target: bytes)
    ensures HasPort(target) <==>
            LastIndexOf(target, COLON).Some? && ParseInt(target[LastIndexOf(target, COLON).value + 1..]).Some?
  {
    if HasPort(target) {
      var host, portText, port :| NamesPort(target, host, portText, port);
      NamedPortIsParsed(target, host, portText, port);
    }
    if LastIndexOf(target, COLON).Some? {
      var i := LastIndexOf(target, COLON).value;
      if ParseInt(target[i + 1..]).Some? {
        ParsedPortIsNamed(target, i, ParseInt(target[i + 1..]).value);
      }
    }
  }

  /** Which requests are refused before anyone is asked, and for what: too few words, another
      method than CONNECT in any letter case, and no port in the target. */
  lemma {:induction false} WhichRequestsFail(line: bytes, headers: seq<bytes>)
    ensures var words, r := SplitOn(line, SPACE), Parse(line, headers);
            && (r.BadRequest? <==> |words| < 3)
            && (r.NotConnect? <==> |words| >= 3 && Lower(words[0]) != Ascii("connect"))
            && (r.BadTarget? <==> |words| >= 3 && Lower(words[0]) == Ascii("connect") && !HasPort(words[1]))
  {
    var words := SplitOn(line, SPACE);
    if |words| >= 3 {
      HasPortIff(words[1]);
    }
  }

  /** Of the others: the host and port are those of the target, and the Basic credential decides
      between a missing one, one that cannot be decoded, and the user and password. */
  lemma {:induction false} WhatRequestsSay(line: bytes, headers: seq<bytes>)
    requires var r := Parse(line, headers); r.Connect? || r.NoAuth? || r.BadAuth?
    ensures var words, r := SplitOn(line, SPACE), Parse(line, headers);
            var pa := Header(headers, Ascii("proxy-authorization"));
            && |words| >= 3 && (exists portText :: NamesPort(words[1], r.host, portText, r.port))
            && (r.NoAuth? <==> !IsBasic(pa))
            && (r.BadAuth? <==> IsBasic(pa) && Credentials(pa).None?)
            && (r.Connect? ==> Credentials(pa) == Some((r.user, r.password)))
  {
    var target, r := SplitOn(line, SPACE)[1], Parse(line, headers);
    ParsedPortIsNamed(target, LastIndexOf(target, COLON).value, r.port);
  }

  /** What follows the scheme is decoded if it is ASCII, and the user ends at the first colon,
      if there is one. */
  ghost predicate Spells(pa: bytes, user: bytes, password: bytes) {
    && IsBasic(pa) && (forall i :: 0 <= i < |pa| ==> pa[i] < 128)
    && 58 !in user
    && (Base64.Decode(Strip(pa[6..])) == Some(user + [58] + password)
        || (Base64.Decode(Strip(pa[6..])) == Some(user) && password == []))
  }

  lemma {:induction false} CredentialsIff(pa: bytes, user: bytes, password: bytes)
    requires IsBasic(pa)
    ensures Credentials(pa) == Some((user, password)) <==> Spells(pa, user, password)
    ensures Credentials(pa).None? <==>
            (exists i :: 0 <= i < |pa| && pa[i] >= 128) || Base64.Decode(Strip(pa[6..])).None?
  {
    var decoded := Base64.Decode(Strip(pa[6..]));
    if Spells(pa, user, password) && decoded == Some(user + [58] + password) {
      FirstColon(user, password);
      assert (user + [58] + password)[..|user|] == user && (user + [58] + password)[|user| + 1..] == password;
    }
    if decoded.Some? && IndexOf(decoded.value, COLON).Some? {
      var i := IndexOf(decoded.value, COLON).value;
      assert decoded.value == decoded.value[..i] + [58] + decoded.value[i + 1..];
    }
  }

  /** The scheme may be written in any letter case. */
  lemma BasicInAnyCase(pa: bytes)
    ensures IsBasic(pa) <==>
            && |pa| >= 6 && pa[5] == 32
            && forall i :: 0 <= i < 5 ==> pa[i] == Ascii("basic")[i] || pa[i] == Ascii("BASIC")[i]
  {
  }

  lemma PrintedLine(user: bytes, password: bytes, target: bytes)
    requires SPACE !in target
    ensures AsksFor(RequestLines(user, password, target)[0], target)
  {
    SplitRequestLine(target);
    assert Lower(Ascii("CONNECT")) == Ascii("connect");
  }

  lemma RestOfLines(user: bytes, password: bytes, target: bytes)
    ensures var lines := RequestLines(user, password, target);
            lines[1..] == [lines[1], PREFIX + Base64.Encode(user + [58] + password), Ascii("Connection: close")]
  {
  }

  lemma PrintedHeaders(user: bytes, password: bytes, target: bytes)
    requires COLON !in user
    ensures Carries(RequestLines(user, password, target)[1..], user, password)
  {
    var code := Base64.Encode(user + [COLON] + password);
    Base64.EncodedText(user + [COLON] + password);
    RestOfLines(user, password, target);
    AuthHeaderFound(RequestLines(user, password, target)[1], code);
    CredentialsBack(user, password);
  }

  /** Reading the lines of a printed request gives back what was printed. */
  lemma ParseUndoesPrint(user: bytes, password: bytes, host: bytes, portText: bytes, port: int)
    requires COLON !in user && GoodTarget(host, portText, port)
    ensures var lines := RequestLines(user, password, host + [COLON] + portText);
            Parse(lines[0], lines[1..]) == Connect(user, password, host, port)
  {
    var target := host + [COLON] + portText;
    TargetIsClean(host, portText, port);
    PrintedLine(user, password, target);
    PrintedHeaders(user, password, target);
    ParseBy(RequestLines(user, password, target)[0], RequestLines(user, password, target)[1..],
            user, password, host, portText, port);
  }

  lemma HeadParts(r: HeadResult, head: bytes, payload: bytes, read: nat)
    requires HeadEnd(head + TERMINATOR + payload) == Some(|head| + 4)
    requires read <= |head + TERMINATOR + payload| && IsHeadOf(r, head + TERMINATOR + payload, read)
    ensures [r.line] + r.headers == SplitCrLf(head)
    ensures r.tail + (head + TERMINATOR + payload)[read..] == payload
  {
    CutAround(head, TERMINATOR, payload, read);
  }

  lemma CutAround(head: bytes, mid: bytes, payload: bytes, read: nat)
    requires |head| + |mid| <= read <= |head + mid + payload|
    ensures (head + mid + payload)[..|head|] == head
    ensures (head + mid + payload)[|head| + |mid|..read] + (head + mid + payload)[read..] == payload
  {
  }

  lemma LinesReadBack(lines: seq<bytes>, payload: bytes, r: HeadResult, read: nat)
    requires CleanLines(lines)
    requires read <= |JoinCrLf(lines) + TERMINATOR + payload|
    requires IsHeadOf(r, JoinCrLf(lines) + TERMINATOR + payload, read)
    ensures [r.line] + r.headers == lines
    ensures r.tail + (JoinCrLf(lines) + TERMINATOR + payload)[read..] == payload
  {
    PrintedHeadEnd(lines, payload);
    HeadParts(r, JoinCrLf(lines), payload, read);
    SplitCleanLines(lines);
  }

  /** Printer and parser undo each other across the network: however the printed request is
      cut into chunks and whatever follows it, if the head reader accepts it then the proxy
      sees the same user, password, host and port, and keeps every byte that follows. */
  lemma {:induction false} RequestRoundTrip(user: bytes, password: bytes, host: bytes, portText: bytes, port: int,
                         chunks: seq<bytes>, payload: bytes, r: HeadResult, read: nat)
    requires COLON !in user && GoodTarget(host, portText, port)
    requires Concat(chunks) == Request(user, password, host + [COLON] + portText) + payload
    requires read <= |Concat(chunks)| && IsHeadOf(r, Concat(chunks), read)
    ensures Parse(r.line, r.headers) == Connect(user, password, host, port)
    ensures r.tail + Concat(chunks)[read..] == payload
  {
    var lines := RequestLines(user, password, host + [COLON] + portText);
    TargetIsClean(host, portText, port);
    PrintedLinesAreClean(user, password, host + [COLON] + portText);
    LinesReadBack(lines, payload, r, read);
    assert r.line == lines[0] && r.headers == lines[1..] by {
      assert ([r.line] + r.headers)[1..] == r.headers;
    }
    ParseUndoesPrint(user, password, host, portText, port);
  }

  /** A printed request that leaves room for one more read below the limit is always read. */
  lemma PrintedRequestFits(user: bytes, password: bytes, target: bytes, chunks: seq<bytes>, payload: bytes)
    requires NoBreak(target)
    requires IsChunked(chunks) && Concat(chunks) == Request(user, password, target) + payload
    requires |Request(user, password, target)| + 4095 <= 16384
    ensures HeadEnd(Concat(chunks)).Some? && Reach(chunks, HeadEnd(Concat(chunks)).value) <= 16384
  {
    var lines := RequestLines(user, password, target);
    PrintedLinesAreClean(user, password, target);
    PrintedHeadEnd(lines, payload);
    assert Concat(chunks) == JoinCrLf(lines) + TERMINATOR + payload;
    HeadBounds(chunks, MAX_HEAD_BYTES);
  }
}
