/** What a SOCKS5 client is told, byte for byte: section 3 and section 6 of RFC 1928, section 2 of
    RFC 1929.
 */
module SocksAnswers {
  import opened Options
  import opened Bytes
  import opened Session
  import opened Socks
  import opened SocksFacts

  // ---------------------------------------------------------------- the login

  /** A client that does not offer username/password is told so, and nothing else happens. */
  lemma NoPasswordOffered(env: Env, methods: bytes, rest: bytes)
    requires |methods| < 256 && 2 !in methods
    ensures Greet(env, [5, |methods|] + methods + rest) == [ToClient([5, 255])]
  {
    MethodsOfEncoded(methods, rest);
  }

  lemma StrangerIsRefused(env: Env, p: Parts, payload: bytes)
    requires Valid(p) && !env.inGroup(p.user)
    ensures Greet(env, Encode(p) + payload) == [ToClient([5, 2]), GroupCheck(p.user, false), ToClient([1, 1])]
  {
    SessionOfEncoded(env, p, payload);
  }

  lemma WrongPasswordIsRefused(env: Env, p: Parts, payload: bytes)
    requires Valid(p) && env.inGroup(p.user) && !env.pam(p.user, p.password)
    ensures Greet(env, Encode(p) + payload) ==
            [ToClient([5, 2]), GroupCheck(p.user, true), PamCheck(p.user, p.password, false), ToClient([1, 1])]
  {
    SessionOfEncoded(env, p, payload);
  }

  /** What precedes the request of a member with an accepted password. */
  function LoggedIn(user: bytes, password: bytes): seq<Act> {
    [ToClient([5, 2]), GroupCheck(user, true), PamCheck(user, password, true), ToClient([1, 0])]
  }

  ghost predicate MayAsk(env: Env, user: bytes, password: bytes) {
    env.inGroup(user) && env.pam(user, password)
  }

  lemma LoginThen(env: Env, methods: bytes, user: bytes, password: bytes, rest: bytes)
    requires |methods| < 256 && 2 in methods && |user| < 256 && |password| < 256 && MayAsk(env, user, password)
    ensures Greet(env, GreetingBytes(methods) + (LoginBytes(user, password) + rest))
            == LoggedIn(user, password) + Request(env, rest)
  {
    GreetOfEncoded(env, methods, LoginBytes(user, password) + rest);
    LoginOfEncoded(env, user, password, rest);
    CheckUserIsTunnel(env, user, password, rest);
    Four(ToClient([5, 2]), GroupCheck(user, true), PamCheck(user, password, true), ToClient([1, 0]), Request(env, rest));
  }

  // ---------------------------------------------------------------- the request

  lemma RequestOfHead(env: Env, head: bytes, rest: bytes)
    requires |head| == 4
    ensures Request(env, head + rest) ==
            if head[0] != 5 || head[1] != 1 then [ToClient(Refusal(7))] else Target(env, head[3], rest)
  {
    assert (head + rest)[4..] == rest;
  }

  /** Any command but CONNECT is answered with code 7. */
  lemma OtherCommandIsRefused(env: Env, methods: bytes, user: bytes, password: bytes, head: bytes, rest: bytes)
    requires |methods| < 256 && 2 in methods && |user| < 256 && |password| < 256 && MayAsk(env, user, password)
    requires |head| == 4 && (head[0] != 5 || head[1] != 1)
    ensures Greet(env, GreetingBytes(methods) + (LoginBytes(user, password) + (head + rest)))
            == LoggedIn(user, password) + [ToClient([5, 7, 0, 1, 0, 0, 0, 0, 0, 0])]
  {
    RequestOfHead(env, head, rest);
    LoginThen(env, methods, user, password, head + rest);
  }

  /** Any address type but the three known ones is answered with code 8. */
  lemma OtherAddressTypeIsRefused(env: Env, methods: bytes, user: bytes, password: bytes, head: bytes, rest: bytes)
    requires |methods| < 256 && 2 in methods && |user| < 256 && |password| < 256 && MayAsk(env, user, password)
    requires |head| == 4 && head[0] == 5 && head[1] == 1 && head[3] !in {1, 3, 4}
    ensures Greet(env, GreetingBytes(methods) + (LoginBytes(user, password) + (head + rest)))
            == LoggedIn(user, password) + [ToClient([5, 8, 0, 1, 0, 0, 0, 0, 0, 0])]
  {
    RequestOfHead(env, head, rest);
    LoginThen(env, methods, user, password, head + rest);
  }

  lemma RequestThen(env: Env, p: Parts, payload: bytes)
    requires Valid(p) && MayAsk(env, p.user, p.password)
    ensures Greet(env, Encode(p) + payload) == LoggedIn(p.user, p.password) + Open(env, HostOf(p), Forwarded(p))
  {
    Reassociate(GreetingBytes(p.methods), LoginBytes(p.user, p.password), RequestBytes(p), payload);
    LoginThen(env, p.methods, p.user, p.password, RequestBytes(p) + payload);
    RequestOfEncoded(env, p, payload);
  }

  /** A host off the whitelist is answered with code 2. */
  lemma DeniedHostIsRefused(env: Env, p: Parts, payload: bytes)
    requires Valid(p) && MayAsk(env, p.user, p.password) && !env.allowed(HostOf(p))
    ensures Greet(env, Encode(p) + payload) ==
            LoggedIn(p.user, p.password) + [HostCheck(HostOf(p), false), ToClient([5, 2, 0, 1, 0, 0, 0, 0, 0, 0])]
  {
    RequestThen(env, p, payload);
  }

  /** An upstream that cannot be reached, or does not accept the greeting, is reported with code 1. */
  lemma UnreachableIsReported(env: Env, p: Parts, payload: bytes)
    requires Valid(p) && MayAsk(env, p.user, p.password) && env.allowed(HostOf(p)) && env.upstream.Unreachable?
    ensures Greet(env, Encode(p) + payload) ==
            LoggedIn(p.user, p.password)
            + [HostCheck(HostOf(p), true), Dial(false), ToClient([5, 1, 0, 1, 0, 0, 0, 0, 0, 0])]
  {
    RequestThen(env, p, payload);
  }

  lemma UnwillingIsReported(env: Env, p: Parts, payload: bytes)
    requires Valid(p) && MayAsk(env, p.user, p.password) && env.allowed(HostOf(p))
    requires env.upstream.Sends? && |env.upstream.data| >= 2 && env.upstream.data[..2] != [5, 0]
    ensures Greet(env, Encode(p) + payload) ==
            LoggedIn(p.user, p.password)
            + [HostCheck(HostOf(p), true), Dial(true), ToUpstream([5, 1, 0]), ToClient([5, 1, 0, 1, 0, 0, 0, 0, 0, 0])]
  {
    RequestThen(env, p, payload);
  }

  /** A willing upstream gets the client's own address and port, and its reply is passed on. */
  lemma RequestIsForwarded(env: Env, p: Parts, payload: bytes)
    requires Valid(p) && MayAsk(env, p.user, p.password) && env.allowed(HostOf(p))
    requires env.upstream.Sends? && |env.upstream.data| >= 2 && env.upstream.data[..2] == [5, 0]
    requires p.atyp == 3 ==> forall i :: 1 <= i < |p.address| ==> p.address[i] < 128
    ensures Greet(env, Encode(p) + payload) ==
            LoggedIn(p.user, p.password)
            + ([HostCheck(HostOf(p), true), Dial(true), ToUpstream([5, 1, 0]),
                ToUpstream([5, 1, 0, p.atyp] + p.address + p.port)] + PassReply(env.upstream.data[2..]))
  {
    RequestThen(env, p, payload);
    AddressIsPlain(p);
    Four(HostCheck(HostOf(p), true), Dial(true), ToUpstream([5, 1, 0]),
         ToUpstream([5, 1, 0, p.atyp] + p.address + p.port), PassReply(env.upstream.data[2..]));
  }

  lemma AddressIsPlain(p: Parts)
    requires Valid(p) && (p.atyp == 3 ==> forall i :: 1 <= i < |p.address| ==> p.address[i] < 128)
    ensures Encodable(HostOf(p))
  {
    if p.atyp == 1 {
      Dotted.NtoaIsPlain(p.address);
    }
  }

  /** A name with a byte beyond ASCII is never sent on: only the greeting reaches the upstream. */
  lemma UnplainNameIsNotSent(env: Env, p: Parts, payload: bytes, i: nat)
    requires Valid(p) && MayAsk(env, p.user, p.password) && env.allowed(HostOf(p)) && p.atyp == 3
    requires 1 <= i < |p.address| && p.address[i] >= 128
    requires env.upstream.Sends? && |env.upstream.data| >= 2 && env.upstream.data[..2] == [5, 0]
    ensures Greet(env, Encode(p) + payload) ==
            LoggedIn(p.user, p.password) + [HostCheck(HostOf(p), true), Dial(true), ToUpstream([5, 1, 0])]
  {
    RequestThen(env, p, payload);
    UnplainName(p, i);
  }

  lemma UnplainName(p: Parts, i: nat)
    requires Valid(p) && p.atyp == 3 && 1 <= i < |p.address| && p.address[i] >= 128
    ensures !Encodable(HostOf(p))
  {
    assert HostOf(p).text[i - 1] == p.address[i];
  }

  // ---------------------------------------------------------------- every stream

  /** The messages that the proxy itself composes. None of them is a reply with code 0. */
  predicate IsOwnMessage(data: bytes) {
    || data == [5, 255] || data == [5, 2] || data == [1, 1] || data == [1, 0]
    || data == [5, 1, 0, 1, 0, 0, 0, 0, 0, 0]
    || data == [5, 2, 0, 1, 0, 0, 0, 0, 0, 0]
    || data == [5, 7, 0, 1, 0, 0, 0, 0, 0, 0]
    || data == [5, 8, 0, 1, 0, 0, 0, 0, 0, 0]
  }

  /** Everything that the upstream sends behind its two-byte answer. */
  function ReplyBytes(env: Env): bytes {
    if env.upstream.Sends? && |env.upstream.data| >= 2 then env.upstream.data[2..] else []
  }

  ghost predicate IsPiece(data: bytes, all: bytes) {
    exists i, j :: 0 <= i <= j <= |all| && data == all[i..j]
  }

  ghost predicate IsKnown(env: Env, a: Act) {
    a.ToClient? ==> IsOwnMessage(a.data) || IsPiece(a.data, ReplyBytes(env))
  }

  ghost predicate AreKnown(env: Env, acts: seq<Act>) {
    forall a :: a in acts ==> IsKnown(env, a)
  }

  lemma KnownCons(env: Env, a: Act, acts: seq<Act>)
    requires AreKnown(env, acts) && IsKnown(env, a)
    ensures AreKnown(env, [a] + acts)
  {
  }

  lemma ReplyIsKnown(env: Env)
    ensures AreKnown(env, PassReply(ReplyBytes(env)))
  {
    var d := ReplyBytes(env);
    if |d| >= 4 {
      assert IsPiece(d[0..4], d);
      if ReplyLength(d).Some? && |d| >= ReplyLength(d).value {
        assert IsPiece(d[4..ReplyLength(d).value], d);
      }
    }
  }

  lemma NegotiationIsKnown(env: Env, host: Host, request: bytes)
    requires env.upstream.Sends?
    ensures AreKnown(env, Negotiate(host, request, env.upstream.data))
  {
    ReplyIsKnown(env);
    if |env.upstream.data| >= 2 {
      KnownCons(env, ToUpstream(request), PassReply(ReplyBytes(env)));
    }
  }

  lemma OpenIsKnown(env: Env, host: Host, request: bytes)
    ensures AreKnown(env, Open(env, host, request))
  {
    if env.upstream.Sends? {
      var negotiation := Negotiate(host, request, env.upstream.data);
      NegotiationIsKnown(env, host, request);
      KnownCons(env, ToUpstream(UPSTREAM_GREETING), negotiation);
      KnownCons(env, Dial(true), [ToUpstream(UPSTREAM_GREETING)] + negotiation);
    }
    assert AreKnown(env, AfterHost(env, host, request));
    KnownCons(env, HostCheck(host, true), AfterHost(env, host, request));
  }

  lemma RequestIsKnown(env: Env, s: bytes)
    ensures AreKnown(env, Request(env, s))
  {
    if |s| >= 4 {
      match ReadAddr(s[4..], s[3])
      case BadType =>
      case Short =>
      case Found(host, size) =>
        if |s[4..]| >= size + 2 {
          OpenIsKnown(env, host, UpstreamRequest(host, s[3], s[4..][size..size + 2]));
        }
    }
  }

  lemma CheckUserIsKnown(env: Env, user: bytes, password: bytes, rest: bytes)
    ensures AreKnown(env, CheckUser(env, user, password, rest))
  {
    RequestIsKnown(env, rest);
    KnownCons(env, ToClient([1, 0]), Request(env, rest));
    var afterPam := AfterPam(env, user, password, rest);
    assert AreKnown(env, afterPam);
    KnownCons(env, PamCheck(user, password, env.pam(user, password)), afterPam);
    var afterGroup := AfterGroup(env, user, password, rest);
    assert AreKnown(env, afterGroup);
    KnownCons(env, GroupCheck(user, env.inGroup(user)), afterGroup);
  }

  lemma LoginIsKnown(env: Env, s: bytes)
    ensures AreKnown(env, Login(env, s))
  {
    match LoginFields(s)
    case None =>
    case Some(f) => CheckUserIsKnown(env, f.user, f.password, s[f.size..]);
  }

  /** Whatever a client sends: every message to it is one of the proxy's own or a piece of the
      upstream's reply. */
  lemma EveryMessageIsKnown(env: Env, s: bytes)
    ensures AreKnown(env, Greet(env, s))
  {
    GreetParts(env, s);
    match Methods(s)
    case None =>
    case Some(methods) =>
      var rest := s[2 + |methods|..];
      LoginIsKnown(env, rest);
      KnownCons(env, ToClient([5, 2]), Login(env, rest));
  }

  /** None of the proxy's own messages says "succeeded": a reply with code 0 is the upstream's. */
  lemma OwnMessagesNeverSucceed(data: bytes)
    requires IsOwnMessage(data) && |data| >= 4
    ensures data[0] == 5 && data[1] != 0
  {
  }
}
