/** The HTTP front end against the shared policy, and the two front ends against each other.
 */
module FrontEnds {
  import opened Bytes
  import opened Session
  import opened HttpHead
  import opened HttpSession
  import ConnectRequest
  import Socks
  import SocksFacts

  // ---------------------------------------------------------------- HTTP against the policy

  lemma AnswerOnly(status: nat)
    ensures Decisions([Answer(status)]) == []
  {
    DecisionsCons(Answer(status), []);
    assert [Answer(status)] + [] == [Answer(status)];
  }

  lemma ThenAnswer(a: Act, status: nat)
    requires IsDecision(a)
    ensures Decisions([a, Answer(status)]) == [a]
  {
    AnswerOnly(status);
    assert [a, Answer(status)] == [a] + [Answer(status)];
    DecisionsCons(a, [Answer(status)]);
  }

  lemma ReplyDecisions(d: bytes, tail: bytes)
    ensures Decisions(AfterReply(d, tail)) == []
  {
    var tunnel := [StartRelay] + Payload(tail);
    DecisionsCons(StartRelay, Payload(tail));
    DecisionsCons(Answer(200), tunnel);
    AnswerOnly(502);
  }

  lemma NegotiateDecisions(host: bytes, port: int, tail: bytes, d: bytes)
    ensures Decisions(Negotiate(host, port, tail, d)) ==
            if |d| >= 2 && d[..2] == UPSTREAM_ACCEPTS && Sendable(host, port)
            then [ToUpstream(DomainRequest(host, port))] else []
  {
    AnswerOnly(502);
    if |d| >= 2 && d[..2] == UPSTREAM_ACCEPTS && Sendable(host, port) {
      ReplyDecisions(d[2..], tail);
      DecisionsCons(ToUpstream(DomainRequest(host, port)), AfterReply(d[2..], tail));
    }
  }

  lemma ContactDecisions(env: Env, host: bytes, port: int, tail: bytes)
    requires Sendable(host, port)
    ensures Decisions(AfterHost(env, host, port, tail)) == Contact(env.upstream, Text(host), DomainRequest(host, port))
  {
    match env.upstream
    case Unreachable => ThenAnswer(Dial(false), 502);
    case Sends(d) =>
      NegotiateDecisions(host, port, tail, d);
      DecisionsCons(Dial(true), [ToUpstream(UPSTREAM_GREETING)] + Negotiate(host, port, tail, d));
      DecisionsCons(ToUpstream(UPSTREAM_GREETING), Negotiate(host, port, tail, d));
  }

  lemma OpenDecisions(env: Env, host: bytes, port: int, tail: bytes)
    requires Sendable(host, port)
    ensures Decisions(Open(env, host, port, tail)) == Destination(env, Text(host), DomainRequest(host, port))
  {
    if !env.allowed(Text(host)) {
      ThenAnswer(HostCheck(Text(host), false), 403);
    } else {
      ContactDecisions(env, host, port, tail);
      DecisionsCons(HostCheck(Text(host), true), AfterHost(env, host, port, tail));
    }
  }

  lemma CheckUserDecisions(env: Env, user: bytes, password: bytes, host: bytes, port: int, tail: bytes)
    requires Sendable(host, port)
    ensures Decisions(CheckUser(env, user, password, host, port, tail))
            == Policy(env, user, password, Text(host), DomainRequest(host, port))
  {
    AnswerOnly(407);
    DecisionsCons(GroupCheck(user, env.inGroup(user)), AfterGroup(env, user, password, host, port, tail));
    if env.inGroup(user) {
      DecisionsCons(PamCheck(user, password, env.pam(user, password)),
                    AfterPam(env, user, password, host, port, tail));
      OpenDecisions(env, host, port, tail);
    }
  }

  /** The HTTP front end refines the policy: a CONNECT request whose target fits into a SOCKS
      request leads to exactly the decisions and upstream bytes that the policy prescribes. */
  lemma HttpRefinesPolicy(env: Env, head: HeadResult, user: bytes, password: bytes, host: bytes, port: int)
    requires head.Head? && Sendable(host, port)
    requires ConnectRequest.Parse(head.line, head.headers) == ConnectRequest.Connect(user, password, host, port)
    ensures Decisions(Script(env, head)) == Policy(env, user, password, Text(host), DomainRequest(host, port))
  {
    CheckUserDecisions(env, user, password, host, port, head.tail);
  }

  /** Nothing but the SOCKS greeting goes upstream, and no tunnel starts. */
  ghost predicate Quiet(acts: seq<Act>) {
    forall a :: a in acts ==> a != StartRelay && (a.ToUpstream? ==> a.data == UPSTREAM_GREETING)
  }

  lemma QuietCons(a: Act, acts: seq<Act>)
    requires Quiet(acts) && a != StartRelay && (a.ToUpstream? ==> a.data == UPSTREAM_GREETING)
    ensures Quiet([a] + acts)
  {
  }

  lemma OpenIsQuiet(env: Env, host: bytes, port: int, tail: bytes)
    requires !Sendable(host, port)
    ensures Quiet(Open(env, host, port, tail))
  {
    if env.upstream.Sends? {
      var negotiation := Negotiate(host, port, tail, env.upstream.data);
      assert Quiet(negotiation);
      QuietCons(ToUpstream(UPSTREAM_GREETING), negotiation);
      QuietCons(Dial(true), [ToUpstream(UPSTREAM_GREETING)] + negotiation);
    }
    QuietCons(HostCheck(Text(host), true), AfterHost(env, host, port, tail));
  }

  /** Any other target is never sent upstream: the port or the host cannot be encoded. */
  lemma {:induction false} UnsendableIsNotSent(env: Env, head: HeadResult, user: bytes, password: bytes, host: bytes, port: int)
    requires head.Head? && !Sendable(host, port)
    requires ConnectRequest.Parse(head.line, head.headers) == ConnectRequest.Connect(user, password, host, port)
    ensures Quiet(Script(env, head))
  {
    OpenIsQuiet(env, host, port, head.tail);
    var afterPam := AfterPam(env, user, password, host, port, head.tail);
    QuietCons(PamCheck(user, password, env.pam(user, password)), afterPam);
    QuietCons(GroupCheck(user, env.inGroup(user)), AfterGroup(env, user, password, host, port, head.tail));
  }

  /** Safety of the HTTP front end: it contacts the upstream only for a parsed CONNECT request
      whose user is in the group, passed PAM and asks for an allowed host, in this order. */
  lemma {:induction false} HttpDialsAfterPolicy(env: Env, head: HeadResult, ok: bool)
    requires Dial(ok) in Script(env, head)
    ensures head.Head?
    ensures var c := ConnectRequest.Parse(head.line, head.headers);
            && c.Connect?
            && env.inGroup(c.user) && env.pam(c.user, c.password) && env.allowed(Text(c.host))
            && Script(env, head) ==
                 [GroupCheck(c.user, true)] + ([PamCheck(c.user, c.password, true)]
                 + ([HostCheck(Text(c.host), true)] + AfterHost(env, c.host, c.port, head.tail)))
  {
    var c := ConnectRequest.Parse(head.line, head.headers);
    assert c.Connect?;
    SocksFacts.PeelDial(GroupCheck(c.user, env.inGroup(c.user)),
                        AfterGroup(env, c.user, c.password, c.host, c.port, head.tail), ok);
    SocksFacts.PeelDial(PamCheck(c.user, c.password, env.pam(c.user, c.password)),
                        AfterPam(env, c.user, c.password, c.host, c.port, head.tail), ok);
  }

  /** The converse: a CONNECT that the policy permits is always dialled. */
  lemma PermittedConnectIsDialled(env: Env, head: HeadResult)
    requires head.Head? && ConnectRequest.Parse(head.line, head.headers).Connect?
    requires var c := ConnectRequest.Parse(head.line, head.headers);
             env.inGroup(c.user) && env.pam(c.user, c.password) && env.allowed(Text(c.host))
    ensures Dial(env.upstream.Sends?) in Script(env, head)
  {
    var c := ConnectRequest.Parse(head.line, head.headers);
    var after := AfterHost(env, c.host, c.port, head.tail);
    assert after[0] == Dial(env.upstream.Sends?) && after[0] in after;
    assert Open(env, c.host, c.port, head.tail) == [HostCheck(Text(c.host), true)] + after;
    assert AfterGroup(env, c.user, c.password, c.host, c.port, head.tail)
           == [PamCheck(c.user, c.password, true)] + ([HostCheck(Text(c.host), true)] + after);
  }

  // ---------------------------------------------------------------- the two front ends

  /** Both front ends take the same decisions and send the same bytes upstream, for the same
      user, password, domain name and port in the same environment. */
  lemma {:induction false} FrontEndsAgree(env: Env, head: HeadResult, p: SocksFacts.Parts, stream: bytes)
    requires SocksFacts.Encodes(stream, p) && p.atyp == 3 && Encodable(SocksFacts.HostOf(p))
    requires head.Head?
    requires ConnectRequest.Parse(head.line, head.headers)
             == ConnectRequest.Connect(p.user, p.password, p.address[1..], PortOf(p.port))
    ensures Decisions(Script(env, head)) == Decisions(Socks.Greet(env, stream))
  {
    SocksFacts.SocksRefinesPolicy(env, p, stream);
    HttpRefinesPolicy(env, head, p.user, p.password, p.address[1..], PortOf(p.port));
    DomainForwarded(p);
  }

  lemma DomainForwarded(p: SocksFacts.Parts)
    requires SocksFacts.Valid(p) && p.atyp == 3
    ensures |p.address| >= 1 && |p.address[1..]| < 256
    ensures SocksFacts.Forwarded(p) == DomainRequest(p.address[1..], PortOf(p.port))
  {
    PortRoundTrip(p.port);
    assert p.address == [p.address[0]] + p.address[1..];
  }

  /** The readiness probe of status_proxy.py, end to end: whatever the chunks, once the proxy
      has read the probe's head it takes the policy's decisions for the probe's own user,
      password and target, and nothing of the probe's later bytes is lost. */
  lemma {:induction false} ProbeIsJudgedByPolicy(env: Env, user: bytes, password: bytes, host: bytes, portText: bytes, port: int,
                              chunks: seq<bytes>, payload: bytes, head: HeadResult, read: nat)
    requires ConnectRequest.COLON !in user && ConnectRequest.GoodTarget(host, portText, port)
    requires Sendable(host, port)
    requires Concat(chunks)
             == ConnectRequest.Request(user, password, host + [ConnectRequest.COLON] + portText) + payload
    requires read <= |Concat(chunks)| && IsHeadOf(head, Concat(chunks), read)
    ensures Decisions(Script(env, head)) == Policy(env, user, password, Text(host), DomainRequest(host, port))
    ensures head.tail + Concat(chunks)[read..] == payload
  {
    ConnectRequest.RequestRoundTrip(user, password, host, portText, port, chunks, payload, head, read);
    HttpRefinesPolicy(env, head, user, password, host, port);
  }
}
