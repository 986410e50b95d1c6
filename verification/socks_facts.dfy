/** What the SOCKS5 session guarantees for every client and upstream byte stream.
 */
module SocksFacts {
  import opened Options
  import opened Bytes
  import opened Session
  import opened Socks
  import Dotted

  /** The fields of the messages that a client sends before the tunnel. */
  datatype Parts = Parts(methods: bytes, user: bytes, password: bytes,
                         reserved: byte, atyp: byte, address: bytes, port: bytes)

  ghost predicate Valid(p: Parts) {
    && |p.methods| < 256 && 2 in p.methods
    && |p.user| < 256 && |p.password| < 256
    && ((p.atyp == 1 && |p.address| == 4)
        || (p.atyp == 3 && |p.address| >= 1 && |p.address| == 1 + p.address[0] as nat)
        || (p.atyp == 4 && |p.address| == 16))
    && |p.port| == 2
  }

  function GreetingBytes(methods: bytes): bytes
    requires |methods| < 256
  {
    [5, |methods|] + methods
  }

  function LoginBytes(user: bytes, password: bytes): bytes
    requires |user| < 256 && |password| < 256
  {
    [1, |user|] + user + ([|password|] + password)
  }

  function RequestBytes(p: Parts): bytes {
    [5, 1, p.reserved, p.atyp] + p.address + p.port
  }

  /** The wire format of RFC 1928 and RFC 1929. */
  function Encode(p: Parts): bytes
    requires |p.methods| < 256 && |p.user| < 256 && |p.password| < 256
  {
    GreetingBytes(p.methods) + (LoginBytes(p.user, p.password) + RequestBytes(p))
  }

  function HostOf(p: Parts): Host
    requires WellFormedAddress(p.address, p.atyp, |p.address|)
  {
    if p.atyp == 1 then Text(Dotted.Ntoa(p.address))
    else if p.atyp == 3 then Text(p.address[1..])
    else V6(p.address)
  }

  /** The request that goes upstream: the client's own address type, address and port. */
  function Forwarded(p: Parts): bytes {
    [5, 1, 0, p.atyp] + p.address + p.port
  }

  // ---------------------------------------------------------------- encoding, then parsing

  lemma AddressIsForwarded(p: Parts)
    requires Valid(p)
    ensures UpstreamRequest(HostOf(p), p.atyp, p.port) == Forwarded(p)
  {
    PortRoundTrip(p.port);
    if p.atyp == 1 {
      Dotted.AtonUndoesNtoa(p.address);
    } else if p.atyp == 3 {
      assert p.address == [p.address[0]] + p.address[1..];
    }
  }

  lemma ReadAddrBack(p: Parts, rest: bytes)
    requires Valid(p)
    ensures ReadAddr(p.address + rest, p.atyp) == Found(HostOf(p), |p.address|)
  {
    assert (p.address + rest)[..|p.address|] == p.address;
    if p.atyp == 3 {
      assert (p.address + rest)[1..|p.address|] == p.address[1..];
    }
  }

  lemma TargetOfEncoded(env: Env, p: Parts, payload: bytes)
    requires Valid(p)
    ensures Target(env, p.atyp, p.address + (p.port + payload)) == Open(env, HostOf(p), Forwarded(p))
  {
    var s := p.address + (p.port + payload);
    ReadAddrBack(p, p.port + payload);
    assert s[|p.address|..|p.address| + 2] == p.port;
    AddressIsForwarded(p);
  }

  lemma RequestOfEncoded(env: Env, p: Parts, payload: bytes)
    requires Valid(p)
    ensures Request(env, RequestBytes(p) + payload) == Open(env, HostOf(p), Forwarded(p))
  {
    var s := RequestBytes(p) + payload;
    assert s[0] == 5 && s[1] == 1 && s[3] == p.atyp;
    assert s[4..] == p.address + (p.port + payload);
    TargetOfEncoded(env, p, payload);
  }

  lemma LoginOfEncoded(env: Env, user: bytes, password: bytes, rest: bytes)
    requires |user| < 256 && |password| < 256
    ensures Login(env, LoginBytes(user, password) + rest) == CheckUser(env, user, password, rest)
  {
    var s := LoginBytes(user, password) + rest;
    LoginFieldsOfEncoded(user, password, rest);
    assert s[3 + |user| + |password|..] == rest;
  }

  lemma LoginFieldsOfEncoded(user: bytes, password: bytes, rest: bytes)
    requires |user| < 256 && |password| < 256
    ensures LoginFields(LoginBytes(user, password) + rest)
            == Some(Fields(user, password, 3 + |user| + |password|))
  {
    var s := LoginBytes(user, password) + rest;
    assert s[2..2 + |user|] == user && s[2 + |user|] == |password|;
    assert s[3 + |user|..3 + |user| + |password|] == password;
  }

  lemma GreetOfEncoded(env: Env, methods: bytes, rest: bytes)
    requires |methods| < 256 && 2 in methods
    ensures Greet(env, GreetingBytes(methods) + rest) == [ToClient(USE_PASSWORD)] + Login(env, rest)
  {
    MethodsOfEncoded(methods, rest);
  }

  lemma MethodsOfEncoded(methods: bytes, rest: bytes)
    requires |methods| < 256
    ensures Methods(GreetingBytes(methods) + rest) == Some(methods)
    ensures (GreetingBytes(methods) + rest)[2 + |methods|..] == rest
  {
    assert (GreetingBytes(methods) + rest)[2..2 + |methods|] == methods;
  }

  /** The acts for a client that completes the handshake, whatever follows it. */
  function Tunnel(env: Env, user: bytes, password: bytes, open: seq<Act>): seq<Act> {
    [GroupCheck(user, env.inGroup(user))] +
    if !env.inGroup(user) then [ToClient(AUTH_REFUSED)]
    else
      [PamCheck(user, password, env.pam(user, password))] +
      if !env.pam(user, password) then [ToClient(AUTH_REFUSED)] else [ToClient(AUTH_ACCEPTED)] + open
  }

  lemma CheckUserIsTunnel(env: Env, user: bytes, password: bytes, rest: bytes)
    ensures CheckUser(env, user, password, rest) == Tunnel(env, user, password, Request(env, rest))
  {
  }

  lemma SessionOfEncoded(env: Env, p: Parts, payload: bytes)
    requires Valid(p)
    ensures Greet(env, Encode(p) + payload)
            == [ToClient(USE_PASSWORD)] + Tunnel(env, p.user, p.password, Open(env, HostOf(p), Forwarded(p)))
  {
    var request := RequestBytes(p) + payload;
    var login := LoginBytes(p.user, p.password);
    Reassociate(GreetingBytes(p.methods), login, RequestBytes(p), payload);
    GreetOfEncoded(env, p.methods, login + request);
    LoginOfEncoded(env, p.user, p.password, request);
    RequestOfEncoded(env, p, payload);
    CheckUserIsTunnel(env, p.user, p.password, request);
  }

  lemma BehindRequestOfEncoded(p: Parts, payload: bytes)
    requires Valid(p)
    ensures Behind(AtCommand, RequestBytes(p) + payload) == payload
  {
    var s := RequestBytes(p) + payload;
    assert s[3] == p.atyp && s[4..] == p.address + (p.port + payload);
    ReadAddrBack(p, p.port + payload);
    assert (p.address + (p.port + payload))[|p.address| + 2..] == payload;
  }

  lemma BehindLoginOfEncoded(user: bytes, password: bytes, rest: bytes)
    requires |user| < 256 && |password| < 256
    ensures Behind(AtLogin, LoginBytes(user, password) + rest) == Behind(AtCommand, rest)
  {
    LoginFieldsOfEncoded(user, password, rest);
    assert (LoginBytes(user, password) + rest)[3 + |user| + |password|..] == rest;
  }

  /** The tunnel carries exactly what the client sends behind its handshake. */
  lemma TunnelStartsBehind(p: Parts, payload: bytes)
    requires Valid(p)
    ensures BehindHandshake(Encode(p) + payload) == payload
  {
    var request := RequestBytes(p) + payload;
    var login := LoginBytes(p.user, p.password);
    Reassociate(GreetingBytes(p.methods), login, RequestBytes(p), payload);
    MethodsOfEncoded(p.methods, login + request);
    BehindLoginOfEncoded(p.user, p.password, request);
    BehindRequestOfEncoded(p, payload);
  }

  lemma Reassociate(a: bytes, b: bytes, c: bytes, d: bytes)
    ensures (a + (b + c)) + d == a + (b + (c + d))
  {
  }

  // ---------------------------------------------------------------- parsing, then encoding

  /** The stream starts with a complete, well-formed client handshake. */
  ghost predicate Encodes(s: bytes, p: Parts) {
    Valid(p) && Encode(p) <= s
  }

  /** The session gets as far as the whitelist. */
  ghost predicate Reaches(acts: seq<Act>) {
    exists a :: a in acts && (a.HostCheck? || a.Dial?)
  }

  lemma ReachesRest(a: Act, acts: seq<Act>)
    requires Reaches([a] + acts) && !a.HostCheck? && !a.Dial?
    ensures Reaches(acts)
  {
    var x :| x in [a] + acts && (x.HostCheck? || x.Dial?);
    assert x in acts;
  }

  lemma RequestSound(env: Env, s: bytes) returns (p: Parts)
    requires Reaches(Request(env, s))
    ensures WellFormedAddress(p.address, p.atyp, |p.address|) && |p.port| == 2
    ensures RequestBytes(p) <= s
  {
    var size := RequestSize(env, s);
    p := Parts([], [], [], s[2], s[3], s[4..4 + size], s[4 + size..6 + size]);
    RequestIsPrefix(s, size);
  }

  lemma RequestIsPrefix(s: bytes, size: nat)
    requires |s| >= 6 + size && s[0] == 5 && s[1] == 1
    ensures [5, 1, s[2], s[3]] + s[4..4 + size] + s[4 + size..6 + size] == s[..6 + size]
  {
  }

  lemma TargetSize(env: Env, atyp: byte, s: bytes) returns (size: nat)
    requires Reaches(Target(env, atyp, s))
    ensures |s| >= size + 2 && WellFormedAddress(s, atyp, size)
  {
    var a :| a in Target(env, atyp, s) && (a.HostCheck? || a.Dial?);
    size := ReadAddr(s, atyp).size;
  }

  lemma RequestSize(env: Env, s: bytes) returns (size: nat)
    requires Reaches(Request(env, s))
    ensures |s| >= 6 + size && s[0] == 5 && s[1] == 1
    ensures WellFormedAddress(s[4..4 + size], s[3], size)
  {
    var a :| a in Request(env, s) && (a.HostCheck? || a.Dial?);
    size := TargetSize(env, s[3], s[4..]);
    WellFormedPrefix(s, size);
  }

  lemma WellFormedPrefix(s: bytes, size: nat)
    requires |s| >= 6 + size && WellFormedAddress(s[4..], s[3], size)
    ensures WellFormedAddress(s[4..4 + size], s[3], size)
  {
  }

  lemma CheckUserSound(env: Env, user: bytes, password: bytes, rest: bytes)
    requires Reaches(CheckUser(env, user, password, rest))
    ensures Reaches(Request(env, rest))
  {
    ReachesRest(GroupCheck(user, env.inGroup(user)), AfterGroup(env, user, password, rest));
    if env.inGroup(user) {
      ReachesRest(PamCheck(user, password, env.pam(user, password)), AfterPam(env, user, password, rest));
      if env.pam(user, password) {
        ReachesRest(ToClient(AUTH_ACCEPTED), Request(env, rest));
      }
    }
  }

  lemma LoginShape(env: Env, s: bytes) returns (user: bytes, password: bytes, rest: bytes)
    requires Login(env, s) != []
    ensures |user| < 256 && |password| < 256 && s == LoginBytes(user, password) + rest
    ensures Login(env, s) == CheckUser(env, user, password, rest)
  {
    var f := LoginFields(s).value;
    user, password, rest := f.user, f.password, s[f.size..];
    FieldsAreEncoded(s);
  }

  lemma FieldsAreEncoded(s: bytes)
    requires LoginFields(s).Some?
    ensures var f := LoginFields(s).value;
            |f.user| < 256 && |f.password| < 256 && s == LoginBytes(f.user, f.password) + s[f.size..]
  {
    var ulen := s[1] as nat;
    var f := LoginFields(s).value;
    assert s[..2 + ulen] == [1, |f.user|] + f.user;
    assert s[2 + ulen..f.size] == [|f.password|] + f.password;
    assert s == s[..2 + ulen] + s[2 + ulen..f.size] + s[f.size..];
  }

  lemma GreetShape(env: Env, s: bytes) returns (methods: bytes, rest: bytes)
    requires Reaches(Greet(env, s))
    ensures |methods| < 256 && 2 in methods && s == GreetingBytes(methods) + rest
    ensures Greet(env, s) == [ToClient(USE_PASSWORD)] + Login(env, rest)
  {
    methods := Methods(s).value;
    rest := s[2 + |methods|..];
    MethodsAreEncoded(s);
    var a :| a in AfterMethods(env, methods, rest) && (a.HostCheck? || a.Dial?);
  }

  lemma MethodsAreEncoded(s: bytes)
    requires Methods(s).Some?
    ensures |Methods(s).value| < 256
    ensures s == GreetingBytes(Methods(s).value) + s[2 + |Methods(s).value|..]
  {
  }

  lemma Regroup(a: bytes, b: bytes, c: bytes, s: bytes, s1: bytes, s2: bytes)
    requires s == a + s1 && s1 == b + s2 && c <= s2
    ensures a + (b + c) <= s
  {
    assert s2 == c + s2[|c|..];
    assert s == (a + (b + c)) + s2[|c|..];
  }

  /** The whitelist is consulted only for a client that sent a complete handshake. */
  lemma {:induction false} SessionSound(env: Env, s: bytes) returns (p: Parts)
    requires Reaches(Greet(env, s))
    ensures Encodes(s, p)
  {
    var methods, s1 := GreetShape(env, s);
    ReachesRest(ToClient(USE_PASSWORD), Login(env, s1));
    var user, password, s2 := LoginShape(env, s1);
    CheckUserSound(env, user, password, s2);
    var r := RequestSound(env, s2);
    p := Parts(methods, user, password, r.reserved, r.atyp, r.address, r.port);
    assert RequestBytes(p) == RequestBytes(r);
    Regroup(GreetingBytes(methods), LoginBytes(user, password), RequestBytes(p), s, s1, s2);
  }

  // ---------------------------------------------------------------- the guarantees

  lemma PeelDial(a: Act, acts: seq<Act>, ok: bool)
    requires Dial(ok) in [a] + acts && !a.Dial?
    ensures Dial(ok) in acts
  {
  }

  lemma TunnelDials(env: Env, user: bytes, password: bytes, open: seq<Act>, ok: bool)
    requires Dial(ok) in [ToClient(USE_PASSWORD)] + Tunnel(env, user, password, open)
    ensures env.inGroup(user) && env.pam(user, password) && Dial(ok) in open
    ensures Tunnel(env, user, password, open) ==
            [GroupCheck(user, true)] + ([PamCheck(user, password, true)] + ([ToClient(AUTH_ACCEPTED)] + open))
  {
    PeelDial(ToClient(USE_PASSWORD), Tunnel(env, user, password, open), ok);
  }

  lemma OpenDials(env: Env, host: Host, request: bytes, ok: bool)
    requires Dial(ok) in Open(env, host, request)
    ensures env.allowed(host) && Open(env, host, request) == [HostCheck(host, true)] + AfterHost(env, host, request)
  {
  }

  /** Safety for every client stream: the upstream is contacted only after group membership,
      PAM success, the success reply and the whitelist's consent on the parsed host, in this
      order; and the request then sent is the client's own address and port, byte for byte. */
  lemma {:induction false} UpstreamOnlyAfterPolicy(env: Env, s: bytes, ok: bool) returns (p: Parts)
    requires Dial(ok) in Greet(env, s)
    ensures Encodes(s, p)
    ensures env.inGroup(p.user) && env.pam(p.user, p.password) && env.allowed(HostOf(p))
    ensures Greet(env, s) ==
            [ToClient(USE_PASSWORD)]
            + ([GroupCheck(p.user, true)] + ([PamCheck(p.user, p.password, true)] + ([ToClient(AUTH_ACCEPTED)]
               + ([HostCheck(HostOf(p), true)] + AfterHost(env, HostOf(p), Forwarded(p))))))
  {
    p := SessionSound(env, s);
    EncodedSession(env, p, s);
    TunnelDials(env, p.user, p.password, Open(env, HostOf(p), Forwarded(p)), ok);
    OpenDials(env, HostOf(p), Forwarded(p), ok);
  }

  lemma EncodedSession(env: Env, p: Parts, s: bytes)
    requires Encodes(s, p)
    ensures Greet(env, s)
            == [ToClient(USE_PASSWORD)] + Tunnel(env, p.user, p.password, Open(env, HostOf(p), Forwarded(p)))
  {
    var payload := s[|Encode(p)|..];
    assert s == Encode(p) + payload;
    SessionOfEncoded(env, p, payload);
  }

  ghost predicate Dials(acts: seq<Act>) {
    exists ok :: Dial(ok) in acts
  }

  ghost predicate Permitted(env: Env, p: Parts)
    requires Valid(p)
  {
    env.inGroup(p.user) && env.pam(p.user, p.password) && env.allowed(HostOf(p))
  }

  lemma DialsBehind(a: Act, acts: seq<Act>)
    requires Dials(acts)
    ensures Dials([a] + acts)
  {
    var ok :| Dial(ok) in acts;
    assert Dial(ok) in [a] + acts;
  }

  lemma AfterHostDials(env: Env, host: Host, request: bytes)
    ensures Dials(AfterHost(env, host, request))
  {
    var acts := AfterHost(env, host, request);
    assert acts[0] == Dial(env.upstream.Sends?) && acts[0] in acts;
  }

  /** The converse: a complete handshake that the policy permits is always dialled. */
  lemma PermittedIsDialled(env: Env, p: Parts, s: bytes)
    requires Encodes(s, p) && Permitted(env, p)
    ensures Dials(Greet(env, s))
  {
    var after := AfterHost(env, HostOf(p), Forwarded(p));
    EncodedSession(env, p, s);
    AfterHostDials(env, HostOf(p), Forwarded(p));
    DialsBehind(HostCheck(HostOf(p), true), after);
    var open := Open(env, HostOf(p), Forwarded(p));
    DialsBehind(ToClient(AUTH_ACCEPTED), open);
    DialsBehind(PamCheck(p.user, p.password, true), [ToClient(AUTH_ACCEPTED)] + open);
    DialsBehind(GroupCheck(p.user, true), [PamCheck(p.user, p.password, true)] + ([ToClient(AUTH_ACCEPTED)] + open));
    DialsBehind(ToClient(USE_PASSWORD), Tunnel(env, p.user, p.password, open));
  }

  /** The upstream is contacted exactly for the complete handshakes that the policy permits. */
  lemma {:induction false} DialsIffPermitted(env: Env, s: bytes)
    ensures Dials(Greet(env, s)) <==> exists p :: Encodes(s, p) && Permitted(env, p)
  {
    if Dials(Greet(env, s)) {
      var ok :| Dial(ok) in Greet(env, s);
      var p := UpstreamOnlyAfterPolicy(env, s, ok);
      assert Encodes(s, p) && Permitted(env, p);
    }
    if p :| Encodes(s, p) && Permitted(env, p) {
      PermittedIsDialled(env, p, s);
    }
  }

  lemma MessageOnly(data: bytes)
    ensures Decisions([ToClient(data)]) == []
  {
    DecisionsCons(ToClient(data), []);
    assert [ToClient(data)] + [] == [ToClient(data)];
  }

  lemma ThenMessage(a: Act, data: bytes)
    requires IsDecision(a)
    ensures Decisions([a, ToClient(data)]) == [a]
  {
    MessageOnly(data);
    assert [a, ToClient(data)] == [a] + [ToClient(data)];
    DecisionsCons(a, [ToClient(data)]);
  }

  lemma ReplyHasNoDecisions(d: bytes)
    ensures Decisions(PassReply(d)) == []
  {
    if |d| >= 4 {
      DecisionsCons(ToClient(d[..4]), PassBound(d));
      if ReplyLength(d).Some? && |d| >= ReplyLength(d).value {
        var tail := if d[1] != 0 then [] else [StartRelay];
        DecisionsCons(ToClient(d[4..ReplyLength(d).value]), tail);
      }
    }
  }

  lemma NegotiateDecisions(host: Host, request: bytes, d: bytes)
    ensures Decisions(Negotiate(host, request, d)) ==
            if |d| >= 2 && d[..2] == UPSTREAM_ACCEPTS && Encodable(host) then [ToUpstream(request)] else []
  {
    if |d| >= 2 && d[..2] == UPSTREAM_ACCEPTS && Encodable(host) {
      ReplyHasNoDecisions(d[2..]);
      DecisionsCons(ToUpstream(request), PassReply(d[2..]));
    } else if Negotiate(host, request, d) != [] {
      DecisionsCons(ToClient(Refusal(1)), []);
      assert Negotiate(host, request, d) == [ToClient(Refusal(1))] + [];
    }
  }

  lemma ContactDecisions(env: Env, host: Host, request: bytes)
    ensures Decisions(AfterHost(env, host, request)) == Contact(env.upstream, host, request)
  {
    match env.upstream
    case Unreachable => ThenMessage(Dial(false), Refusal(1));
    case Sends(d) =>
      NegotiateDecisions(host, request, d);
      DecisionsCons(Dial(true), [ToUpstream(UPSTREAM_GREETING)] + Negotiate(host, request, d));
      DecisionsCons(ToUpstream(UPSTREAM_GREETING), Negotiate(host, request, d));
  }

  lemma OpenDecisions(env: Env, host: Host, request: bytes)
    ensures Decisions(Open(env, host, request)) == Destination(env, host, request)
  {
    if !env.allowed(host) {
      ThenMessage(HostCheck(host, false), Refusal(2));
    } else {
      ContactDecisions(env, host, request);
      DecisionsCons(HostCheck(host, true), AfterHost(env, host, request));
    }
  }

  lemma TunnelDecisions(env: Env, user: bytes, password: bytes, host: Host, request: bytes)
    ensures Decisions(Tunnel(env, user, password, Open(env, host, request)))
            == Policy(env, user, password, host, request)
  {
    var open := Open(env, host, request);
    OpenDecisions(env, host, request);
    MessageOnly(AUTH_REFUSED);
    DecisionsCons(ToClient(AUTH_ACCEPTED), open);
    var afterPam := if !env.pam(user, password) then [ToClient(AUTH_REFUSED)] else [ToClient(AUTH_ACCEPTED)] + open;
    DecisionsCons(PamCheck(user, password, env.pam(user, password)), afterPam);
    var afterGroup := if !env.inGroup(user) then [ToClient(AUTH_REFUSED)]
                      else [PamCheck(user, password, env.pam(user, password))] + afterPam;
    DecisionsCons(GroupCheck(user, env.inGroup(user)), afterGroup);
  }

  /** The SOCKS front end refines the policy: a complete handshake leads to exactly the
      decisions and the upstream bytes that the policy prescribes. */
  lemma SocksRefinesPolicy(env: Env, p: Parts, s: bytes)
    requires Encodes(s, p)
    ensures Decisions(Greet(env, s)) == Policy(env, p.user, p.password, HostOf(p), Forwarded(p))
  {
    EncodedSession(env, p, s);
    var tunnel := Tunnel(env, p.user, p.password, Open(env, HostOf(p), Forwarded(p)));
    DecisionsCons(ToClient(USE_PASSWORD), tunnel);
    TunnelDecisions(env, p.user, p.password, HostOf(p), Forwarded(p));
  }

  /** The bytes that a run of acts hands to the client. */
  function ClientBytes(acts: seq<Act>): bytes {
    if acts == [] then [] else
      (if acts[0].ToClient? then acts[0].data else []) + ClientBytes(acts[1..])
  }

  /** An upstream reply reaches the client byte for byte, and the tunnel starts only after a
      complete reply that reports success. */
  lemma ReplyIsPassedOn(d: bytes)
    ensures ClientBytes(PassReply(d)) ==
            if |d| < 4 then []
            else if ReplyLength(d).None? || |d| < ReplyLength(d).value then d[..4]
            else d[..ReplyLength(d).value]
    ensures StartRelay in PassReply(d) <==>
            |d| >= 4 && d[1] == 0 && ReplyLength(d).Some? && ReplyLength(d).value <= |d|
  {
    if |d| >= 4 {
      var bound := PassBound(d);
      var acts := [ToClient(d[..4])] + bound;
      assert acts[1..] == bound;
      if ReplyLength(d).Some? && |d| >= ReplyLength(d).value {
        var n := ReplyLength(d).value;
        var tail := if d[1] != 0 then [] else [StartRelay];
        assert bound[1..] == tail;
        assert ClientBytes(tail) == [];
        assert d[..4] + (d[4..n] + []) == d[..n];
      } else {
        assert d[..4] + [] == d[..4];
      }
    }
  }
}
