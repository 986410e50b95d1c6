/** What a proxy session does to the outside world, and the one policy that both front ends
    of auth_proxy.py apply.
 */
module Session {
  import opened Bytes

  /** A destination as the whitelist sees it: a text, or an IPv6 address whose text form is
      not modelled. */
  datatype Host = Text(text: bytes) | V6(address: bytes)

  /** The upstream SOCKS server: unreachable, or the bytes it sends before it stops. */
  datatype Upstream = Unreachable | Sends(data: bytes)

  /** Answers of the world around one session. */
  datatype Env = Env(inGroup: bytes -> bool,
                     pam: (bytes, bytes) -> bool,
                     allowed: Host -> bool,
                     upstream: Upstream)

  /** The observable acts of a session, in order. */
  datatype Act =
    | ToClient(data: bytes)
    | Answer(status: nat)      // an HTTP response; its text is not modelled
    | GroupCheck(user: bytes, ok: bool)
    | PamCheck(user: bytes, password: bytes, ok: bool)
    | HostCheck(host: Host, ok: bool)
    | Dial(ok: bool)
    | ToUpstream(data: bytes)
    | StartRelay

  const UPSTREAM_GREETING: bytes := [5, 1, 0]
  const UPSTREAM_ACCEPTS: bytes := [5, 0]

  /** The text can be encoded as ASCII again after a lossy ASCII decoding. */
  predicate Encodable(host: Host) {
    host.Text? ==> forall i :: 0 <= i < |host.text| ==> host.text[i] < 128
  }

  /** Group, PAM, whitelist, upstream: the decisions and the upstream bytes for one request. */
  function Policy(env: Env, user: bytes, password: bytes, host: Host, request: bytes): seq<Act> {
    [GroupCheck(user, env.inGroup(user))] +
    if !env.inGroup(user) then []
    else
      [PamCheck(user, password, env.pam(user, password))] +
      if !env.pam(user, password) then [] else Destination(env, host, request)
  }

  function Destination(env: Env, host: Host, request: bytes): seq<Act> {
    [HostCheck(host, env.allowed(host))] + if !env.allowed(host) then [] else Contact(env.upstream, host, request)
  }

  function Contact(upstream: Upstream, host: Host, request: bytes): seq<Act> {
    match upstream
    case Unreachable => [Dial(false)]
    case Sends(data) =>
      [Dial(true)] + ([ToUpstream(UPSTREAM_GREETING)]
                      + if |data| >= 2 && data[..2] == UPSTREAM_ACCEPTS && Encodable(host) then [ToUpstream(request)] else [])
  }

  lemma Two(a: Act, b: Act, rest: seq<Act>)
    ensures [a] + ([b] + rest) == [a, b] + rest
  {
  }

  lemma Four(a: Act, b: Act, c: Act, d: Act, rest: seq<Act>)
    ensures [a] + ([b] + ([c] + ([d] + rest))) == [a, b, c, d] + rest
  {
  }

  predicate IsDecision(a: Act) {
    !a.ToClient? && !a.Answer? && !a.StartRelay?
  }

  /** The acts other than those towards the client, up to the start of the tunnel. */
  function Decisions(trace: seq<Act>): seq<Act> {
    if trace == [] || trace[0].StartRelay? then []
    else (if IsDecision(trace[0]) then [trace[0]] else []) + Decisions(trace[1..])
  }

  lemma DecisionsCons(a: Act, rest: seq<Act>)
    ensures Decisions([a] + rest) == if a.StartRelay? then [] else if IsDecision(a) then [a] + Decisions(rest)
                                     else Decisions(rest)
  {
    assert ([a] + rest)[1..] == rest;
  }

  /** The SOCKS request for a domain name (section 4 of RFC 1928). */
  function DomainRequest(host: bytes, port: nat): bytes
    requires |host| < 256 && port < 65536
  {
    [5, 1, 0, 3, |host|] + host + PortBytes(port)
  }

  /** `struct.pack("!H", port)` */
  function PortBytes(port: nat): (r: bytes)
    requires port < 65536
    ensures |r| == 2
  {
    [port / 256, port % 256]
  }

  function PortOf(b: bytes): (port: nat)
    requires |b| == 2
    ensures port < 65536
  {
    var high: nat := b[0];
    high * 256 + b[1]
  }

  lemma PortRoundTrip(b: bytes)
    requires |b| == 2
    ensures PortBytes(PortOf(b)) == b
  {
  }
}
