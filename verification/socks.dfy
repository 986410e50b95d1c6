/** The SOCKS5 session of auth_proxy.py, `handle`: greeting and CONNECT of RFC 1928 sections
    3 to 6, username/password of RFC 1929 section 2.
 */
module Socks {
  import opened Options
  import opened Bytes
  import opened Session
  import Dotted
  import Relay

  const NO_AUTH_OFFERED: bytes := [5, 255]
  const USE_PASSWORD: bytes := [5, 2]
  const AUTH_REFUSED: bytes := [1, 1]
  const AUTH_ACCEPTED: bytes := [1, 0]

  function Refusal(code: byte): bytes {
    [5, code, 0, 1, 0, 0, 0, 0, 0, 0]
  }

  // ---------------------------------------------------------------- the session as a function

  datatype Address = Short | BadType | Found(host: Host, size: nat)

  /** `_read_addr`: the host and the number of bytes it occupies. */
  function ReadAddr(s: bytes, atyp: byte): (a: Address)
    ensures a.BadType? <==> atyp !in {1, 3, 4}
    ensures a.Found? <==> exists size :: WellFormedAddress(s, atyp, size)
    ensures a.Found? ==> WellFormedAddress(s, atyp, a.size) && IsHostOf(a.host, s[..a.size], atyp)
  {
    if atyp == 1 then
      if |s| < 4 then Short else
        Dotted.AtonUndoesNtoa(s[..4]);
        assert WellFormedAddress(s, atyp, 4);
        Found(Text(Dotted.Ntoa(s[..4])), 4)
    else if atyp == 3 then
      if |s| < 1 || |s| < 1 + s[0] as nat then Short else
        assert WellFormedAddress(s, atyp, 1 + s[0] as nat);
        assert s[..1 + s[0] as nat] == [s[0]] + s[1..1 + s[0] as nat];
        Found(Text(s[1..1 + s[0] as nat]), 1 + s[0] as nat)
    else if atyp == 4 then
      if |s| < 16 then Short else
        assert WellFormedAddress(s, atyp, 16);
        Found(V6(s[..16]), 16)
    else BadType
  }

  /** The first `size` bytes are one address of the given type. */
  predicate WellFormedAddress(s: bytes, atyp: byte, size: nat) {
    && size <= |s|
    && ((atyp == 1 && size == 4) || (atyp == 3 && |s| > 0 && size == 1 + s[0] as nat) || (atyp == 4 && size == 16))
  }

  /** The host that the bytes of an address stand for. */
  predicate IsHostOf(host: Host, address: bytes, atyp: byte) {
    match host
    case V6(octets) => atyp == 4 && octets == address
    case Text(text) =>
      if atyp == 1 then Dotted.Aton(text) == Some(address) else atyp == 3 && [|text|] + text == address
  }

  /** The address as the proxy encodes it again for the upstream request. */
  function EncodeAddr(host: Host, atyp: byte): bytes {
    match host
    case V6(address) => address
    case Text(text) =>
      if atyp == 1 then (if Dotted.Aton(text).Some? then Dotted.Aton(text).value else [])
      else if |text| < 256 then [|text|] + text else []
  }

  function Greet(env: Env, s: bytes): seq<Act> {
    match Methods(s)
    case None => []
    case Some(methods) => AfterMethods(env, methods, s[2 + |methods|..])
  }

  /** The authentication methods of a complete greeting. */
  function Methods(s: bytes): (m: Option<bytes>)
    ensures m.Some? ==> 2 + |m.value| <= |s|
  {
    if |s| < 2 || s[0] != 5 || |s| < 2 + s[1] as nat then None else Some(s[2..2 + s[1] as nat])
  }

  function AfterMethods(env: Env, methods: bytes, rest: bytes): seq<Act> {
    if 2 !in methods then [ToClient(NO_AUTH_OFFERED)] else [ToClient(USE_PASSWORD)] + Login(env, rest)
  }

  function Login(env: Env, s: bytes): seq<Act> {
    match LoginFields(s)
    case None => []
    case Some(f) => CheckUser(env, f.user, f.password, s[f.size..])
  }

  datatype Fields = Fields(user: bytes, password: bytes, size: nat)

  /** The username/password message, if it is there completely. */
  function LoginFields(s: bytes): (f: Option<Fields>)
    ensures f.Some? ==> f.value.size <= |s|
  {
    if |s| < 2 || s[0] != 1 || |s| < 3 + s[1] as nat then None
    else
      var ulen := s[1] as nat;
      var plen := s[2 + ulen] as nat;
      if |s| < 3 + ulen + plen then None
      else Some(Fields(s[2..2 + ulen], s[3 + ulen..3 + ulen + plen], 3 + ulen + plen))
  }

  function CheckUser(env: Env, user: bytes, password: bytes, rest: bytes): seq<Act> {
    [GroupCheck(user, env.inGroup(user))] + AfterGroup(env, user, password, rest)
  }

  function AfterGroup(env: Env, user: bytes, password: bytes, rest: bytes): seq<Act> {
    if !env.inGroup(user) then [ToClient(AUTH_REFUSED)]
    else [PamCheck(user, password, env.pam(user, password))] + AfterPam(env, user, password, rest)
  }

  function AfterPam(env: Env, user: bytes, password: bytes, rest: bytes): seq<Act> {
    if !env.pam(user, password) then [ToClient(AUTH_REFUSED)]
    else [ToClient(AUTH_ACCEPTED)] + Request(env, rest)
  }

  function Request(env: Env, s: bytes): seq<Act> {
    if |s| < 4 then []
    else if s[0] != 5 || s[1] != 1 then [ToClient(Refusal(7))]
    else Target(env, s[3], s[4..])
  }

  /** The rest of the request: the address and the port. */
  function Target(env: Env, atyp: byte, s: bytes): seq<Act> {
    match ReadAddr(s, atyp)
    case BadType => [ToClient(Refusal(8))]
    case Short => []
    case Found(host, size) =>
      if |s| < size + 2 then [] else Open(env, host, UpstreamRequest(host, atyp, s[size..size + 2]))
  }

  function UpstreamRequest(host: Host, atyp: byte, port: bytes): bytes
    requires |port| == 2
  {
    [5, 1, 0, atyp] + EncodeAddr(host, atyp) + PortBytes(PortOf(port))
  }

  function Open(env: Env, host: Host, request: bytes): seq<Act> {
    if !env.allowed(host) then [HostCheck(host, false), ToClient(Refusal(2))]
    else [HostCheck(host, true)] + AfterHost(env, host, request)
  }

  function AfterHost(env: Env, host: Host, request: bytes): seq<Act> {
    match env.upstream
    case Unreachable => [Dial(false), ToClient(Refusal(1))]
    case Sends(data) => [Dial(true)] + ([ToUpstream(UPSTREAM_GREETING)] + Negotiate(host, request, data))
  }

  function Negotiate(host: Host, request: bytes, data: bytes): seq<Act> {
    if |data| < 2 then []
    else if data[..2] != UPSTREAM_ACCEPTS then [ToClient(Refusal(1))]
    else if !Encodable(host) then []
    else [ToUpstream(request)] + PassReply(data[2..])
  }

  /** The length of a reply of a known address type, once its bytes tell. */
  function ReplyLength(d: bytes): (n: Option<nat>)
    requires |d| >= 4
    ensures n.Some? ==> n.value >= 10 || (n.value >= 7 && d[3] == 3)
  {
    if d[3] == 1 then Some(10)
    else if d[3] == 3 then (if |d| < 5 then None else Some(7 + d[4] as nat))
    else if d[3] == 4 then Some(22)
    else None
  }

  function PassReply(d: bytes): seq<Act> {
    if |d| < 4 then [] else [ToClient(d[..4])] + PassBound(d)
  }

  function PassBound(d: bytes): seq<Act>
    requires |d| >= 4
  {
    match ReplyLength(d)
    case None => []
    case Some(n) =>
      if |d| < n then [] else [ToClient(d[4..n])] + if d[1] != 0 then [] else [StartRelay]
  }

  // ---------------------------------------------------------------- what is left for the tunnel

  /** The parts of a handshake, in order; the last one is an address with its port. */
  datatype Part = AtGreeting | AtLogin | AtCommand | AtTarget(atyp: byte)

  function PartsLeft(part: Part): nat {
    match part
    case AtGreeting => 3
    case AtLogin => 2
    case AtCommand => 1
    case AtTarget(_) => 0
  }

  /** The client's bytes behind a handshake of which `s` starts with this part. */
  function Behind(part: Part, s: bytes): bytes
    decreases PartsLeft(part)
  {
    match part
    case AtGreeting =>
      (match Methods(s)
       case None => []
       case Some(methods) => Behind(AtLogin, s[2 + |methods|..]))
    case AtLogin =>
      (match LoginFields(s)
       case None => []
       case Some(f) => Behind(AtCommand, s[f.size..]))
    case AtCommand =>
      if |s| < 4 then [] else Behind(AtTarget(s[3]), s[4..])
    case AtTarget(atyp) =>
      match ReadAddr(s, atyp)
      case BadType => []
      case Short => []
      case Found(_, size) => if |s| < size + 2 then [] else s[size + 2..]
  }

  function BehindHandshake(s: bytes): bytes {
    Behind(AtGreeting, s)
  }

  /** What the upstream sends behind a complete reply; one of an unknown type has four bytes. */
  function BehindReply(d: bytes): bytes
    requires |d| >= 4
  {
    if d[3] !in {1, 3, 4} then d[4..]
    else if ReplyLength(d).None? || |d| < ReplyLength(d).value then []
    else d[ReplyLength(d).value..]
  }

  /** What the upstream sends once the tunnel is up. */
  function TunnelInput(env: Env): bytes {
    if env.upstream.Sends? && |env.upstream.data| >= 6 then BehindReply(env.upstream.data[2..]) else []
  }

  lemma GreetParts(env: Env, s: bytes)
    ensures Methods(s).None? ==> Greet(env, s) == []
    ensures Methods(s).Some? ==>
              var rest := s[2 + |Methods(s).value|..];
              Greet(env, s) == AfterMethods(env, Methods(s).value, rest)
  {
  }

  // ---------------------------------------------------------------- the session as it runs

  datatype Verdict =
    | Unset | NoAuthOffered | NotInGroup | AuthFail | CmdUnsupported | AtypUnsupported | Denied
    | UpstreamDead | UpstreamAuthNeg | UpstreamBadReply | UpstreamRep(code: byte) | Timeout | Okay

  /** A verdict in the statistics names a failure that did occur in the session. */
  ghost predicate Honest(verdict: Verdict, acts: seq<Act>) {
    match verdict
    case Unset => true
    case Timeout => true
    case NoAuthOffered => acts == [ToClient(NO_AUTH_OFFERED)]
    case NotInGroup => exists user :: GroupCheck(user, false) in acts
    case AuthFail => exists user, password :: PamCheck(user, password, false) in acts
    case CmdUnsupported => ToClient(Refusal(7)) in acts
    case AtypUnsupported => ToClient(Refusal(8)) in acts
    case Denied => exists host :: HostCheck(host, false) in acts
    case UpstreamDead => Dial(false) in acts
    case UpstreamAuthNeg => Dial(true) in acts && ToClient(Refusal(1)) in acts
    case UpstreamBadReply => exists rep :: ToClient(rep) in acts && |rep| == 4 && rep[3] !in {1, 3, 4}
    case UpstreamRep(code) => code != 0 && exists rep :: ToClient(rep) in acts && |rep| == 4 && rep[1] == code
    case Okay => StartRelay in acts
  }

  /** A byte stream read with `readexactly`, and the way it ends. */
  class Reader {
    const data: bytes
    const ending: Ending
    var pos: nat

    constructor (data: bytes, ending: Ending)
      ensures this.data == data && this.ending == ending && pos == 0
    {
      this.data, this.ending, pos := data, ending, 0;
    }

    ghost predicate Valid()
      reads this
    {
      pos <= |data|
    }

    function Rest(): bytes
      reads this
    {
      if pos <= |data| then data[pos..] else []
    }

    method ReadExactly(n: nat) returns (r: Option<bytes>)
      requires Valid()
      modifies this
      ensures Valid()
      ensures r.None? <==> |old(Rest())| < n
      ensures r.Some? ==> r.value == old(Rest())[..n] && Rest() == old(Rest())[n..]
    {
      if |data| - pos < n {
        pos := |data|;
        return None;
      }
      r := Some(data[pos..pos + n]);
      pos := pos + n;
    }

    /** A read in the middle of a message `s` of which `k` bytes have been read. */
    method ReadOn(n: nat, ghost s: bytes, ghost k: nat) returns (r: Option<bytes>)
      requires Valid() && k <= |s| && Rest() == s[k..]
      modifies this
      ensures Valid()
      ensures r.None? <==> |s| < k + n
      ensures r.Some? ==> r.value == s[k..k + n] && Rest() == s[k + n..]
    {
      r := ReadExactly(n);
    }
  }

  class Handler {
    const env: Env
    const client: Reader
    const upstream: Reader
    var trace: seq<Act>
    var verdict: Verdict
    var upBytes: nat       // bytes_up and bytes_down of the statistics record
    var downBytes: nat
    var sent: bytes        // what the relay has handed to the upstream and to the client
    var received: bytes
    var drains: nat        // how many drains succeed before one raises
    const drainTimesOut: bool   // whether a drain towards the upstream that raises has timed out
    var broken: bool       // a drain has raised

    constructor (env: Env, input: bytes, ending: Ending, upEnding: Ending, drains: nat, drainTimesOut: bool)
      ensures Valid() && fresh(client) && fresh(upstream) && this.env == env
      ensures this.drains == drains && this.drainTimesOut == drainTimesOut
      ensures client.ending == ending && upstream.ending == upEnding
      ensures AtStage(Greet(env, input), Greet(env, input)) && UpstreamUntouched() && trace == []
      ensures client.data == client.Rest() == input
    {
      this.env, this.drainTimesOut := env, drainTimesOut;
      client := new Reader(input, ending);
      upstream := new Reader(if env.upstream.Sends? then env.upstream.data else [], upEnding);
      trace, verdict, this.drains, broken := [], Unset, drains, false;
      upBytes, downBytes, sent, received := 0, 0, [], [];
      new;
      assert [] + Greet(env, input) == Greet(env, input);
      assert client.data[0..] == client.data && upstream.data[0..] == upstream.data;
    }

    ghost predicate Valid()
      reads this, client, upstream
    {
      client != upstream && client.Valid() && upstream.Valid()
    }

    /** The acts so far are the beginning of the script, and all of it unless a drain raised. */
    ghost predicate Follows(script: seq<Act>)
      reads this, client, upstream
    {
      && NothingRelayed()
      && (StartRelay in trace ==>
            client.Rest() == BehindHandshake(client.data) && upstream.Rest() == TunnelInput(env))
      && trace <= script
      && (!broken ==> trace == script)
      && (broken ==> drains == 0)
      && (verdict == Okay <==> StartRelay in trace)
      && Honest(verdict, trace)
      && (verdict == Timeout ==>
            client.ending == TimedOut || upstream.ending == TimedOut || (broken && drainTimesOut))
    }

    ghost predicate NothingRelayed()
      reads this
    {
      upBytes == 0 && downBytes == 0 && sent == [] && received == []
    }

    ghost predicate AtStage(script: seq<Act>, stage: seq<Act>)
      reads this, client, upstream
    {
      && Valid() && NothingRelayed() && !broken && verdict == Unset
      && StartRelay !in trace && trace + stage == script
    }

    method Do(a: Act, ghost stage: seq<Act>, ghost script: seq<Act>)
      requires AtStage(script, [a] + stage) && a != StartRelay
      modifies this`trace
      ensures AtStage(script, stage) && trace == old(trace) + [a]
    {
      trace := trace + [a];
      assert trace + stage == old(trace) + ([a] + stage);
    }

    /** A drain: it succeeds, or it raises and the session is over. Only the drains towards
        the upstream have a timeout. */
    method Drain(toUpstream: bool, ghost stage: seq<Act>, ghost script: seq<Act>) returns (ok: bool)
      requires AtStage(script, stage)
      modifies this`drains, this`broken, this`verdict
      ensures ok ==> AtStage(script, stage) && drains < old(drains)
      ensures !ok ==> Follows(script)
    {
      ok := drains > 0;
      if ok {
        drains := drains - 1;
      } else {
        broken, verdict := true, if toUpstream && drainTimesOut then Timeout else Unset;
      }
    }

    /** A read that fell short: a timeout is recorded, an early end or a reset is not. */
    method Starve(from: Reader, ghost script: seq<Act>)
      requires AtStage(script, []) && (from == client || from == upstream)
      modifies this`verdict
      ensures Follows(script)
    {
      if from.ending == TimedOut {
        verdict := Timeout;
      }
      assert trace + [] == trace;
    }

    /** Stops without an answer. */
    method Stop(why: Verdict, ghost script: seq<Act>)
      requires AtStage(script, []) && why != Okay && why != Timeout && Honest(why, trace)
      modifies this`verdict
      ensures Follows(script)
    {
      verdict := why;
      assert trace + [] == trace;
    }

    /** Sends a final message and stops. */
    method Refuse(message: bytes, why: Verdict, ghost script: seq<Act>)
      requires AtStage(script, [ToClient(message)]) && why != Okay && why != Timeout && Honest(why, trace + [ToClient(message)])
      modifies this`trace, this`verdict, this`drains, this`broken
      ensures Follows(script)
    {
      Do(ToClient(message), [], script);
      var ok := Drain(false, [], script);
      if ok {
        Stop(why, script);
      }
    }

    ghost predicate UpstreamUntouched()
      reads this, upstream
    {
      upstream.Rest() == if env.upstream.Sends? then env.upstream.data else []
    }

    /** The whole session: `steps` is the schedule of the relay, which may break off anywhere. */
    method Serve(steps: seq<Relay.Step>, limits: Relay.Limits, ghost script: seq<Act>)
      requires AtStage(script, Greet(env, client.Rest())) && UpstreamUntouched() && trace == []
      requires client.Rest() == client.data
      requires limits.close >= 0.0 && limits.halfClose >= 0.0
      modifies this, client, upstream
      ensures Served(script)
    {
      Handle(script);
      RelayBoth(steps, limits, script);
    }

    /** The acts are those of the session up to the tunnel. What the tunnel has carried: beginnings of what both sides send behind the handshake,
        counted exactly, and nothing without a tunnel. */
    ghost predicate Served(script: seq<Act>)
      reads this
    {
      && trace <= script && (!broken ==> trace == script)
      && (verdict == Okay <==> StartRelay in trace) && Honest(verdict, trace)
      && sent <= BehindHandshake(client.data) && received <= TunnelInput(env)
      && upBytes == |sent| && downBytes == |received|
      && (verdict != Okay ==> sent == [] && received == [])
    }

    method RelayBoth(steps: seq<Relay.Step>, limits: Relay.Limits, ghost script: seq<Act>)
      requires Follows(script)
      requires limits.close >= 0.0 && limits.halfClose >= 0.0
      modifies this`sent, this`received, this`upBytes, this`downBytes
      ensures Served(script)
    {
      if verdict != Okay {
        return;
      }
      var relay := Relay.Execute(Relay.Begin(client.Rest(), upBytes, upstream.Rest(), downBytes), steps, limits);
      Relay.ExecuteForwards(client.Rest(), upBytes, upstream.Rest(), downBytes, steps, limits);
      sent, received := relay.left.pipe.output, relay.right.pipe.output;
      upBytes, downBytes := relay.left.pipe.counter, relay.right.pipe.counter;
    }

    method Handle(ghost script: seq<Act>)
      requires AtStage(script, Greet(env, client.Rest())) && UpstreamUntouched() && trace == []
      requires client.Rest() == client.data
      modifies this, client, upstream
      ensures Follows(script)
    {
      var methods, short := ReadGreeting(script);
      if methods.None? {
        NoMethods(short, script);
      } else {
        HandleMethods(methods.value, script);
      }
    }

    /** Reads the greeting: either nothing follows, or what the methods call for. */
    method ReadGreeting(ghost script: seq<Act>) returns (methods: Option<bytes>, short: bool)
      requires AtStage(script, Greet(env, client.Rest())) && client.Rest() == client.data
      modifies client
      ensures methods.None? ==> AtStage(script, [])
      ensures methods.Some? ==>
                && AtStage(script, AfterMethods(env, methods.value, client.Rest()))
                && Behind(AtLogin, client.Rest()) == BehindHandshake(client.data)
    {
      ghost var s := client.Rest();
      ghost var stage := Greet(env, s);
      GreetParts(env, s);
      methods, short := ReadMethods();
      assert AtStage(script, stage);
      if methods.Some? {
        assert stage == AfterMethods(env, methods.value, client.Rest());
      }
    }

    method NoMethods(short: bool, ghost script: seq<Act>)
      requires AtStage(script, [])
      modifies this`verdict
      ensures Follows(script)
    {
      if short {
        Starve(client, script);
      } else {
        Stop(Unset, script);
      }
    }

    method HandleMethods(methods: bytes, ghost script: seq<Act>)
      requires AtStage(script, AfterMethods(env, methods, client.Rest())) && UpstreamUntouched() && trace == []
      requires Behind(AtLogin, client.Rest()) == BehindHandshake(client.data)
      modifies this, client, upstream
      ensures Follows(script)
    {
      if 2 !in methods {
        Refuse(NO_AUTH_OFFERED, NoAuthOffered, script);
        return;
      }
      ghost var stage := Login(env, client.Rest());
      Do(ToClient(USE_PASSWORD), stage, script);
      var ok := Drain(false, stage, script);
      if ok {
        HandleLogin(script);
      }
    }

    /** `short` tells a greeting that ended early from one of an unknown version. */
    method ReadMethods() returns (methods: Option<bytes>, short: bool)
      requires Valid()
      modifies client
      ensures Valid()
      ensures methods == Methods(old(client.Rest()))
      ensures methods.Some? ==>
                && client.Rest() == old(client.Rest())[2 + |methods.value|..]
                && Behind(AtLogin, client.Rest()) == BehindHandshake(old(client.Rest()))
      ensures short ==> methods.None?
    {
      methods, short := None, true;
      ghost var s := client.Rest();
      var head := client.ReadOn(2, s, 0);
      if head.None? {
        return;
      }
      if head.value[0] != 5 {
        short := false;
        return;
      }
      methods := client.ReadOn(head.value[1], s, 2);
      short := methods.None?;
    }

    method HandleLogin(ghost script: seq<Act>)
      requires AtStage(script, Login(env, client.Rest())) && UpstreamUntouched()
      requires Behind(AtLogin, client.Rest()) == BehindHandshake(client.data)
      modifies this, client, upstream
      ensures Follows(script)
    {
      var fields, short := ReadLogin();
      if short {
        Starve(client, script);
      } else if fields.None? {
        Stop(Unset, script);
      } else {
        HandleUser(fields.value.user, fields.value.password, script);
      }
    }

    /** `short` tells a message that ended early from one of an unknown version. */
    method ReadLogin() returns (fields: Option<Fields>, short: bool)
      requires Valid()
      modifies client
      ensures Valid()
      ensures fields == LoginFields(old(client.Rest()))
      ensures fields.Some? ==> client.Rest() == old(client.Rest())[fields.value.size..]
      ensures short ==> fields.None?
    {
      fields, short := None, true;
      ghost var s := client.Rest();
      var v := client.ReadOn(1, s, 0);
      if v.None? {
        return;
      }
      if v.value[0] != 1 {
        short := false;
        return;
      }
      var ulen := client.ReadOn(1, s, 1);
      if ulen.None? {
        return;
      }
      var u: nat := ulen.value[0];
      var user := client.ReadOn(u, s, 2);
      if user.None? {
        return;
      }
      var plen := client.ReadOn(1, s, 2 + u);
      if plen.None? {
        return;
      }
      var p: nat := plen.value[0];
      var password := client.ReadOn(p, s, 3 + u);
      if password.None? {
        return;
      }
      short := false;
      fields := Some(Fields(user.value, password.value, 3 + u + p));
    }

    method HandleUser(user: bytes, password: bytes, ghost script: seq<Act>)
      requires AtStage(script, CheckUser(env, user, password, client.Rest())) && UpstreamUntouched()
      requires Behind(AtCommand, client.Rest()) == BehindHandshake(client.data)
      modifies this, client, upstream
      ensures Follows(script)
    {
      var member := env.inGroup(user);
      ghost var stage := AfterGroup(env, user, password, client.Rest());
      Do(GroupCheck(user, member), stage, script);
      if !member {
        assert GroupCheck(user, false) in trace + [ToClient(AUTH_REFUSED)];
        Refuse(AUTH_REFUSED, NotInGroup, script);
        return;
      }
      var verified := env.pam(user, password);
      stage := AfterPam(env, user, password, client.Rest());
      Do(PamCheck(user, password, verified), stage, script);
      if !verified {
        assert PamCheck(user, password, false) in trace + [ToClient(AUTH_REFUSED)];
        Refuse(AUTH_REFUSED, AuthFail, script);
        return;
      }
      stage := Request(env, client.Rest());
      Do(ToClient(AUTH_ACCEPTED), stage, script);
      var ok := Drain(false, stage, script);
      if ok {
        HandleRequest(script);
      }
    }

    method HandleRequest(ghost script: seq<Act>)
      requires AtStage(script, Request(env, client.Rest())) && UpstreamUntouched()
      requires Behind(AtCommand, client.Rest()) == BehindHandshake(client.data)
      modifies this, client, upstream
      ensures Follows(script)
    {
      ghost var s := client.Rest();
      var hdr := client.ReadOn(4, s, 0);
      if hdr.None? {
        Starve(client, script);
        return;
      }
      if hdr.value[0] != 5 || hdr.value[1] != 1 {
        Refuse(Refusal(7), CmdUnsupported, script);
        return;
      }
      HandleTarget(hdr.value[3], script);
    }

    method HandleTarget(atyp: byte, ghost script: seq<Act>)
      requires AtStage(script, Target(env, atyp, client.Rest())) && UpstreamUntouched()
      requires Behind(AtTarget(atyp), client.Rest()) == BehindHandshake(client.data)
      modifies this, client, upstream
      ensures Follows(script)
    {
      ghost var s := client.Rest();
      var address := ReadAddress(atyp);
      match address {
        case BadType =>
          Refuse(Refusal(8), AtypUnsupported, script);
        case Short =>
          Starve(client, script);
        case Found(host, size) =>
          var port := client.ReadOn(2, s, size);
          if port.None? {
            Starve(client, script);
            return;
          }
          HandleOpen(host, UpstreamRequest(host, atyp, port.value), script);
      }
    }

    /** `_read_addr`: reads the length byte of a name before the name. */
    method ReadAddress(atyp: byte) returns (a: Address)
      requires Valid()
      modifies client
      ensures Valid()
      ensures a == ReadAddr(old(client.Rest()), atyp)
      ensures a.Found? ==> client.Rest() == old(client.Rest())[a.size..]
    {
      ghost var s := client.Rest();
      if atyp == 1 {
        var b := client.ReadExactly(4);
        return if b.None? then Short else Found(Text(Dotted.Ntoa(b.value)), 4);
      }
      if atyp == 3 {
        var n := client.ReadExactly(1);
        if n.None? {
          return Short;
        }
        var name := client.ReadExactly(n.value[0]);
        if name.None? {
          return Short;
        }
        assert name.value == s[1..1 + s[0] as nat] && client.Rest() == s[1 + s[0] as nat..];
        return Found(Text(name.value), 1 + n.value[0] as nat);
      }
      if atyp == 4 {
        var b := client.ReadExactly(16);
        return if b.None? then Short else Found(V6(b.value), 16);
      }
      return BadType;
    }

    method HandleOpen(host: Host, request: bytes, ghost script: seq<Act>)
      requires AtStage(script, Open(env, host, request)) && UpstreamUntouched()
      requires client.Rest() == BehindHandshake(client.data)
      modifies this, client, upstream
      ensures Follows(script)
    {
      var allowed := env.allowed(host);
      if !allowed {
        Do(HostCheck(host, false), [ToClient(Refusal(2))], script);
        assert HostCheck(host, false) in trace + [ToClient(Refusal(2))];
        Refuse(Refusal(2), Denied, script);
        return;
      }
      Do(HostCheck(host, true), AfterHost(env, host, request), script);
      if env.upstream.Unreachable? {
        Do(Dial(false), [ToClient(Refusal(1))], script);
        Refuse(Refusal(1), UpstreamDead, script);
        return;
      }
      ghost var stage := Negotiate(host, request, upstream.Rest());
      Do(Dial(true), [ToUpstream(UPSTREAM_GREETING)] + stage, script);
      Do(ToUpstream(UPSTREAM_GREETING), stage, script);
      var ok := Drain(true, stage, script);
      if ok {
        HandleNegotiation(host, request, script);
      }
    }

    method HandleNegotiation(host: Host, request: bytes, ghost script: seq<Act>)
      requires AtStage(script, Negotiate(host, request, upstream.Rest())) && Dial(true) in trace
      requires client.Rest() == BehindHandshake(client.data)
      requires env.upstream.Sends? && upstream.Rest() == env.upstream.data
      modifies this, client, upstream
      ensures Follows(script)
    {
      var accepted := upstream.ReadExactly(2);
      if accepted.None? {
        Starve(upstream, script);
        return;
      }
      if accepted.value != UPSTREAM_ACCEPTS {
        Refuse(Refusal(1), UpstreamAuthNeg, script);
        return;
      }
      if !Encodable(host) {
        Stop(Unset, script);
        return;
      }
      ghost var stage := PassReply(upstream.Rest());
      Do(ToUpstream(request), stage, script);
      var ok := Drain(true, stage, script);
      if ok {
        HandleReply(script);
      }
    }

    method HandleReply(ghost script: seq<Act>)
      requires AtStage(script, PassReply(upstream.Rest()))
      requires client.Rest() == BehindHandshake(client.data)
      requires env.upstream.Sends? && |env.upstream.data| >= 2 && upstream.Rest() == env.upstream.data[2..]
      modifies this, client, upstream
      ensures Follows(script)
    {
      ghost var d := upstream.Rest();
      var rep := upstream.ReadExactly(4);
      if rep.None? {
        Starve(upstream, script);
        return;
      }
      Do(ToClient(rep.value), PassBound(d), script);
      HandleBound(rep.value, d, script);
    }

    /** The rest of a reply `d` whose first four bytes have been passed on. */
    method HandleBound(rep: bytes, ghost d: bytes, ghost script: seq<Act>)
      requires |d| >= 4 && rep == d[..4] && upstream.Rest() == d[4..]
      requires AtStage(script, PassBound(d)) && ToClient(rep) in trace
      requires client.Rest() == BehindHandshake(client.data) && BehindReply(d) == TunnelInput(env)
      modifies this, upstream
      ensures Follows(script)
    {
      if rep[3] != 1 && rep[3] != 3 && rep[3] != 4 {
        Stop(UpstreamBadReply, script);
        return;
      }
      var bound := ReadBound(rep[3]);
      if bound.None? {
        Starve(upstream, script);
        return;
      }
      assert bound.value == d[4..ReplyLength(d).value] && upstream.Rest() == d[ReplyLength(d).value..];
      Conclude(bound.value, rep[1], script);
    }

    /** The end of a complete reply: the tunnel starts if its code reports success. */
    method Conclude(bound: bytes, code: byte, ghost script: seq<Act>)
      requires AtStage(script, [ToClient(bound)] + if code != 0 then [] else [StartRelay])
      requires exists rep :: ToClient(rep) in trace && |rep| == 4 && rep[1] == code
      requires client.Rest() == BehindHandshake(client.data) && upstream.Rest() == TunnelInput(env)
      modifies this
      ensures Follows(script)
    {
      ghost var rep :| ToClient(rep) in trace && |rep| == 4 && rep[1] == code;
      ghost var stage := if code != 0 then [] else [StartRelay];
      Do(ToClient(bound), stage, script);
      assert ToClient(rep) in trace;
      var ok := Drain(false, stage, script);
      if !ok {
        return;
      }
      if code != 0 {
        Stop(UpstreamRep(code), script);
        return;
      }
      verdict := Okay;
      trace := trace + [StartRelay];
    }

    /** The bound address and port of an upstream reply, by its address type. */
    method ReadBound(atyp: byte) returns (more: Option<bytes>)
      requires Valid() && atyp in {1, 3, 4}
      modifies upstream
      ensures Valid()
      ensures var d := old(upstream.Rest());
              if atyp == 3 && d == [] then more == None
              else
                var n := if atyp == 1 then 6 else if atyp == 4 then 18 else 3 + d[0] as nat;
                && more == (if |d| < n then None else Some(d[..n]))
                && (more.Some? ==> upstream.Rest() == d[n..])
    {
      ghost var d := upstream.Rest();
      if atyp == 1 {
        more := upstream.ReadExactly(6);
        return;
      }
      if atyp == 4 {
        more := upstream.ReadExactly(18);
        return;
      }
      var n := upstream.ReadExactly(1);
      if n.None? {
        return None;
      }
      more := upstream.ReadExactly(n.value[0] as nat + 2);
      if more.Some? {
        more := Some(n.value + more.value);
        assert more.value == d[..3 + d[0] as nat];
      }
    }
  }
}
