/** The HTTP CONNECT session of auth_proxy.py, `handle_http` (section 9.3.6 of RFC 9110,
    Basic credentials of section 2 of RFC 7617).
 */
module HttpSession {
  import opened Options
  import opened Bytes
  import opened Session
  import opened HttpHead
  import ConnectRequest
  import Relay
  import Socks

  // ---------------------------------------------------------------- the session as a function

  /** The acts for a request head; the payload that came with it is sent once the tunnel is up. */
  function Script(env: Env, head: HeadResult): seq<Act> {
    match head
    case TooLarge => []
    case Incomplete => []
    case Broken(_) => []
    case Head(line, headers, tail) =>
      match ConnectRequest.Parse(line, headers)
      case BadRequest => [Answer(400)]
      case NotConnect => [Answer(405)]
      case BadTarget(_) => [Answer(400)]
      case NoAuth(_, _) => [Answer(407)]
      case BadAuth(_, _) => [Answer(400)]
      case Connect(user, password, host, port) => CheckUser(env, user, password, host, port, tail)
  }

  function CheckUser(env: Env, user: bytes, password: bytes, host: bytes, port: int, tail: bytes): seq<Act> {
    [GroupCheck(user, env.inGroup(user))] + AfterGroup(env, user, password, host, port, tail)
  }

  function AfterGroup(env: Env, user: bytes, password: bytes, host: bytes, port: int, tail: bytes): seq<Act> {
    if !env.inGroup(user) then [Answer(407)]
    else [PamCheck(user, password, env.pam(user, password))] + AfterPam(env, user, password, host, port, tail)
  }

  function AfterPam(env: Env, user: bytes, password: bytes, host: bytes, port: int, tail: bytes): seq<Act> {
    if !env.pam(user, password) then [Answer(407)] else Open(env, host, port, tail)
  }

  function Open(env: Env, host: bytes, port: int, tail: bytes): seq<Act> {
    if !env.allowed(Text(host)) then [HostCheck(Text(host), false), Answer(403)]
    else [HostCheck(Text(host), true)] + AfterHost(env, host, port, tail)
  }

  function AfterHost(env: Env, host: bytes, port: int, tail: bytes): seq<Act> {
    match env.upstream
    case Unreachable => [Dial(false), Answer(502)]
    case Sends(data) => [Dial(true)] + ([ToUpstream(UPSTREAM_GREETING)] + Negotiate(host, port, tail, data))
  }

  /** The target fits into a SOCKS request for a domain name. */
  predicate Sendable(host: bytes, port: int) {
    |host| < 256 && Encodable(Text(host)) && 0 <= port < 65536
  }

  function Negotiate(host: bytes, port: int, tail: bytes, data: bytes): seq<Act> {
    if |data| < 2 then []
    else if data[..2] != UPSTREAM_ACCEPTS then [Answer(502)]
    else if !Sendable(host, port) then []
    else [ToUpstream(DomainRequest(host, port))] + AfterReply(data[2..], tail)
  }

  /** The upstream reply is read completely for the known address types. */
  function AfterReply(d: bytes, tail: bytes): seq<Act> {
    if |d| < 4 then []
    else if d[3] in {1, 3, 4} && (Socks.ReplyLength(d).None? || |d| < Socks.ReplyLength(d).value) then []
    else if d[1] != 0 then [Answer(502)]
    else [Answer(200)] + ([StartRelay] + Payload(tail))
  }

  function Payload(tail: bytes): seq<Act> {
    if tail == [] then [] else [ToUpstream(tail)]
  }

  /** The tunnelled bytes: what is handed to the upstream writer after the tunnel began. */
  function Tunnelled(acts: seq<Act>): bytes {
    if acts == [] then []
    else if acts[0].StartRelay? then Written(acts[1..])
    else Tunnelled(acts[1..])
  }

  function Written(acts: seq<Act>): bytes {
    if acts == [] then [] else
      (if acts[0].ToUpstream? then acts[0].data else []) + Written(acts[1..])
  }

  // ---------------------------------------------------------------- the session as it runs

  /** `Failed` stands for the verdicts `proto_err:` and `exc:` with the name of an exception. */
  datatype Verdict =
    | Unset | BadRequest | MethodUnsupported | BadTarget | NoAuth | BadAuthHeader | NotInGroup | AuthFail
    | Denied | UpstreamDead | UpstreamAuthNeg | UpstreamRep(code: byte) | Failed | Timeout | Okay

  ghost predicate NoAnswer(acts: seq<Act>) {
    forall a :: a in acts ==> !a.Answer?
  }

  /** A verdict in the statistics names a failure that did occur; a session never ends without
      one, and one that is neither Failed nor Timeout has been answered or tunnels. */
  ghost predicate Honest(env: Env, verdict: Verdict, acts: seq<Act>) {
    match verdict
    case Unset => false
    case Failed => StartRelay !in acts
    case Timeout => NoAnswer(acts) && StartRelay !in acts
    case BadRequest => acts == [Answer(400)]
    case BadTarget => acts == [Answer(400)]
    case BadAuthHeader => acts == [Answer(400)]
    case MethodUnsupported => acts == [Answer(405)]
    case NoAuth => acts == [Answer(407)]
    case NotInGroup => exists user :: GroupCheck(user, false) in acts
    case AuthFail => exists user, password :: PamCheck(user, password, false) in acts
    case Denied => exists host :: HostCheck(host, false) in acts
    case UpstreamDead => Dial(false) in acts
    case UpstreamAuthNeg => Dial(true) in acts && Answer(502) in acts
    case UpstreamRep(code) =>
      && code != 0 && Answer(502) in acts
      && env.upstream.Sends? && |env.upstream.data| >= 6 && env.upstream.data[3] == code
    case Okay => StartRelay in acts
  }

  class Handler {
    const env: Env
    const upstream: Socks.Reader
    var trace: seq<Act>
    var verdict: Verdict
    var upBytes: nat         // bytes_up of the statistics record
    var downBytes: nat       // bytes_down of the statistics record
    var received: bytes      // what the relay has handed to the client
    var drains: nat          // how many drains succeed before one raises
    const drainTimesOut: bool   // whether a drain towards the upstream that raises has timed out
    var broken: bool         // a drain has raised
    var timedOut: bool       // a timeout ended the session; it is answered with 504
    var lateHead: bool       // the request head did not arrive in time

    constructor (env: Env, upEnding: Ending, drains: nat, drainTimesOut: bool)
      ensures AtStart() && fresh(upstream) && this.env == env && this.drainTimesOut == drainTimesOut
      ensures upstream.ending == upEnding
    {
      this.env, this.drainTimesOut := env, drainTimesOut;
      upstream := new Socks.Reader(if env.upstream.Sends? then env.upstream.data else [], upEnding);
      trace, verdict, upBytes, downBytes, received := [], Unset, 0, 0, [];
      this.drains, broken, timedOut, lateHead := drains, false, false, false;
      new;
      assert upstream.data[0..] == upstream.data;
    }

    ghost predicate AtStart()
      reads this, upstream
    {
      && upstream.Valid() && UpstreamUntouched()
      && trace == [] && upBytes == 0 && downBytes == 0 && received == []
      && !broken && !timedOut && !lateHead && verdict == Unset
    }

    ghost predicate UpstreamUntouched()
      reads this, upstream
    {
      upstream.Rest() == if env.upstream.Sends? then env.upstream.data else []
    }

    /** The acts so far are the beginning of the script, and all of it unless a drain raised;
        the byte counter agrees with what has been tunnelled. */
    ghost predicate Follows(script: seq<Act>)
      reads this, upstream
    {
      && trace <= script
      && (!broken ==> trace == script)
      && VerdictIsRight()
      && upBytes == |Tunnelled(trace)| && downBytes == 0 && received == []
      && (StartRelay in trace ==> upstream.Rest() == Socks.TunnelInput(env))
    }

    ghost predicate VerdictIsRight()
      reads this
    {
      && (verdict == Okay <==> StartRelay in trace) && Honest(env, verdict, trace)
      && (verdict == Failed ==> broken || NoAnswer(trace))
      && (timedOut <==> verdict == Timeout)
      && (timedOut ==> lateHead || upstream.ending == TimedOut || (broken && drainTimesOut))
    }

    ghost predicate AtStage(script: seq<Act>, stage: seq<Act>)
      reads this, upstream
    {
      && upstream.Valid() && !broken && !timedOut && verdict == Unset
      && upBytes == 0 && downBytes == 0 && received == []
      && StartRelay !in trace && NoAnswer(trace) && trace + stage == script
    }

    method Do(a: Act, ghost stage: seq<Act>, ghost script: seq<Act>)
      requires AtStage(script, [a] + stage) && a != StartRelay && !a.Answer?
      modifies this`trace
      ensures AtStage(script, stage) && trace == old(trace) + [a]
    {
      trace := trace + [a];
      assert trace + stage == old(trace) + ([a] + stage);
    }

    /** A drain towards the upstream: it succeeds, or it raises and the session is over. */
    method DrainUpstream(ghost stage: seq<Act>, ghost script: seq<Act>) returns (ok: bool)
      requires AtStage(script, stage)
      modifies this`drains, this`broken, this`verdict, this`timedOut
      ensures ok ==> AtStage(script, stage)
      ensures !ok ==> Follows(script)
    {
      NothingTunnelled(trace);
      ok := drains > 0;
      if ok {
        drains := drains - 1;
      } else {
        broken, timedOut, verdict := true, drainTimesOut, if drainTimesOut then Timeout else Failed;
      }
    }

    /** A read that fell short, or an exception while the request is put together. */
    method Starve(timeout: bool, ghost script: seq<Act>)
      requires AtStage(script, [])
      requires timeout ==> lateHead || upstream.ending == TimedOut
      modifies this`verdict, this`timedOut
      ensures Follows(script)
    {
      NothingTunnelled(trace);
      verdict, timedOut := if timeout then Timeout else Failed, timeout;
      assert trace + [] == trace;
    }

    /** Answers and stops; errors while answering are swallowed. */
    method Reject(status: nat, why: Verdict, ghost script: seq<Act>)
      requires AtStage(script, [Answer(status)]) && why != Okay && why != Timeout && why != Failed
      requires Honest(env, why, trace + [Answer(status)])
      modifies this`trace, this`verdict
      ensures Follows(script)
    {
      trace := trace + [Answer(status)];
      NothingTunnelled(trace);
      verdict := why;
    }

    /** The whole session: `steps` is the schedule of the relay, which may break off anywhere. */
    method Handle(chunks: seq<bytes>, ending: Ending, steps: seq<Relay.Step>, limits: Relay.Limits)
      returns (head: HeadResult, used: nat)
      requires AtStart() && IsChunked(chunks)
      requires limits.close >= 0.0 && limits.halfClose >= 0.0
      modifies this, upstream
      ensures used <= |chunks|
      ensures head.Head? <==> HeadEnd(Concat(chunks)).Some?
                              && Reach(chunks, HeadEnd(Concat(chunks)).value) <= 16384
      ensures head.Head? ==> |Concat(chunks[..used])| <= |Concat(chunks)|
                             && IsHeadOf(head, Concat(chunks), |Concat(chunks[..used])|)
      ensures Runs(Script(env, head))
      ensures lateHead ==> head == Broken(TimedOut) && ending == TimedOut
      ensures head.Head? ==> Tunnelled(trace) <= Concat(chunks)[HeadEnd(Concat(chunks)).value..]
      ensures upBytes == |Tunnelled(trace)| && downBytes == |received| && received <= Socks.TunnelInput(env)
    {
      head, used := ReadHttpHeaders(chunks, ending, MAX_HEAD_BYTES);
      lateHead := head == Broken(TimedOut);
      HandleHead(head, Concat(chunks[used..]), steps, limits);
    }

    /** The session from the head on; `rest` is what the client sends behind the bytes read. */
    method HandleHead(head: HeadResult, rest: bytes, steps: seq<Relay.Step>, limits: Relay.Limits)
      requires AtStage([], []) && UpstreamUntouched() && trace == []
      requires lateHead <==> head == Broken(TimedOut)
      requires limits.close >= 0.0 && limits.halfClose >= 0.0
      modifies this, upstream
      ensures Runs(Script(env, head)) && lateHead == old(lateHead)
      ensures head.Head? ==> Tunnelled(trace) <= head.tail + rest
      ensures upBytes == |Tunnelled(trace)| && downBytes == |received| && received <= Socks.TunnelInput(env)
    {
      ghost var script := Script(env, head);
      assert [] + script == script;
      if head.Head? {
        var request := ConnectRequest.ParseRequest(head.line, head.headers);
        HandleRequest(request, head.tail, script);
        ScriptTunnels(env, head);
        RelayRest(head.tail, rest, steps, limits, script);
      } else {
        NoTunnelWithoutHead(env, head);
        Starve(lateHead, script);
      }
    }

    /** The tunnel, once it is up: the two tasks of the relay carry the rest of both streams, and
        go on with the session's own byte counters. */
    method RelayRest(tail: bytes, rest: bytes, steps: seq<Relay.Step>, limits: Relay.Limits, ghost script: seq<Act>)
      requires Follows(script)
      requires Tunnelled(script) == if StartRelay in script then tail else []
      requires limits.close >= 0.0 && limits.halfClose >= 0.0
      modifies this`trace, this`upBytes, this`downBytes, this`received
      ensures Runs(script)
      ensures Tunnelled(trace) <= tail + rest
      ensures upBytes == |Tunnelled(trace)| && downBytes == |received| && received <= Socks.TunnelInput(env)
    {
      TunnelledPrefix(trace, script);
      if !broken && verdict == Okay {
        var relay := Relay.Execute(Relay.Begin(rest, upBytes, upstream.Rest(), downBytes), steps, limits);
        Relay.ExecuteForwards(rest, upBytes, upstream.Rest(), downBytes, steps, limits);
        TunnelledAppend(trace, relay.left.pipe.output);
        trace := trace + [ToUpstream(relay.left.pipe.output)];
        upBytes, downBytes := relay.left.pipe.counter, relay.right.pipe.counter;
        received := relay.right.pipe.output;
        assert tail + relay.left.pipe.output <= tail + rest;
      } else {
        assert Tunnelled(trace) <= tail + rest;
      }
    }

    /** Every way a session can end: on the script, or past it by what the relay forwarded. */
    ghost predicate Runs(script: seq<Act>)
      reads this
    {
      && (trace <= script || (StartRelay in script && exists data :: trace == script + [ToUpstream(data)]))
      && (!broken ==> script <= trace)
      && VerdictIsRight()
    }

    method HandleRequest(request: ConnectRequest.Parsed, tail: bytes, ghost script: seq<Act>)
      requires AtStage(script, match request
                               case BadRequest => [Answer(400)]
                               case NotConnect => [Answer(405)]
                               case BadTarget(_) => [Answer(400)]
                               case NoAuth(_, _) => [Answer(407)]
                               case BadAuth(_, _) => [Answer(400)]
                               case Connect(user, password, host, port) =>
                                 CheckUser(env, user, password, host, port, tail))
      requires UpstreamUntouched() && trace == []
      modifies this, upstream
      ensures Follows(script) && lateHead == old(lateHead)
    {
      match request {
        case BadRequest => Reject(400, BadRequest, script);
        case NotConnect => Reject(405, MethodUnsupported, script);
        case BadTarget(_) => Reject(400, BadTarget, script);
        case NoAuth(_, _) => Reject(407, NoAuth, script);
        case BadAuth(_, _) => Reject(400, BadAuthHeader, script);
        case Connect(user, password, host, port) => HandleUser(user, password, host, port, tail, script);
      }
    }

    method HandleUser(user: bytes, password: bytes, host: bytes, port: int, tail: bytes, ghost script: seq<Act>)
      requires AtStage(script, CheckUser(env, user, password, host, port, tail)) && UpstreamUntouched()
      modifies this, upstream
      ensures Follows(script) && lateHead == old(lateHead)
    {
      var member := env.inGroup(user);
      Do(GroupCheck(user, member), AfterGroup(env, user, password, host, port, tail), script);
      if !member {
        assert GroupCheck(user, false) in trace + [Answer(407)];
        Reject(407, NotInGroup, script);
        return;
      }
      var verified := env.pam(user, password);
      Do(PamCheck(user, password, verified), AfterPam(env, user, password, host, port, tail), script);
      if !verified {
        assert PamCheck(user, password, false) in trace + [Answer(407)];
        Reject(407, AuthFail, script);
        return;
      }
      HandleOpen(host, port, tail, script);
    }

    method HandleOpen(host: bytes, port: int, tail: bytes, ghost script: seq<Act>)
      requires AtStage(script, Open(env, host, port, tail)) && UpstreamUntouched()
      modifies this, upstream
      ensures Follows(script) && lateHead == old(lateHead)
    {
      if !env.allowed(Text(host)) {
        Do(HostCheck(Text(host), false), [Answer(403)], script);
        assert HostCheck(Text(host), false) in trace + [Answer(403)];
        Reject(403, Denied, script);
        return;
      }
      Do(HostCheck(Text(host), true), AfterHost(env, host, port, tail), script);
      if env.upstream.Unreachable? {
        Do(Dial(false), [Answer(502)], script);
        Reject(502, UpstreamDead, script);
        return;
      }
      ghost var stage := Negotiate(host, port, tail, upstream.Rest());
      Do(Dial(true), [ToUpstream(UPSTREAM_GREETING)] + stage, script);
      Do(ToUpstream(UPSTREAM_GREETING), stage, script);
      var ok := DrainUpstream(stage, script);
      if ok {
        HandleNegotiation(host, port, tail, script);
      }
    }

    method HandleNegotiation(host: bytes, port: int, tail: bytes, ghost script: seq<Act>)
      requires AtStage(script, Negotiate(host, port, tail, upstream.Rest())) && Dial(true) in trace
      requires env.upstream.Sends? && upstream.Rest() == env.upstream.data
      modifies this, upstream
      ensures Follows(script) && lateHead == old(lateHead)
    {
      var accepted := upstream.ReadExactly(2);
      if accepted.None? {
        Starve(upstream.ending == TimedOut, script);
        return;
      }
      if accepted.value != UPSTREAM_ACCEPTS {
        Reject(502, UpstreamAuthNeg, script);
        return;
      }
      if !Sendable(host, port) {
        Starve(false, script);
        return;
      }
      ghost var stage := AfterReply(upstream.Rest(), tail);
      Do(ToUpstream(DomainRequest(host, port)), stage, script);
      var ok := DrainUpstream(stage, script);
      if ok {
        HandleReply(tail, script);
      }
    }

    method HandleReply(tail: bytes, ghost script: seq<Act>)
      requires AtStage(script, AfterReply(upstream.Rest(), tail)) && Dial(true) in trace
      requires env.upstream.Sends? && |env.upstream.data| >= 2 && upstream.Rest() == env.upstream.data[2..]
      modifies this, upstream
      ensures Follows(script) && lateHead == old(lateHead)
    {
      var complete, code := ReadReply();
      if !complete {
        Starve(upstream.ending == TimedOut, script);
        return;
      }
      if code != 0 {
        Reject(502, UpstreamRep(code), script);
        return;
      }
      BeginTunnel(tail, script);
    }

    /** Reads the upstream reply; the bound address is skipped. */
    method ReadReply() returns (complete: bool, code: byte)
      requires upstream.Valid()
      modifies upstream
      ensures upstream.Valid()
      ensures var d := old(upstream.Rest());
              && (complete <==> |d| >= 4 && (d[3] in {1, 3, 4} ==>
                    Socks.ReplyLength(d).Some? && Socks.ReplyLength(d).value <= |d|))
              && (complete ==> code == d[1] && upstream.Rest() == Socks.BehindReply(d))
    {
      complete, code := false, 0;
      var rep := upstream.ReadExactly(4);
      if rep.None? {
        return;
      }
      code := rep.value[1];
      var more := Some([]);
      if rep.value[3] == 1 {
        more := upstream.ReadExactly(6);
      } else if rep.value[3] == 3 {
        more := upstream.ReadExactly(1);
        if more.Some? {
          more := upstream.ReadExactly(more.value[0] as nat + 2);
        }
      } else if rep.value[3] == 4 {
        more := upstream.ReadExactly(18);
      }
      complete := more.Some?;
    }

    /** The client is told that the tunnel is up, and the payload that came with the head goes
        first. */
    method BeginTunnel(tail: bytes, ghost script: seq<Act>)
      requires AtStage(script, [Answer(200)] + ([StartRelay] + Payload(tail)))
      requires upstream.Rest() == Socks.TunnelInput(env)
      modifies this
      ensures Follows(script) && lateHead == old(lateHead)
    {
      trace := trace + [Answer(200)];
      NothingTunnelled(trace);
      ghost var before := trace;
      assert before + ([StartRelay] + Payload(tail)) == script;
      if drains == 0 {
        broken, verdict := true, Failed;
        return;
      }
      drains := drains - 1;
      verdict := Okay;
      trace := trace + [StartRelay];
      TunnelledAfter(before, Payload(tail));
      if tail != [] {
        upBytes := upBytes + |tail|;
        trace := trace + [ToUpstream(tail)];
        assert trace == before + ([StartRelay] + Payload(tail));
        if drains > 0 {
          drains := drains - 1;
        } else {
          broken := true;
        }
      } else {
        assert trace == before + ([StartRelay] + Payload(tail));
      }
    }
  }

  lemma {:induction false} NothingTunnelled(acts: seq<Act>)
    requires StartRelay !in acts
    ensures Tunnelled(acts) == []
  {
    if acts != [] {
      assert acts[0] in acts;
      NothingTunnelled(acts[1..]);
    }
  }

  lemma {:induction false} TunnelledAfter(before: seq<Act>, payload: seq<Act>)
    requires StartRelay !in before
    ensures Tunnelled(before + ([StartRelay] + payload)) == Written(payload)
  {
    if before == [] {
      assert before + ([StartRelay] + payload) == [StartRelay] + payload;
      assert ([StartRelay] + payload)[1..] == payload;
    } else {
      assert before[0] in before;
      TunnelledAfter(before[1..], payload);
      assert (before + ([StartRelay] + payload))[1..] == before[1..] + ([StartRelay] + payload);
    }
  }

  lemma {:induction false} WrittenAppend(acts: seq<Act>, more: seq<Act>)
    ensures Written(acts + more) == Written(acts) + Written(more)
  {
    if acts == [] {
      assert acts + more == more;
    } else {
      WrittenAppend(acts[1..], more);
      assert (acts + more)[1..] == acts[1..] + more;
    }
  }

  lemma {:induction false} TunnelledAppend(acts: seq<Act>, data: bytes)
    requires StartRelay in acts
    ensures Tunnelled(acts + [ToUpstream(data)]) == Tunnelled(acts) + data
  {
    assert (acts + [ToUpstream(data)])[1..] == acts[1..] + [ToUpstream(data)];
    if acts[0].StartRelay? {
      WrittenAppend(acts[1..], [ToUpstream(data)]);
      assert Written([ToUpstream(data)]) == data;
    } else {
      TunnelledAppend(acts[1..], data);
    }
  }

  lemma {:induction false} TunnelledPrefix(acts: seq<Act>, all: seq<Act>)
    requires acts <= all
    ensures Tunnelled(acts) <= Tunnelled(all)
  {
    if acts != [] {
      var more := all[|acts|..];
      assert all == acts + more && all[1..] == acts[1..] + more;
      if acts[0].StartRelay? {
        WrittenAppend(acts[1..], more);
      } else {
        TunnelledPrefix(acts[1..], all[1..]);
      }
    }
  }

  lemma NoTunnelWithoutHead(env: Env, head: HeadResult)
    requires !head.Head?
    ensures Script(env, head) == []
  {
  }

  /** If the acts start a tunnel, they end with its start and the early payload. */
  ghost predicate EndsInTunnel(acts: seq<Act>, tail: bytes) {
    StartRelay in acts ==>
      exists before :: StartRelay !in before && acts == before + ([StartRelay] + Payload(tail))
  }

  lemma TunnelCons(a: Act, acts: seq<Act>, tail: bytes)
    requires a != StartRelay && EndsInTunnel(acts, tail)
    ensures EndsInTunnel([a] + acts, tail)
  {
    if StartRelay in acts {
      var before :| StartRelay !in before && acts == before + ([StartRelay] + Payload(tail));
      assert [a] + acts == ([a] + before) + ([StartRelay] + Payload(tail));
    }
  }

  lemma ReplyTunnels(d: bytes, tail: bytes)
    ensures EndsInTunnel(AfterReply(d, tail), tail)
  {
    var tunnel := [StartRelay] + Payload(tail);
    assert tunnel == [] + tunnel;
    assert EndsInTunnel(tunnel, tail);
    TunnelCons(Answer(200), tunnel, tail);
  }

  lemma NegotiateTunnels(host: bytes, port: int, tail: bytes, d: bytes)
    ensures EndsInTunnel(Negotiate(host, port, tail, d), tail)
  {
    if |d| >= 2 && Sendable(host, port) {
      ReplyTunnels(d[2..], tail);
      TunnelCons(ToUpstream(DomainRequest(host, port)), AfterReply(d[2..], tail), tail);
    }
  }

  lemma OpenTunnels(env: Env, host: bytes, port: int, tail: bytes)
    ensures EndsInTunnel(Open(env, host, port, tail), tail)
  {
    if env.upstream.Sends? {
      var rest := Negotiate(host, port, tail, env.upstream.data);
      NegotiateTunnels(host, port, tail, env.upstream.data);
      TunnelCons(ToUpstream(UPSTREAM_GREETING), rest, tail);
      TunnelCons(Dial(true), [ToUpstream(UPSTREAM_GREETING)] + rest, tail);
    }
    assert EndsInTunnel(AfterHost(env, host, port, tail), tail);
    TunnelCons(HostCheck(Text(host), true), AfterHost(env, host, port, tail), tail);
  }

  lemma CheckUserTunnels(env: Env, user: bytes, password: bytes, host: bytes, port: int, tail: bytes)
    ensures EndsInTunnel(CheckUser(env, user, password, host, port, tail), tail)
  {
    OpenTunnels(env, host, port, tail);
    var afterPam := AfterPam(env, user, password, host, port, tail);
    TunnelCons(PamCheck(user, password, env.pam(user, password)), afterPam, tail);
    var afterGroup := AfterGroup(env, user, password, host, port, tail);
    assert EndsInTunnel(afterGroup, tail);
    TunnelCons(GroupCheck(user, env.inGroup(user)), afterGroup, tail);
  }

  /** The script itself tunnels the payload that came with the head, or nothing. */
  lemma ScriptTunnels(env: Env, head: HeadResult)
    requires head.Head?
    ensures Tunnelled(Script(env, head)) == if StartRelay in Script(env, head) then head.tail else []
  {
    var script := Script(env, head);
    var request := ConnectRequest.Parse(head.line, head.headers);
    if request.Connect? {
      CheckUserTunnels(env, request.user, request.password, request.host, request.port, head.tail);
    }
    assert EndsInTunnel(script, head.tail);
    if StartRelay in script {
      var before :| StartRelay !in before && script == before + ([StartRelay] + Payload(head.tail));
      TunnelledAfter(before, Payload(head.tail));
      PayloadWritten(head.tail);
    } else {
      NothingTunnelled(script);
    }
  }

  lemma PayloadWritten(tail: bytes)
    ensures Written(Payload(tail)) == tail
  {
    assert Payload(tail) != [] ==> Payload(tail)[1..] == [];
  }
}
