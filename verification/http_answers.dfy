/** What an HTTP client is told: the status of every refusal, and when a tunnel starts.
 */
module HttpAnswers {
  import opened Options
  import opened Bytes
  import opened Session
  import opened HttpHead
  import opened HttpSession
  import ConnectRequest
  import Socks

  // ---------------------------------------------------------------- before anyone is asked

  /** A request that is no complete CONNECT is answered at once: nobody is asked and nothing is
      dialled, whatever the method. */
  lemma MalformedIsAnswered(env: Env, head: HeadResult)
    requires head.Head?
    ensures match ConnectRequest.Parse(head.line, head.headers)
            case BadRequest => Script(env, head) == [Answer(400)]
            case NotConnect => Script(env, head) == [Answer(405)]
            case BadTarget(_) => Script(env, head) == [Answer(400)]
            case NoAuth(_, _) => Script(env, head) == [Answer(407)]
            case BadAuth(_, _) => Script(env, head) == [Answer(400)]
            case Connect(_, _, _, _) => true
  {
  }

  /** Any other method than CONNECT is refused with 405 and never dialled. */
  lemma OtherMethodIsRefused(env: Env, head: HeadResult)
    requires head.Head?
    requires var words := SplitOn(head.line, 32);
             |words| >= 3 && Lower(words[0]) != Ascii("connect")
    ensures Script(env, head) == [Answer(405)]
  {
    ConnectRequest.WhichRequestsFail(head.line, head.headers);
  }

  // ---------------------------------------------------------------- refusals by the policy

  ghost predicate Asks(head: HeadResult, user: bytes, password: bytes, host: bytes, port: int) {
    head.Head? && ConnectRequest.Parse(head.line, head.headers) == ConnectRequest.Connect(user, password, host, port)
  }

  lemma StrangerIsRefused(env: Env, head: HeadResult, user: bytes, password: bytes, host: bytes, port: int)
    requires Asks(head, user, password, host, port) && !env.inGroup(user)
    ensures Script(env, head) == [GroupCheck(user, false), Answer(407)]
  {
  }

  lemma WrongPasswordIsRefused(env: Env, head: HeadResult, user: bytes, password: bytes, host: bytes, port: int)
    requires Asks(head, user, password, host, port) && env.inGroup(user) && !env.pam(user, password)
    ensures Script(env, head) == [GroupCheck(user, true), PamCheck(user, password, false), Answer(407)]
  {
  }

  /** What precedes the destination of a member with an accepted password. */
  function LoggedIn(user: bytes, password: bytes): seq<Act> {
    [GroupCheck(user, true), PamCheck(user, password, true)]
  }

  lemma LoginThen(env: Env, head: HeadResult, user: bytes, password: bytes, host: bytes, port: int)
    requires Asks(head, user, password, host, port) && env.inGroup(user) && env.pam(user, password)
    ensures Script(env, head) == LoggedIn(user, password) + Open(env, host, port, head.tail)
  {
    Two(GroupCheck(user, true), PamCheck(user, password, true), Open(env, host, port, head.tail));
  }

  lemma DeniedHostIsRefused(env: Env, head: HeadResult, user: bytes, password: bytes, host: bytes, port: int)
    requires Asks(head, user, password, host, port) && env.inGroup(user) && env.pam(user, password)
    requires !env.allowed(Text(host))
    ensures Script(env, head) == LoggedIn(user, password) + [HostCheck(Text(host), false), Answer(403)]
  {
    LoginThen(env, head, user, password, host, port);
  }

  lemma UnreachableIsReported(env: Env, head: HeadResult, user: bytes, password: bytes, host: bytes, port: int)
    requires Asks(head, user, password, host, port) && env.inGroup(user) && env.pam(user, password)
    requires env.allowed(Text(host)) && env.upstream.Unreachable?
    ensures Script(env, head) == LoggedIn(user, password) + [HostCheck(Text(host), true), Dial(false), Answer(502)]
  {
    LoginThen(env, head, user, password, host, port);
  }

  lemma UnwillingIsReported(env: Env, head: HeadResult, user: bytes, password: bytes, host: bytes, port: int)
    requires Asks(head, user, password, host, port) && env.inGroup(user) && env.pam(user, password)
    requires env.allowed(Text(host))
    requires env.upstream.Sends? && |env.upstream.data| >= 2 && env.upstream.data[..2] != [5, 0]
    ensures Script(env, head) ==
            LoggedIn(user, password) + [HostCheck(Text(host), true), Dial(true), ToUpstream([5, 1, 0]), Answer(502)]
  {
    LoginThen(env, head, user, password, host, port);
  }

  // ---------------------------------------------------------------- the tunnel

  /** An ASCII host of at most 255 bytes and a port of 16 bits. */
  ghost predicate FitsSocks(host: bytes, port: int) {
    |host| <= 255 && 0 <= port <= 65535 && forall i :: 0 <= i < |host| ==> host[i] <= 127
  }

  /** The upstream is asked for the host by name, with the port's high byte first. */
  lemma RequestIsSent(env: Env, head: HeadResult, user: bytes, password: bytes, host: bytes, port: int)
    requires Asks(head, user, password, host, port) && env.inGroup(user) && env.pam(user, password)
    requires env.allowed(Text(host)) && FitsSocks(host, port)
    requires env.upstream.Sends? && |env.upstream.data| >= 2 && env.upstream.data[..2] == [5, 0]
    ensures Script(env, head) ==
            LoggedIn(user, password)
            + ([HostCheck(Text(host), true), Dial(true), ToUpstream([5, 1, 0]),
                ToUpstream([5, 1, 0, 3, |host|] + host + [port / 256, port % 256])]
               + AfterReply(env.upstream.data[2..], head.tail))
  {
    LoginThen(env, head, user, password, host, port);
    Four(HostCheck(Text(host), true), Dial(true), ToUpstream([5, 1, 0]),
         ToUpstream([5, 1, 0, 3, |host|] + host + [port / 256, port % 256]),
         AfterReply(env.upstream.data[2..], head.tail));
  }

  /** How many bytes a reply has by the address type in its fourth byte; any other type than
      the three known ones is taken to end there. */
  ghost predicate IsCompleteReply(d: bytes) {
    && |d| >= 4
    && (d[3] == 1 ==> |d| >= 10)
    && (d[3] == 3 ==> |d| >= 5 && |d| >= 7 + d[4] as nat)
    && (d[3] == 4 ==> |d| >= 22)
  }

  /** A complete reply with code 0 opens the tunnel: 200, then the early payload. Any other code
      is answered with 502, and a reply that is cut short with nothing. */
  lemma ReplyDecides(d: bytes, tail: bytes)
    ensures AfterReply(d, tail) ==
            if !IsCompleteReply(d) then []
            else if d[1] != 0 then [Answer(502)]
            else [Answer(200), StartRelay] + if tail == [] then [] else [ToUpstream(tail)]
  {
    Two(Answer(200), StartRelay, Payload(tail));
  }

  ghost predicate MayTunnel(env: Env, user: bytes, password: bytes, host: bytes, port: int) {
    && env.inGroup(user) && env.pam(user, password) && env.allowed(Text(host)) && FitsSocks(host, port)
    && env.upstream.Sends? && |env.upstream.data| >= 6 && env.upstream.data[..2] == [5, 0]
    && IsCompleteReply(env.upstream.data[2..]) && env.upstream.data[3] == 0
  }

  lemma OpenTunnelIff(env: Env, host: bytes, port: int, tail: bytes)
    ensures StartRelay in Open(env, host, port, tail) <==> Answer(200) in Open(env, host, port, tail)
    ensures StartRelay in Open(env, host, port, tail) <==>
            && env.allowed(Text(host)) && FitsSocks(host, port)
            && env.upstream.Sends? && |env.upstream.data| >= 6 && env.upstream.data[..2] == [5, 0]
            && IsCompleteReply(env.upstream.data[2..]) && env.upstream.data[3] == 0
  {
    if env.upstream.Sends? && |env.upstream.data| >= 2 {
      var d := env.upstream.data[2..];
      ReplyDecides(d, tail);
      assert StartRelay in AfterReply(d, tail) <==> IsCompleteReply(d) && d[1] == 0 by {
        if IsCompleteReply(d) && d[1] == 0 {
          assert AfterReply(d, tail)[1] == StartRelay;
        }
      }
      assert Answer(200) in AfterReply(d, tail) <==> IsCompleteReply(d) && d[1] == 0 by {
        if IsCompleteReply(d) && d[1] == 0 {
          assert AfterReply(d, tail)[0] == Answer(200);
        }
      }
    }
  }

  /** A tunnel starts, and 200 is answered, exactly for a CONNECT that the policy permits, whose
      target fits into a SOCKS request and which the upstream grants. */
  lemma TunnelIff(env: Env, head: HeadResult, user: bytes, password: bytes, host: bytes, port: int)
    requires Asks(head, user, password, host, port)
    ensures StartRelay in Script(env, head) <==> MayTunnel(env, user, password, host, port)
    ensures Answer(200) in Script(env, head) <==> MayTunnel(env, user, password, host, port)
  {
    OpenTunnelIff(env, host, port, head.tail);
    if !env.inGroup(user) {
      StrangerIsRefused(env, head, user, password, host, port);
    } else if !env.pam(user, password) {
      WrongPasswordIsRefused(env, head, user, password, host, port);
    } else {
      LoginThen(env, head, user, password, host, port);
    }
  }
}
