/** What holds over every run of the authentication daemon: any interleaving of requests at
    the PAM await, file updates cut short anywhere, and restarts of the process.
 */
module AuthdRuns {
  import opened Options
  import opened Authd
  import AuthCache
  import Tokens

  function Run(s0: State, h: seq<Event>): State {
    if h == [] then s0 else Step(Run(s0, h[..|h| - 1]), h[|h| - 1]).0
  }

  function At(s0: State, h: seq<Event>, i: nat): State
    requires i <= |h|
  {
    Run(s0, h[..i])
  }

  function ReplyTo(s0: State, h: seq<Event>, i: nat): Option<Reply>
    requires i < |h|
  {
    Step(At(s0, h, i), h[i]).1
  }

  /** A process that has just started, with whatever is on the disk. */
  ghost predicate JustStarted(s: State) {
    s.cache == [] && s.waiting == map[] && Tokens.WellKept(s.disk.tokens)
  }

  /** The latest reading of the monotonic clock, and the rule that it never goes back. */
  function Mono(h: seq<Event>): real {
    if h == [] then 0.0 else
      match h[|h| - 1]
      case Arrive(_, _, mono, _, _) => mono
      case PamReplies(_, _, _, _, storeAt, _, _, _) => storeAt
      case Restart => Mono(h[..|h| - 1])
      case Script(_) => Mono(h[..|h| - 1])
  }

  ghost predicate WellTimed(h: seq<Event>) {
    h == [] ||
    var before := h[..|h| - 1];
    WellTimed(before) &&
    match h[|h| - 1]
    case Arrive(_, _, mono, _, _) => Mono(before) <= mono
    case PamReplies(_, _, _, purgeAt, storeAt, _, _, _) => Mono(before) <= purgeAt <= storeAt
    case Restart => true
    case Script(_) => true
  }

  lemma {:induction false} PrefixWellTimed(h: seq<Event>, i: nat)
    requires WellTimed(h) && i <= |h|
    ensures WellTimed(h[..i])
  {
    if i < |h| {
      var before := h[..|h| - 1];
      PrefixWellTimed(before, i);
      assert before[..i] == h[..i];
    } else {
      assert h[..i] == h;
    }
  }

  // ---------------------------------------------------------------- kinds of events

  ghost predicate Asks(s: State, e: Event) {
    e.Arrive? && e.request.op == "authenticate" && e.request.user == s.me && e.request.peer != Stranger
  }

  ghost predicate Revokes(s: State, e: Event) {
    e.Arrive? && e.request.op == "revoke-token" && e.request.user == s.me && e.request.peer == Self
  }

  /** A PAM success for a request that is waiting. */
  ghost predicate PamAccepts(s: State, e: Event) {
    e.PamReplies? && e.ok && e.id in s.waiting
  }

  /** An issue-token request that passed PAM and finds a readable token file. */
  ghost predicate Issues(s: State, e: Event) {
    PamAccepts(s, e) && s.waiting[e.id].IssueWait? && Tokens.Superseded(s.disk.tokens).Some?
  }

  ghost predicate SetsMarker(s: State, e: Event) {
    e == Script(LeaveMarks) || (Revokes(s, e) && Done(e.stop, 8) >= MARKER_SET)
  }

  ghost predicate ClearsMarker(s: State, e: Event) {
    || (e.Script? && e.act.JoinEnds? && e.act.id in s.joins)
    || (Issues(s, e) && Done(e.stop, 8) == MARKER_GONE)
  }

  ghost predicate DropsTokens(s: State, e: Event) {
    e == Script(LeaveDropsTokens) || (Revokes(s, e) && Done(e.stop, 8) == TOKENS_GONE)
  }

  ghost predicate StoresToken(s: State, e: Event) {
    Issues(s, e) && Done(e.stop, 8) >= RECORD_SET
  }

  ghost predicate EndsProcess(s: State, e: Event) {
    || e.Restart?
    || (Revokes(s, e) && Killed(e.stop, 8))
    || (PamAccepts(s, e) && s.waiting[e.id].IssueWait? && Killed(e.stop, if Issues(s, e) then 8 else 2))
  }

  ghost predicate ClearsCache(s: State, e: Event) {
    EndsProcess(s, e) || (Revokes(s, e) && Done(e.stop, 8) == 8)
  }

  // ---------------------------------------------------------------- file updates, one by one

  lemma RevokeStages(d: Disk, k: nat)
    requires k <= 8
    ensures var d' := Perform(d, RevokePlan(), k);
            && (d'.disabled <==> d.disabled || k >= MARKER_SET)
            && d'.tokens == (if k == TOKENS_GONE then Tokens.Missing else d.tokens)
            && (d.temp == NoTemp ==> (d'.temp != NoTemp <==> 3 <= k <= 6))
  {
  }

  lemma IssueStages(d: Disk, record: Tokens.TokenFile, k: nat)
    requires k <= 8
    ensures var d' := Perform(d, IssuePlan(record), k);
            && (d'.disabled <==> d.disabled && k < MARKER_GONE)
            && d'.tokens == (if k >= RECORD_SET then record else d.tokens)
            && (d.temp == NoTemp ==> (d'.temp != NoTemp <==> 3 <= k <= 6))
  {
  }

  lemma PrepareStages(d: Disk, k: nat)
    requires k <= 2
    ensures var d' := Perform(d, [MakeDir, ChmodDir], k);
            d'.disabled == d.disabled && d'.tokens == d.tokens
  {
  }

  /** Crash atomicity of a revocation: wherever it stops, either nothing that counts has
      changed or every authentication is refused. */
  lemma RevokeIsAtomic(s: State, stop: Stop, id: nat, credential: string, mono: real, wall: real)
    ensures var s' := Revoke(s, stop).0;
            || (s'.disk.disabled == s.disk.disabled && s'.disk.tokens == s.disk.tokens)
            || Authenticate(s', id, credential, mono, wall) == (s', Answer(false, -8, LeftProxy))
  {
    RevokeStages(s.disk, Done(stop, 8));
  }

  /** A temporary file stays behind exactly if the process dies between its creation and its
      rename: an exception removes it. */
  lemma TempIsLeftIff(d: Disk, plan: seq<FileOp>, stop: Stop)
    requires d.temp == NoTemp && (plan == RevokePlan() || exists record :: plan == IssuePlan(record))
    ensures Stopped(d, plan, stop).temp != NoTemp <==> stop.Kill? && 3 <= stop.after <= 6
  {
    if plan == RevokePlan() {
      RevokeStages(d, Done(stop, 8));
    } else {
      var record :| plan == IssuePlan(record);
      IssueStages(d, record, Done(stop, 8));
    }
  }

  /** Crash atomicity of an issue: the record is wholly the old or wholly the new one, and a
      user who had left stays out unless the new record is already in place. */
  lemma IssueIsAtomic(s: State, code: int, token: string, wall: real, stop: Stop)
    ensures var d' := Issue(s, code, token, wall, stop).0.disk;
            match Tokens.Superseded(s.disk.tokens)
            case None => d'.tokens == s.disk.tokens && d'.disabled == s.disk.disabled
            case Some(previous) =>
              var record := Tokens.NewRecord(token, previous, wall);
              && (d'.tokens == s.disk.tokens || d'.tokens == record)
              && (s.disk.disabled && !d'.disabled ==> d'.tokens == record)
              && (d'.disabled ==> s.disk.disabled)
  {
    match Tokens.Superseded(s.disk.tokens)
    case None => PrepareStages(s.disk, Done(stop, 2));
    case Some(previous) => IssueStages(s.disk, Tokens.NewRecord(token, previous, wall), Done(stop, 8));
  }

  /** The effect of one event on the two files that decide. */
  lemma StepOnDisk(s: State, e: Event)
    ensures var d' := Step(s, e).0.disk;
            && (d'.disabled <==> SetsMarker(s, e) || (s.disk.disabled && !ClearsMarker(s, e)))
            && d'.tokens ==
                 if DropsTokens(s, e) then Tokens.Missing
                 else if StoresToken(s, e) then
                   Tokens.NewRecord(e.token, Tokens.Superseded(s.disk.tokens).value, e.wall)
                 else s.disk.tokens
  {
    if Revokes(s, e) {
      RevokeStages(s.disk, Done(e.stop, 8));
    } else if PamAccepts(s, e) && s.waiting[e.id].IssueWait? {
      match Tokens.Superseded(s.disk.tokens)
      case None => PrepareStages(s.disk, Done(e.stop, 2));
      case Some(previous) =>
        IssueStages(s.disk, Tokens.NewRecord(e.token, previous, e.wall), Done(e.stop, 8));
    }
  }

  // ---------------------------------------------------------------- the leave marker over runs

  /** The user left at event `j` and no later event before `i` completed an issue. */
  ghost predicate LeftSince(s0: State, h: seq<Event>, j: nat, i: nat) {
    && j < i <= |h|
    && SetsMarker(At(s0, h, j), h[j])
    && forall m :: j < m < i ==> !ClearsMarker(At(s0, h, m), h[m])
  }

  lemma {:induction false} LeaveLasts(s0: State, h: seq<Event>, j: nat, i: nat)
    requires LeftSince(s0, h, j, i)
    ensures At(s0, h, i).disk.disabled
    decreases i
  {
    assert h[..i][..i - 1] == h[..i - 1] && h[..i][i - 1] == h[i - 1];
    StepOnDisk(At(s0, h, i - 1), h[i - 1]);
    if j < i - 1 {
      LeaveLasts(s0, h, j, i - 1);
    }
  }

  /** A request whose check runs after a revocation and before the next completed issue is
      refused at once; it never reaches PAM, so no later event can accept it. */
  lemma RefusedAfterLeave(s0: State, h: seq<Event>, j: nat, i: nat)
    requires i < |h| && LeftSince(s0, h, j, i) && Asks(At(s0, h, i), h[i])
    ensures ReplyTo(s0, h, i) == Answer(false, -8, LeftProxy)
    ensures At(s0, h, i + 1) == At(s0, h, i)
  {
    LeaveLasts(s0, h, j, i);
    assert h[..i + 1][..i] == h[..i];
  }

  // ---------------------------------------------------------------- the cache over runs

  /** What one event does to the success cache, in the cache's own terms. */
  ghost function CacheEvents(s: State, e: Event): seq<AuthCache.Event> {
    match e
    case Restart => [AuthCache.Clear]
    case Script(_) => []
    case Arrive(_, r, mono, _, _) =>
      if ClearsCache(s, e) then [AuthCache.Clear]
      else if Asks(s, e) && !s.disk.disabled && !Tokens.LooksLikeToken(r.credential)
      then [AuthCache.Get(KeyOf(s, r.credential), mono)]
      else []
    case PamReplies(id, _, _, purgeAt, storeAt, _, _, _) =>
      if PamAccepts(s, e)
      then [AuthCache.Put(KeyOf(s, s.waiting[id].credential), purgeAt, storeAt)]
           + if EndsProcess(s, e) then [AuthCache.Clear] else []
      else []
  }

  ghost function CacheHistory(s0: State, h: seq<Event>): seq<AuthCache.Event> {
    if h == [] then [] else
      CacheHistory(s0, h[..|h| - 1]) + CacheEvents(Run(s0, h[..|h| - 1]), h[|h| - 1])
  }

  lemma CacheRunSnoc(c: seq<AuthCache.Event>, e: AuthCache.Event)
    ensures AuthCache.Run(c + [e]) == AuthCache.Step(AuthCache.Run(c), e)
    ensures AuthCache.Now(c + [e]) == match e
                                      case Put(_, _, storeAt) => storeAt
                                      case Get(_, at) => at
                                      case Clear => AuthCache.Now(c)
  {
    assert (c + [e])[..|c|] == c;
  }

  /** The effect on the cache, read off the state machine; two events mean put, then clear. */
  lemma EffectOnCache(s: State, e: Event)
    ensures var es := CacheEvents(s, e); var cache' := Step(s, e).0.cache;
            && |es| <= 2
            && (es == [] ==> cache' == s.cache)
            && (|es| == 1 ==> cache' == AuthCache.Step(s.cache, es[0]))
            && (|es| == 2 ==> cache' == [] && es[1] == AuthCache.Clear)
  {
    match e
    case Restart =>
    case Script(_) =>
    case Arrive(_, _, _, _, _) => ArrivalOnCache(s, e);
    case PamReplies(_, _, _, _, _, _, _, _) => PamOnCache(s, e);
  }

  lemma ArrivalOnCache(s: State, e: Event)
    requires e.Arrive?
    ensures var es := CacheEvents(s, e); var cache' := Step(s, e).0.cache;
            && |es| <= 1
            && (es == [] ==> cache' == s.cache)
            && (|es| == 1 ==> cache' == AuthCache.Step(s.cache, es[0]))
  {
    if Revokes(s, e) {
      assert CacheEvents(s, e) == if ClearsCache(s, e) then [AuthCache.Clear] else [];
    }
  }

  lemma PamOnCache(s: State, e: Event)
    requires e.PamReplies?
    ensures var es := CacheEvents(s, e); var cache' := Step(s, e).0.cache;
            && |es| <= 2
            && (es == [] ==> cache' == s.cache)
            && (|es| == 1 ==> cache' == AuthCache.Step(s.cache, es[0]))
            && (|es| == 2 ==> cache' == [] && es[1] == AuthCache.Clear)
  {
    if PamAccepts(s, e) && s.waiting[e.id].IssueWait? {
      if Issues(s, e) {
        assert EndsProcess(s, e) <==> Killed(e.stop, 8);
      } else {
        assert EndsProcess(s, e) <==> Killed(e.stop, 2);
      }
    }
  }

  lemma {:induction false} EventsRun(c: seq<AuthCache.Event>, es: seq<AuthCache.Event>, cache': AuthCache.Cache)
    requires |es| <= 2
    requires es == [] ==> cache' == AuthCache.Run(c)
    requires |es| == 1 ==> cache' == AuthCache.Step(AuthCache.Run(c), es[0])
    requires |es| == 2 ==> cache' == [] && es[1] == AuthCache.Clear
    ensures cache' == AuthCache.Run(c + es)
  {
    if es == [] {
      assert c + es == c;
    } else if |es| == 1 {
      assert es == [es[0]];
      CacheRunSnoc(c, es[0]);
    } else {
      assert c + es == (c + [es[0]]) + [es[1]];
      CacheRunSnoc(c + [es[0]], es[1]);
    }
  }

  lemma {:induction false} StepOnCache(s: State, e: Event, c: seq<AuthCache.Event>)
    requires s.cache == AuthCache.Run(c)
    ensures Step(s, e).0.cache == AuthCache.Run(c + CacheEvents(s, e))
  {
    EffectOnCache(s, e);
    EventsRun(c, CacheEvents(s, e), Step(s, e).0.cache);
  }

  lemma {:induction false} CacheTimesSnoc(c: seq<AuthCache.Event>, e: AuthCache.Event, before: real, after: real)
    requires AuthCache.WellTimed(c) && AuthCache.Now(c) <= before <= after
    requires match e
             case Put(_, purgeAt, storeAt) => before <= purgeAt <= storeAt <= after
             case Get(_, at) => before <= at <= after
             case Clear => true
    ensures AuthCache.WellTimed(c + [e]) && AuthCache.Now(c + [e]) <= after
  {
    assert (c + [e])[..|c|] == c;
  }

  lemma CacheEventShape(s: State, e: Event)
    ensures var es := CacheEvents(s, e);
            && |es| <= 2
            && (|es| == 2 ==> es[1] == AuthCache.Clear)
            && (es != [] ==> match es[0]
                             case Clear => true
                             case Get(_, at) => e.Arrive? && at == e.mono
                             case Put(_, purgeAt, storeAt) =>
                               e.PamReplies? && purgeAt == e.purgeAt && storeAt == e.storeAt)
  {
  }

  lemma {:induction false} EventTimes(c: seq<AuthCache.Event>, es: seq<AuthCache.Event>, before: real, after: real)
    requires AuthCache.WellTimed(c) && AuthCache.Now(c) <= before <= after
    requires |es| <= 2 && (|es| == 2 ==> es[1] == AuthCache.Clear)
    requires es != [] ==> match es[0]
                          case Put(_, purgeAt, storeAt) => before <= purgeAt <= storeAt <= after
                          case Get(_, at) => before <= at <= after
                          case Clear => true
    ensures AuthCache.WellTimed(c + es) && AuthCache.Now(c + es) <= after
  {
    if es == [] {
      assert c + es == c;
    } else {
      CacheTimesSnoc(c, es[0], before, after);
      if |es| == 2 {
        assert c + es == (c + [es[0]]) + [es[1]];
        CacheTimesSnoc(c + [es[0]], es[1], after, after);
      } else {
        assert es == [es[0]];
      }
    }
  }

  lemma {:induction false} CacheTimesStep(s: State, e: Event, c: seq<AuthCache.Event>, h: seq<Event>)
    requires WellTimed(h + [e]) && AuthCache.WellTimed(c) && AuthCache.Now(c) <= Mono(h)
    ensures AuthCache.WellTimed(c + CacheEvents(s, e))
    ensures AuthCache.Now(c + CacheEvents(s, e)) <= Mono(h + [e])
  {
    assert (h + [e])[..|h|] == h;
    CacheEventShape(s, e);
    EventTimes(c, CacheEvents(s, e), Mono(h), Mono(h + [e]));
  }

  lemma {:induction false} CacheRefines(s0: State, h: seq<Event>)
    requires JustStarted(s0) && WellTimed(h)
    ensures Run(s0, h).cache == AuthCache.Run(CacheHistory(s0, h))
    ensures AuthCache.WellTimed(CacheHistory(s0, h)) && AuthCache.Now(CacheHistory(s0, h)) <= Mono(h)
  {
    if h != [] {
      var before, e := h[..|h| - 1], h[|h| - 1];
      assert h == before + [e];
      CacheRefines(s0, before);
      StepOnCache(Run(s0, before), e, CacheHistory(s0, before));
      CacheTimesStep(Run(s0, before), e, CacheHistory(s0, before), before);
    }
  }

  /** PAM accepted this credential at event `j`, the result was stored at time `t`, and the
      cache has not been cleared since. */
  ghost predicate AcceptedAt(s0: State, h: seq<Event>, j: nat, credential: string, t: real) {
    && j < |h|
    && PamAccepts(At(s0, h, j), h[j])
    && At(s0, h, j).waiting[h[j].id].credential == credential
    && h[j].storeAt == t
    && forall m :: j <= m < |h| ==> !ClearsCache(At(s0, h, m), h[m])
  }

  lemma {:induction false} NameNeverChanges(s0: State, h: seq<Event>)
    ensures Run(s0, h).me == s0.me
  {
    if h != [] {
      NameNeverChanges(s0, h[..|h| - 1]);
    }
  }

  lemma LastPutStep(s: State, e: Event, c: seq<AuthCache.Event>, k: AuthCache.Key)
    requires AuthCache.LastPut(c + CacheEvents(s, e), k).Some?
    ensures !ClearsCache(s, e)
    ensures (PamAccepts(s, e) && k == KeyOf(s, s.waiting[e.id].credential)
             && AuthCache.LastPut(c + CacheEvents(s, e), k) == Some(e.storeAt))
            || AuthCache.LastPut(c + CacheEvents(s, e), k) == AuthCache.LastPut(c, k)
  {
    var es := CacheEvents(s, e);
    if es == [] {
      assert c + es == c;
    } else {
      assert (c + es)[|c + es| - 1] == es[|es| - 1];
      assert (c + es)[..|c + es| - 1] == c + es[..|es| - 1];
      if |es| == 1 {
        assert c + es[..0] == c;
      }
    }
  }

  lemma AcceptedStays(s0: State, before: seq<Event>, e: Event, j: nat, credential: string, t: real)
    requires AcceptedAt(s0, before, j, credential, t) && !ClearsCache(Run(s0, before), e)
    ensures AcceptedAt(s0, before + [e], j, credential, t)
  {
    var h := before + [e];
    assert h[..|before|] == before;
    assert h[..j] == before[..j];
    forall m | j <= m < |h|
      ensures !ClearsCache(At(s0, h, m), h[m])
    {
      if m < |before| {
        assert h[..m] == before[..m];
        assert !ClearsCache(At(s0, before, m), before[m]);
      }
    }
  }

  lemma AcceptedNow(s0: State, before: seq<Event>, e: Event)
    requires PamAccepts(Run(s0, before), e) && !ClearsCache(Run(s0, before), e)
    ensures AcceptedAt(s0, before + [e], |before|, Run(s0, before).waiting[e.id].credential, e.storeAt)
  {
    assert (before + [e])[..|before|] == before;
  }

  lemma {:induction false} LastPutIsAccepted(s0: State, h: seq<Event>, credential: string)
    requires AuthCache.LastPut(CacheHistory(s0, h), KeyOf(s0, credential)).Some?
    ensures exists j :: AcceptedAt(s0, h, j, credential,
                                   AuthCache.LastPut(CacheHistory(s0, h), KeyOf(s0, credential)).value)
  {
    var before, e := h[..|h| - 1], h[|h| - 1];
    var s := Run(s0, before);
    var c := CacheHistory(s0, before);
    var k := KeyOf(s0, credential);
    var t := AuthCache.LastPut(CacheHistory(s0, h), k).value;
    assert h == before + [e];
    NameNeverChanges(s0, before);
    LastPutStep(s, e, c, k);
    if PamAccepts(s, e) && k == KeyOf(s, s.waiting[e.id].credential) && t == e.storeAt {
      AcceptedNow(s0, before, e);
    } else {
      LastPutIsAccepted(s0, before, credential);
      var j :| AcceptedAt(s0, before, j, credential, t);
      AcceptedStays(s0, before, e, j, credential, t);
    }
  }

  // ---------------------------------------------------------------- the token file over runs

  ghost function TokenEvents(s: State, e: Event): seq<Tokens.Event> {
    if DropsTokens(s, e) then [Tokens.Revoke]
    else if StoresToken(s, e) then [Tokens.Issue(e.token, e.wall)]
    else []
  }

  ghost function TokenHistory(s0: State, h: seq<Event>): seq<Tokens.Event> {
    if h == [] then [] else
      TokenHistory(s0, h[..|h| - 1]) + TokenEvents(Run(s0, h[..|h| - 1]), h[|h| - 1])
  }

  lemma {:induction false} TokensRefine(s0: State, h: seq<Event>)
    ensures Run(s0, h).disk.tokens == Tokens.Run(s0.disk.tokens, TokenHistory(s0, h))
  {
    if h != [] {
      var before, e := h[..|h| - 1], h[|h| - 1];
      TokensRefine(s0, before);
      StepOnDisk(Run(s0, before), e);
      var t, es := TokenHistory(s0, before), TokenEvents(Run(s0, before), e);
      if es == [] {
        assert t + es == t;
      } else {
        assert (t + es)[..|t|] == t;
      }
    }
  }

  // ---------------------------------------------------------------- every ok reply is justified

  /** Event `b` asked for this credential while access was enabled, and went on to PAM. */
  ghost predicate CheckedAt(s0: State, h: seq<Event>, b: nat, id: nat, credential: string) {
    && b < |h|
    && Asks(At(s0, h, b), h[b])
    && h[b].id == id && h[b].request.credential == credential
    && !At(s0, h, b).disk.disabled
  }

  lemma CheckedStays(s0: State, before: seq<Event>, e: Event, b: nat, id: nat, credential: string)
    requires CheckedAt(s0, before, b, id, credential)
    ensures CheckedAt(s0, before + [e], b, id, credential)
  {
    assert (before + [e])[..b] == before[..b];
  }

  /** A new waiting entry comes from a request that has just passed the check. */
  lemma NewlyWaiting(s: State, e: Event, id: nat)
    requires id in Step(s, e).0.waiting && Step(s, e).0.waiting[id].AuthWait?
    requires !(id in s.waiting && s.waiting[id] == Step(s, e).0.waiting[id])
    ensures Asks(s, e) && e.id == id && e.request.credential == Step(s, e).0.waiting[id].credential
    ensures !s.disk.disabled
  {
  }

  lemma {:induction false} WaitingWasChecked(s0: State, h: seq<Event>, id: nat)
    requires JustStarted(s0)
    requires id in Run(s0, h).waiting && Run(s0, h).waiting[id].AuthWait?
    ensures exists b :: CheckedAt(s0, h, b, id, Run(s0, h).waiting[id].credential)
  {
    var before, e := h[..|h| - 1], h[|h| - 1];
    var s := Run(s0, before);
    var w := Run(s0, h).waiting[id];
    assert h == before + [e];
    if id in s.waiting && s.waiting[id] == w {
      WaitingWasChecked(s0, before, id);
      var b :| CheckedAt(s0, before, b, id, w.credential);
      CheckedStays(s0, before, e, b, id, w.credential);
    } else {
      NewlyWaiting(s, e, id);
      assert h[..|before|] == before;
      assert CheckedAt(s0, h, |before|, id, w.credential);
    }
  }

  ghost predicate TokenJustifies(s0: State, h: seq<Event>, i: nat)
    requires i < |h| && h[i].Arrive?
  {
    && Tokens.LooksLikeToken(h[i].request.credential)
    && Tokens.InForce(Tokens.IssuedSinceRevoke(s0.disk.tokens, TokenHistory(s0, h[..i])),
                      h[i].request.credential, h[i].wall)
  }

  ghost predicate CacheJustifies(s0: State, h: seq<Event>, i: nat)
    requires i < |h| && h[i].Arrive?
  {
    exists j, t :: AcceptedAt(s0, h[..i], j, h[i].request.credential, t)
                   && t <= h[i].mono <= t + AuthCache.CACHE_TTL
  }

  ghost predicate PamJustifies(s0: State, h: seq<Event>, i: nat)
    requires i < |h| && h[i].PamReplies?
  {
    && PamAccepts(At(s0, h, i), h[i])
    && exists b :: CheckedAt(s0, h[..i], b, h[i].id, At(s0, h, i).waiting[h[i].id].credential)
  }

  lemma {:induction false} HitIsJustified(s0: State, h: seq<Event>, credential: string, now: real)
    requires JustStarted(s0) && WellTimed(h) && Mono(h) <= now
    requires AuthCache.Hit(Run(s0, h).cache, KeyOf(s0, credential), now)
    ensures exists j, t :: AcceptedAt(s0, h, j, credential, t) && t <= now <= t + AuthCache.CACHE_TTL
  {
    CacheRefines(s0, h);
    AuthCache.HitIsRecent(CacheHistory(s0, h), KeyOf(s0, credential), now);
    LastPutIsAccepted(s0, h, credential);
  }

  lemma OkOnArrival(s: State, e: Event)
    requires Asks(s, e) && Step(s, e).1.Some? && Step(s, e).1.value.ok
    ensures !s.disk.disabled
    ensures if Tokens.LooksLikeToken(e.request.credential)
            then Tokens.Check(s.disk.tokens, e.request.credential, e.wall) == Tokens.Matches
            else AuthCache.Hit(s.cache, KeyOf(s, e.request.credential), e.mono)
  {
  }

  lemma {:induction false} ArrivalIsJustified(s0: State, h: seq<Event>, i: nat)
    requires JustStarted(s0) && WellTimed(h) && i < |h|
    requires Asks(At(s0, h, i), h[i])
    requires ReplyTo(s0, h, i).Some? && ReplyTo(s0, h, i).value.ok
    ensures !At(s0, h, i).disk.disabled
    ensures TokenJustifies(s0, h, i) || CacheJustifies(s0, h, i)
  {
    OkOnArrival(At(s0, h, i), h[i]);
    var past, credential := h[..i], h[i].request.credential;
    if Tokens.LooksLikeToken(credential) {
      TokensRefine(s0, past);
      Tokens.MatchIffInForce(s0.disk.tokens, TokenHistory(s0, past), credential, h[i].wall);
    } else {
      ArrivalClock(h, i);
      NameNeverChanges(s0, past);
      HitIsJustified(s0, past, credential, h[i].mono);
    }
  }

  lemma ArrivalClock(h: seq<Event>, i: nat)
    requires WellTimed(h) && i < |h| && h[i].Arrive?
    ensures WellTimed(h[..i]) && Mono(h[..i]) <= h[i].mono
  {
    PrefixWellTimed(h, i + 1);
    assert h[..i + 1][..i] == h[..i] && h[..i + 1][i] == h[i];
  }

  lemma PamReplyIsJustified(s0: State, h: seq<Event>, i: nat)
    requires JustStarted(s0) && i < |h| && h[i].PamReplies?
    requires h[i].id in At(s0, h, i).waiting && At(s0, h, i).waiting[h[i].id].AuthWait?
    requires ReplyTo(s0, h, i).Some? && ReplyTo(s0, h, i).value.ok
    ensures PamJustifies(s0, h, i)
  {
    WaitingWasChecked(s0, h[..i], h[i].id);
  }

  /** Whether event `i` answers an authenticate request: on arrival or after its PAM call. */
  ghost predicate AnswersAuthenticate(s0: State, h: seq<Event>, i: nat)
    requires i < |h|
  {
    || Asks(At(s0, h, i), h[i])
    || (h[i].PamReplies? && h[i].id in At(s0, h, i).waiting && At(s0, h, i).waiting[h[i].id].AuthWait?)
  }

  /** Every ok reply to an authenticate request is justified by a token in force or a PAM
      success at most CACHE_TTL old, with access enabled, or by the request's own PAM success
      after a check that found access enabled. */
  lemma {:induction false} OkIsJustified(s0: State, h: seq<Event>, i: nat)
    requires JustStarted(s0) && WellTimed(h) && i < |h|
    requires AnswersAuthenticate(s0, h, i)
    requires ReplyTo(s0, h, i).Some? && ReplyTo(s0, h, i).value.ok
    ensures match h[i]
            case Arrive(_, _, _, _, _) =>
              !At(s0, h, i).disk.disabled && (TokenJustifies(s0, h, i) || CacheJustifies(s0, h, i))
            case PamReplies(_, _, _, _, _, _, _, _) => PamJustifies(s0, h, i)
            case Restart => false
            case Script(_) => false
  {
    if h[i].Arrive? {
      ArrivalIsJustified(s0, h, i);
    } else {
      PamReplyIsJustified(s0, h, i);
    }
  }

  /** Conversely a token in force is accepted whenever access is enabled. */
  lemma TokenInForceIsAccepted(s0: State, h: seq<Event>, i: nat)
    requires JustStarted(s0) && i < |h|
    requires Asks(At(s0, h, i), h[i]) && !At(s0, h, i).disk.disabled
    requires TokenJustifies(s0, h, i)
    ensures ReplyTo(s0, h, i) == Answer(true, 0, ByToken)
  {
    TokensRefine(s0, h[..i]);
    Tokens.MatchIffInForce(s0.disk.tokens, TokenHistory(s0, h[..i]), h[i].request.credential, h[i].wall);
  }

  /** The token was stored by an issue after event `j` and before event `i`. */
  ghost predicate StoredBetween(s0: State, h: seq<Event>, j: nat, i: nat, token: string)
    requires i <= |h|
  {
    exists m :: j < m < i && StoresToken(At(s0, h, m), h[m]) && h[m].token == token
  }

  function Flatten(ess: seq<seq<Tokens.Event>>): seq<Tokens.Event> {
    if ess == [] then [] else Flatten(ess[..|ess| - 1]) + ess[|ess| - 1]
  }

  lemma {:induction false} FlattenSplits(ess: seq<seq<Tokens.Event>>, j: nat)
    requires j <= |ess|
    ensures Flatten(ess) == Flatten(ess[..j]) + Flatten(ess[j..])
  {
    var n := |ess| - 1;
    if j <= n {
      FlattenSplits(ess[..n], j);
      assert ess[..n][..j] == ess[..j] && ess[..n][j..] == ess[j..][..n - j];
    } else {
      assert ess[..j] == ess && ess[j..] == [];
    }
  }

  lemma SplitAt(ess: seq<seq<Tokens.Event>>, j: nat)
    requires j < |ess|
    ensures Flatten(ess) == Flatten(ess[..j]) + ess[j] + Flatten(ess[j + 1..])
  {
    FlattenSplits(ess, j + 1);
    assert ess[..j + 1][..j] == ess[..j];
  }

  lemma {:induction false} IssuedInSome(ess: seq<seq<Tokens.Event>>, token: string) returns (m: nat)
    requires Tokens.IssuedIn(Flatten(ess), token)
    ensures m < |ess| && Tokens.IssuedIn(ess[m], token)
  {
    m := |ess| - 1;
    if !Tokens.IssuedIn(ess[m], token) {
      IssuedInEither(Flatten(ess[..m]), ess[m], token);
      m := IssuedInSome(ess[..m], token);
    }
  }

  lemma IssuedInEither(a: seq<Tokens.Event>, b: seq<Tokens.Event>, token: string)
    requires Tokens.IssuedIn(a + b, token)
    ensures Tokens.IssuedIn(a, token) || Tokens.IssuedIn(b, token)
  {
    var m :| 0 <= m < |a + b| && (a + b)[m].Issue? && (a + b)[m].token == token;
    if m < |a| {
      assert a[m] == (a + b)[m];
    } else {
      assert b[m - |a|] == (a + b)[m];
    }
  }

  /** What each event does to the token file. */
  ghost function Effects(s0: State, h: seq<Event>): seq<seq<Tokens.Event>> {
    seq(|h|, i requires 0 <= i < |h| => TokenEvents(At(s0, h, i), h[i]))
  }

  lemma EffectsOfPrefix(s0: State, h: seq<Event>, n: nat)
    requires n <= |h|
    ensures Effects(s0, h[..n]) == Effects(s0, h)[..n]
  {
    assert forall i :: 0 <= i < n ==> h[..n][..i] == h[..i];
  }

  lemma {:induction false} HistoryIsFlat(s0: State, h: seq<Event>)
    ensures TokenHistory(s0, h) == Flatten(Effects(s0, h))
  {
    if h != [] {
      HistoryIsFlat(s0, h[..|h| - 1]);
      EffectsOfPrefix(s0, h, |h| - 1);
    }
  }

  lemma PrefixIsFlat(s0: State, h: seq<Event>, n: nat)
    requires n <= |h|
    ensures TokenHistory(s0, h[..n]) == Flatten(Effects(s0, h)[..n])
  {
    HistoryIsFlat(s0, h[..n]);
    EffectsOfPrefix(s0, h, n);
  }

  lemma IssuedLaterIsStored(s0: State, h: seq<Event>, j: nat, i: nat, token: string)
    requires j < i <= |h| && Tokens.IssuedIn(Flatten(Effects(s0, h)[j + 1..i]), token)
    ensures StoredBetween(s0, h, j, i, token)
  {
    var m := IssuedInSome(Effects(s0, h)[j + 1..i], token);
    m := j + 1 + m;
    assert Tokens.IssuedIn(TokenEvents(At(s0, h, m), h[m]), token);
    assert StoresToken(At(s0, h, m), h[m]) && h[m].token == token;
  }

  /** After a completed revocation the history is the one before it, the revocation, and the
      effects of the later events. */
  lemma HistoryAfterDrop(s0: State, h: seq<Event>, j: nat, i: nat)
    requires j < i <= |h| && DropsTokens(At(s0, h, j), h[j])
    ensures TokenHistory(s0, h[..i]) ==
            TokenHistory(s0, h[..j]) + [Tokens.Revoke] + Flatten(Effects(s0, h)[j + 1..i])
  {
    PrefixIsFlat(s0, h, i);
    PrefixIsFlat(s0, h, j);
    SplitAt(Effects(s0, h)[..i], j);
    assert Effects(s0, h)[..i][..j] == Effects(s0, h)[..j];
    assert Effects(s0, h)[..i][j + 1..] == Effects(s0, h)[j + 1..i];
    assert Effects(s0, h)[..i][j] == [Tokens.Revoke];
  }

  lemma RevokedTokenMatchesNothing(s0: State, h: seq<Event>, j: nat, i: nat, token: string, now: real)
    requires JustStarted(s0) && j < i <= |h| && DropsTokens(At(s0, h, j), h[j])
    requires !StoredBetween(s0, h, j, i, token)
    ensures Tokens.Check(At(s0, h, i).disk.tokens, token, now) == Tokens.Refused
  {
    var later := Flatten(Effects(s0, h)[j + 1..i]);
    HistoryAfterDrop(s0, h, j, i);
    if Tokens.IssuedIn(later, token) {
      IssuedLaterIsStored(s0, h, j, i, token);
    }
    TokensRefine(s0, h[..i]);
    Tokens.RevokedNeverMatches(s0.disk.tokens, TokenHistory(s0, h[..j]), later, token, now);
  }

  /** A token that no later issue stored is refused for ever after a completed revocation,
      even when the user has joined again. */
  lemma RevokedTokenIsRefused(s0: State, h: seq<Event>, j: nat, i: nat)
    requires JustStarted(s0) && j < i < |h|
    requires DropsTokens(At(s0, h, j), h[j])
    requires Asks(At(s0, h, i), h[i]) && Tokens.LooksLikeToken(h[i].request.credential)
    requires !StoredBetween(s0, h, j, i, h[i].request.credential)
    ensures ReplyTo(s0, h, i).Some? && !ReplyTo(s0, h, i).value.ok
  {
    RevokedTokenMatchesNothing(s0, h, j, i, h[i].request.credential, h[i].wall);
  }

  // ---------------------------------------------------------------- leaving while a join is under way

  /** An issue-token request that waits for its PAM answer. */
  ghost predicate IssuePending(s: State) {
    exists id :: id in s.waiting && s.waiting[id].IssueWait?
  }

  /** A join that started before can still clear the marker: it waits for its token, or it
      holds one and has its last step before it. */
  ghost predicate JoinUnderWay(s: State) {
    IssuePending(s) || s.joins != {}
  }

  ghost predicate NoNewIssue(h: seq<Event>) {
    forall i :: 0 <= i < |h| && h[i].Arrive? ==> h[i].request.op != "issue-token"
  }

  lemma NoPendingStays(s: State, e: Event)
    requires !IssuePending(s) && (e.Arrive? ==> e.request.op != "issue-token")
    ensures !IssuePending(Step(s, e).0)
  {
    var s' := Step(s, e).0;
    forall id | id in s'.waiting
      ensures s'.waiting[id].AuthWait?
    {
      assert id in s.waiting ==> s.waiting[id].AuthWait?;
    }
  }

  lemma NoJoinStays(s: State, e: Event)
    requires !JoinUnderWay(s) && (e.Arrive? ==> e.request.op != "issue-token")
    ensures Step(s, e).0.joins == {}
  {
    assert e.PamReplies? && e.id in s.waiting ==> s.waiting[e.id].AuthWait?;
  }

  lemma StepKeepsLeft(s: State, e: Event)
    requires s.disk.disabled && !JoinUnderWay(s)
    requires e.Arrive? ==> e.request.op != "issue-token"
    ensures Step(s, e).0.disk.disabled && !JoinUnderWay(Step(s, e).0)
  {
    StepOnDisk(s, e);
    assert !ClearsMarker(s, e);
    NoPendingStays(s, e);
    NoJoinStays(s, e);
  }

  lemma {:induction false} StaysLeft(s: State, h: seq<Event>)
    requires s.disk.disabled && !JoinUnderWay(s) && NoNewIssue(h)
    ensures Run(s, h).disk.disabled && !JoinUnderWay(Run(s, h))
  {
    if h != [] {
      StaysLeft(s, h[..|h| - 1]);
      StepKeepsLeft(Run(s, h[..|h| - 1]), h[|h| - 1]);
    }
  }

  lemma RunTwo(s: State, a: Event, b: Event)
    ensures Run(s, [a]) == Step(s, a).0 && Run(s, [a, b]) == Step(Step(s, a).0, b).0
  {
    assert [a][..0] == [] && [a, b][..1] == [a];
  }

  /** The PAM success of a waiting issue request enables access again and stores its token. */
  lemma PendingIssueRejoins(s: State, id: nat, token: string, mono: real, wall: real)
    requires id in s.waiting && s.waiting[id].IssueWait? && Tokens.HasPrefix(token)
    ensures var s' := Run(s, [Script(LeaveDropsTokens), PamReplies(id, true, 0, mono, mono, wall, token, Finish)]);
            !s'.disk.disabled && Tokens.Check(s'.disk.tokens, token, wall) == Tokens.Matches
  {
    var drop, e := Script(LeaveDropsTokens), PamReplies(id, true, 0, mono, mono, wall, token, Finish);
    RunTwo(s, drop, e);
    var t := Step(s, drop).0;
    StepOnDisk(t, e);
    assert ClearsMarker(t, e) && StoresToken(t, e);
  }

  ghost predicate ComesBack(s: State, h: seq<Event>) {
    NoNewIssue(h) && !Run(s, h).disk.disabled
  }

  /** Once the marker is set, access can be enabled again without a later issue-token request
      exactly when a join that started before is still under way. */
  lemma {:induction false} LeaveUndoneIffJoinUnderWay(left: State)
    requires left.disk.disabled
    ensures (exists h :: ComesBack(left, h)) <==> JoinUnderWay(left)
  {
    if IssuePending(left) {
      var id :| id in left.waiting && left.waiting[id].IssueWait?;
      PendingIssueRejoins(left, id, Tokens.TOKEN_PREFIX, 0.0, 0.0);
      assert ComesBack(left, [Script(LeaveDropsTokens),
                              PamReplies(id, true, 0, 0.0, 0.0, 0.0, Tokens.TOKEN_PREFIX, Finish)]);
    } else if left.joins != {} {
      var id :| id in left.joins;
      var e := Script(JoinEnds(id));
      RunTwo(left, e, e);
      assert ComesBack(left, [e]);
    } else {
      forall h | NoNewIssue(h)
        ensures !ComesBack(left, h)
      {
        StaysLeft(left, h);
      }
    }
  }

  /** Who is under way after a revocation that set the marker: the same joins as before, and
      the same waiting requests unless the process was killed. */
  lemma {:induction false} RevokeUndoneIff(s: State, stop: Stop)
    requires Done(stop, 8) >= MARKER_SET
    ensures (exists h :: ComesBack(Revoke(s, stop).0, h)) <==>
            s.joins != {} || (IssuePending(s) && !Killed(stop, 8))
  {
    var left := Revoke(s, stop).0;
    RevokeStages(s.disk, Done(stop, 8));
    assert left.joins == s.joins && left.waiting == if Killed(stop, 8) then map[] else s.waiting;
    LeaveUndoneIffJoinUnderWay(left);
    assert IssuePending(left) <==> IssuePending(s) && !Killed(stop, 8);
  }

  // ---------------------------------------------------------------- an interrupted revocation

  /** A revocation that set the marker but was stopped before it removed the token file lets
      the revoked token come back with the user's next issue, for the rotation grace; one that
      also removed the file does not. */
  lemma InterruptedRevokeRevivesToken(s: State, stop: Stop, renewed: string, wall: real, revoked: string, now: real)
    requires Tokens.Superseded(s.disk.tokens) == Some(Tokens.Sha256(revoked))
    requires Tokens.HasPrefix(revoked) && revoked != renewed
    requires Done(stop, 8) >= MARKER_SET
    ensures var rejoined := Issue(Revoke(s, stop).0, 0, renewed, wall, Finish).0;
            && !rejoined.disk.disabled
            && (Tokens.Check(rejoined.disk.tokens, revoked, now) == Tokens.Matches
                <==> Done(stop, 8) < TOKENS_GONE && now <= wall + Tokens.TOKEN_ROTATION_GRACE)
  {
    RevokeStages(s.disk, Done(stop, 8));
    var left := Revoke(s, stop).0;
    var previous := Tokens.Superseded(left.disk.tokens);
    IssueStages(left.disk, Tokens.NewRecord(renewed, previous.value, wall), 8);
  }
}
