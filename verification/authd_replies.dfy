/** What the daemon answers, request by request, over every run.
 */
module AuthdReplies {
  import opened Options
  import opened Authd
  import opened AuthdRuns
  import AuthCache
  import Tokens

  function Refuse(code: int): Option<Reply> {
    Some(Reply(false, code, Protocol, None))
  }

  // ---------------------------------------------------------------- who is turned away

  /** A caller that is neither the proxy's owner nor the user is refused whatever it asks, another
      user's name is refused, only the user may issue or revoke, and unknown operations are
      refused. Nothing changes by any of these requests. */
  lemma WhoIsTurnedAway(s: State, e: Event)
    requires e.Arrive?
    ensures var r := e.request;
            && (r.peer == Stranger ==> Step(s, e) == (s, Refuse(-3)))
            && (r.peer != Stranger && r.op == "capabilities" ==> Step(s, e) == (s, Some(Reply(true, 0, Protocol, None))))
            && (r.peer != Stranger && r.op != "capabilities" && r.user != s.me ==> Step(s, e) == (s, Refuse(-1)))
            && (r.peer == ProxyOwner && r.user == s.me && (r.op == "issue-token" || r.op == "revoke-token")
                ==> Step(s, e) == (s, Refuse(-5)))
            && (r.peer != Stranger && r.user == s.me
                && r.op !in {"capabilities", "issue-token", "revoke-token", "authenticate"}
                ==> Step(s, e) == (s, Refuse(-7)))
  {
  }

  /** Only a request of the user's own uid ever waits for PAM to get a token. */
  lemma IssueComesFromTheUser(s: State, e: Event, id: nat)
    requires id in Step(s, e).0.waiting && Step(s, e).0.waiting[id].IssueWait?
    requires !(id in s.waiting && s.waiting[id] == Step(s, e).0.waiting[id])
    ensures e.Arrive? && e.id == id && e.request.peer == Self && e.request.op == "issue-token"
    ensures e.request.user == s.me && e.request.credential == Step(s, e).0.waiting[id].credential
  {
  }

  // ---------------------------------------------------------------- authenticate

  /** PAM's answer reaches the caller as it is, the yes like the no. */
  lemma PamAnswerIsPassedOn(s0: State, h: seq<Event>, i: nat)
    requires i < |h| && h[i].PamReplies?
    requires h[i].id in At(s0, h, i).waiting && At(s0, h, i).waiting[h[i].id].AuthWait?
    ensures ReplyTo(s0, h, i) == Some(Reply(h[i].ok, h[i].code, ByPam, None))
  {
  }

  /** A request that neither the marker, a token nor the cache decides goes to PAM. */
  lemma OtherwisePamIsAsked(s0: State, h: seq<Event>, i: nat)
    requires i < |h| && Asks(At(s0, h, i), h[i]) && !At(s0, h, i).disk.disabled
    requires !Tokens.LooksLikeToken(h[i].request.credential)
    requires !AuthCache.Hit(At(s0, h, i).cache, KeyOf(At(s0, h, i), h[i].request.credential), h[i].mono)
    ensures ReplyTo(s0, h, i).None?
    ensures var w := Step(At(s0, h, i), h[i]).0.waiting;
            h[i].id in w && w[h[i].id] == AuthWait(h[i].request.credential)
  {
  }

  /** A text of the token shape that is not in force is refused without asking PAM. */
  lemma OtherTokenIsRefused(s0: State, h: seq<Event>, i: nat)
    requires JustStarted(s0) && i < |h| && Asks(At(s0, h, i), h[i]) && !At(s0, h, i).disk.disabled
    requires Tokens.LooksLikeToken(h[i].request.credential) && !TokenJustifies(s0, h, i)
    ensures ReplyTo(s0, h, i) == Some(Reply(false, -6, ByToken, None))
    ensures Step(At(s0, h, i), h[i]).0 == At(s0, h, i)
  {
    TokensRefine(s0, h[..i]);
    Tokens.MatchIffInForce(s0.disk.tokens, TokenHistory(s0, h[..i]), h[i].request.credential, h[i].wall);
  }

  /** A first-format file whose digest reads as a number makes every check of a token report the
      exception, after any number of issues. */
  lemma BlockedFileIsReported(s0: State, h: seq<Event>, i: nat, text: Tokens.Text, written: string)
    requires i < |h| && Asks(At(s0, h, i), h[i]) && !At(s0, h, i).disk.disabled
    requires Tokens.LooksLikeToken(h[i].request.credential)
    requires At(s0, h, i).disk.tokens == Tokens.Single(text, written)
    requires Tokens.IsHexDigest(written) && exists k :: Tokens.IsNumeral(written, k)
    ensures ReplyTo(s0, h, i) == Some(Reply(false, -2, Exception, None))
  {
    Tokens.NumericDigests(written);
  }

  // ---------------------------------------------------------------- the cache answers what it can

  /** The history of puts knows an accepted credential by a put at least as late. */
  lemma {:induction false} AcceptedIsLastPut(s0: State, h: seq<Event>, j: nat, credential: string, t: real)
    requires JustStarted(s0) && WellTimed(h) && AcceptedAt(s0, h, j, credential, t)
    ensures var put := AuthCache.LastPut(CacheHistory(s0, h), KeyOf(s0, credential)); put.Some? && put.value >= t
  {
    var before, e := h[..|h| - 1], h[|h| - 1];
    var s, c, k := Run(s0, before), CacheHistory(s0, before), KeyOf(s0, credential);
    assert h == before + [e];
    NameNeverChanges(s0, before);
    NotClearedAt(s0, h, j, credential, t);
    if j == |before| {
      PutNow(s, e, c);
    } else {
      AcceptedBefore(s0, before, e, j, credential, t);
      AcceptedIsLastPut(s0, before, j, credential, t);
      CacheRefines(s0, before);
      AuthCache.LastPutIsPast(c, k);
      LaterPut(s, e, c, k, Mono(before));
    }
  }

  lemma NotClearedAt(s0: State, h: seq<Event>, j: nat, credential: string, t: real)
    requires AcceptedAt(s0, h, j, credential, t)
    ensures h != [] && !ClearsCache(Run(s0, h[..|h| - 1]), h[|h| - 1])
  {
    assert !ClearsCache(At(s0, h, |h| - 1), h[|h| - 1]);
  }

  lemma AcceptedBefore(s0: State, before: seq<Event>, e: Event, j: nat, credential: string, t: real)
    requires AcceptedAt(s0, before + [e], j, credential, t) && j < |before|
    ensures AcceptedAt(s0, before, j, credential, t)
  {
    var h := before + [e];
    assert h[..j] == before[..j];
    forall m | j <= m < |before|
      ensures !ClearsCache(At(s0, before, m), before[m])
    {
      assert h[..m] == before[..m];
      assert !ClearsCache(At(s0, h, m), h[m]);
    }
  }

  lemma PutNow(s: State, e: Event, c: seq<AuthCache.Event>)
    requires PamAccepts(s, e) && !ClearsCache(s, e)
    ensures AuthCache.LastPut(c + CacheEvents(s, e), KeyOf(s, s.waiting[e.id].credential)) == Some(e.storeAt)
  {
    var put := AuthCache.Put(KeyOf(s, s.waiting[e.id].credential), e.purgeAt, e.storeAt);
    assert CacheEvents(s, e) == [put];
    assert (c + [put])[|c|] == put;
  }

  lemma LaterPut(s: State, e: Event, c: seq<AuthCache.Event>, k: AuthCache.Key, now: real)
    requires !ClearsCache(s, e) && AuthCache.LastPut(c, k).Some? && AuthCache.LastPut(c, k).value <= now
    requires e.PamReplies? ==> now <= e.storeAt
    ensures var put := AuthCache.LastPut(c + CacheEvents(s, e), k);
            put.Some? && put.value >= AuthCache.LastPut(c, k).value
  {
    var es := CacheEvents(s, e);
    CacheEventShape(s, e);
    if es == [] {
      assert c + es == c;
    } else {
      assert |es| == 1;
      assert (c + es)[|c|] == es[0] && (c + es)[..|c|] == c;
    }
  }

  /** At least 127 other credentials were accepted at or after `since` and not cleared. */
  ghost predicate CrowdedOut(s0: State, h: seq<Event>, credential: string, since: real) {
    exists others: set<string> :: CrowdedOutBy(s0, h, credential, since, others)
  }

  ghost predicate CrowdedOutBy(s0: State, h: seq<Event>, credential: string, since: real, others: set<string>) {
    && credential !in others && |others| >= 127
    && forall o :: o in others ==> StoredSince(s0, h, o, since)
  }

  ghost predicate StoredSince(s0: State, h: seq<Event>, credential: string, since: real) {
    exists j, t :: AcceptedAt(s0, h, j, credential, t) && t >= since
  }

  lemma {:induction false} PutsAreOurs(s0: State, h: seq<Event>, k: AuthCache.Key)
    requires AuthCache.LastPut(CacheHistory(s0, h), k).Some?
    ensures k.user == s0.me
  {
    var before, e := h[..|h| - 1], h[|h| - 1];
    NameNeverChanges(s0, before);
    LastPutStep(Run(s0, before), e, CacheHistory(s0, before), k);
    if AuthCache.LastPut(CacheHistory(s0, before), k).Some? {
      PutsAreOurs(s0, before, k);
    }
  }

  function Passwords(keys: set<AuthCache.Key>): set<string> {
    set k | k in keys :: k.fingerprint.password
  }

  lemma {:induction false} PasswordsAreDistinct(keys: set<AuthCache.Key>, user: string)
    requires forall k :: k in keys ==> k.user == user
    ensures |Passwords(keys)| == |keys|
  {
    if keys != {} {
      var k :| k in keys;
      var rest := keys - {k};
      PasswordsAreDistinct(rest, user);
      assert Passwords(keys) == Passwords(rest) + {k.fingerprint.password};
      assert k.fingerprint.password !in Passwords(rest);
    }
  }

  lemma CrowdedInHistory(s0: State, h: seq<Event>, credential: string, since: real, t: real)
    requires AuthCache.Crowded(CacheHistory(s0, h), KeyOf(s0, credential), since) && since >= t
    ensures CrowdedOut(s0, h, credential, t)
  {
    var c, k := CacheHistory(s0, h), KeyOf(s0, credential);
    var keys :| AuthCache.CrowdedBy(c, k, since, keys);
    forall o: AuthCache.Key | o in keys
      ensures o == KeyOf(s0, o.fingerprint.password) && StoredSince(s0, h, o.fingerprint.password, t)
    {
      PutsAreOurs(s0, h, o);
      LastPutIsAccepted(s0, h, o.fingerprint.password);
    }
    PasswordsAreDistinct(keys, s0.me);
    assert CrowdedOutBy(s0, h, credential, t, Passwords(keys));
  }

  /** What PAM has accepted is remembered: with access enabled, a password that was stored at
      most 60 seconds ago, since the last time the cache was cleared, is answered ok without
      PAM, unless 127 others have been stored since. */
  lemma {:induction false} AcceptedIsRemembered(s0: State, h: seq<Event>, i: nat, j: nat, t: real)
    requires JustStarted(s0) && WellTimed(h) && i < |h|
    requires Asks(At(s0, h, i), h[i]) && !At(s0, h, i).disk.disabled
    requires !Tokens.LooksLikeToken(h[i].request.credential)
    requires AcceptedAt(s0, h[..i], j, h[i].request.credential, t) && h[i].mono <= t + 60.0
    ensures ReplyTo(s0, h, i) == Some(Reply(true, 0, ByCache, None))
            || CrowdedOut(s0, h[..i], h[i].request.credential, t)
  {
    var past, credential := h[..i], h[i].request.credential;
    var k := KeyOf(s0, credential);
    ArrivalClock(h, i);
    NameNeverChanges(s0, past);
    CacheRefines(s0, past);
    AcceptedIsLastPut(s0, past, j, credential, t);
    if !AuthCache.Hit(Run(s0, past).cache, k, h[i].mono) {
      AuthCache.MissIsExplained(CacheHistory(s0, past), k, h[i].mono);
      CrowdedInHistory(s0, past, credential, AuthCache.LastPut(CacheHistory(s0, past), k).value, t);
    }
  }

  // ---------------------------------------------------------------- issue and revoke

  /** An issue request that PAM refuses is answered with PAM's code and changes no file. */
  lemma RefusedIssue(s: State, e: Event)
    requires e.PamReplies? && e.id in s.waiting && s.waiting[e.id].IssueWait? && !e.ok
    ensures Step(s, e).1 == Some(Reply(false, e.code, ByPam, None)) && Step(s, e).0.disk == s.disk
  {
  }

  /** One that PAM accepts hands out exactly the token whose record it has stored, and enables
      access, if its file operations succeed; the token then matches. */
  lemma GrantedIssue(s: State, e: Event)
    requires Issues(s, e) && Done(e.stop, 8) == 8 && Tokens.HasPrefix(e.token)
    ensures Step(s, e).1 == Some(Reply(true, e.code, ByPam, Some(e.token)))
    ensures var d := Step(s, e).0.disk;
            !d.disabled && forall now :: Tokens.Check(d.tokens, e.token, now) == Tokens.Matches
  {
    StepOnDisk(s, e);
  }

  /** Every answer after PAM's yes: a token if all file operations succeeded, otherwise the
      exception is reported, and a killed process answers nothing. */
  lemma AcceptedIssueReplies(s: State, e: Event)
    requires e.PamReplies? && e.id in s.waiting && s.waiting[e.id].IssueWait? && e.ok
    ensures var n := if Tokens.Superseded(s.disk.tokens).Some? then 8 else 2;
            Step(s, e).1 == if n == 8 && Done(e.stop, 8) == 8 then Some(Reply(true, e.code, ByPam, Some(e.token)))
                            else if e.stop.Kill? && e.stop.after < n then None
                            else Some(Reply(false, -2, Exception, None))
  {
  }

  /** No other reply carries a token or says ok to an issue request. */
  lemma TokenOnlyIfGranted(s: State, e: Event)
    requires Step(s, e).1.Some? && Step(s, e).1.value.token.Some?
    ensures Issues(s, e) && Done(e.stop, 8) == 8 && Step(s, e).1.value.token == Some(e.token)
  {
  }

  /** A revocation says ok exactly if all of its file operations succeeded; an exception is
      reported, and a killed process answers nothing. */
  lemma RevocationReplies(s: State, e: Event)
    requires Revokes(s, e)
    ensures Step(s, e).1 == if Done(e.stop, 8) == 8 then Some(Reply(true, 0, LeftProxy, None))
                            else if e.stop.Raise? then Some(Reply(false, -2, Exception, None)) else None
  {
  }

  /** An issued token is accepted: it was stored at event `j` and reported, access has not been
      disabled and no other token has been stored or dropped since. */
  ghost predicate StillNewest(s0: State, h: seq<Event>, j: nat, i: nat) {
    && j < i <= |h|
    && Issues(At(s0, h, j), h[j]) && Done(h[j].stop, 8) == 8
    && forall m :: j < m < i ==> !SetsMarker(At(s0, h, m), h[m]) && !StoresToken(At(s0, h, m), h[m])
                                 && !DropsTokens(At(s0, h, m), h[m])
  }

  lemma {:induction false} NewestStays(s0: State, h: seq<Event>, j: nat, i: nat)
    requires StillNewest(s0, h, j, i)
    ensures var d := At(s0, h, i).disk;
            !d.disabled && d.tokens.Record? && d.tokens.current == Tokens.Sha256(h[j].token)
    decreases i
  {
    assert h[..i][..i - 1] == h[..i - 1] && h[..i][i - 1] == h[i - 1];
    StepOnDisk(At(s0, h, i - 1), h[i - 1]);
    if j < i - 1 {
      NewestStays(s0, h, j, i - 1);
    }
  }

  lemma {:induction false} IssuedTokenIsAccepted(s0: State, h: seq<Event>, j: nat, i: nat)
    requires i < |h| && StillNewest(s0, h, j, i) && Tokens.LooksLikeToken(h[j].token)
    requires Asks(At(s0, h, i), h[i]) && h[i].request.credential == h[j].token
    ensures ReplyTo(s0, h, j) == Some(Reply(true, h[j].code, ByPam, Some(h[j].token)))
    ensures ReplyTo(s0, h, i) == Some(Reply(true, 0, ByToken, None))
  {
    NewestStays(s0, h, j, i);
  }
}
