/** The per-user authentication daemon, authd.py: one process serving one user.

    Requests interleave only at the await of the PAM call, so a request is at most two atomic
    steps: its arrival up to that await, and the PAM answer. The file updates inside a step
    are lists of single file operations that can be cut short by an exception or by the death
    of the process. The user's own scripts, join-proxy.sh and leave-proxy.sh, write the same
    two files between these steps.
 */
module Authd {
  import opened Options
  import AuthCache
  import Tokens

  // ---------------------------------------------------------------- files

  datatype Content = MarkerText | RecordText(file: Tokens.TokenFile)

  /** The temporary file of the update in progress. */
  datatype Temp = NoTemp | Blank | Torn | Full(content: Content)

  datatype Disk = Disk(hasDir: bool, temp: Temp, disabled: bool, tokens: Tokens.TokenFile)

  datatype FileOp =
    | MakeDir | ChmodDir | MakeTemp | ChmodTemp | WriteSome | WriteAll(content: Content)
    | RenameToMarker | RenameToTokens | UnlinkTokens | UnlinkMarker

  /** A rename publishes whatever the temporary file holds at that moment. */
  function Apply(d: Disk, op: FileOp): Disk {
    match op
    case MakeDir => d.(hasDir := true)
    case ChmodDir => d
    case MakeTemp => d.(temp := Blank)
    case ChmodTemp => d
    case WriteSome => d.(temp := Torn)
    case WriteAll(content) => d.(temp := Full(content))
    case RenameToMarker => d.(temp := NoTemp, disabled := true)
    case RenameToTokens =>
      d.(temp := NoTemp,
         tokens := if d.temp.Full? && d.temp.content.RecordText? then d.temp.content.file
                   else Tokens.Single(Tokens.Plain("damaged"), "damaged"))
    case UnlinkTokens => d.(tokens := Tokens.Missing)
    case UnlinkMarker => d.(disabled := false)
  }

  /** The disk after the first `k` operations of a plan. */
  function Perform(d: Disk, plan: seq<FileOp>, k: nat): Disk
    requires k <= |plan|
  {
    if k == 0 then d else Apply(Perform(d, plan, k - 1), plan[k - 1])
  }

  function RevokePlan(): (plan: seq<FileOp>)
    ensures |plan| == 8
  {
    [MakeDir, ChmodDir, MakeTemp, ChmodTemp, WriteSome, WriteAll(MarkerText), RenameToMarker, UnlinkTokens]
  }

  /** `_issue_proxy_token` followed by `_enable_proxy_access`. */
  function IssuePlan(record: Tokens.TokenFile): (plan: seq<FileOp>)
    ensures |plan| == 8
  {
    [MakeDir, ChmodDir, MakeTemp, ChmodTemp, WriteSome, WriteAll(RecordText(record)), RenameToTokens, UnlinkMarker]
  }

  const MARKER_SET := 7       // operations of a revocation after which access is denied
  const TOKENS_GONE := 8
  const RECORD_SET := 7       // operations of an issue after which the new record counts
  const MARKER_GONE := 8

  /** How a file update ends: completely, by an exception, or with the process. */
  datatype Stop = Finish | Raise(after: nat) | Kill(after: nat)

  function Done(stop: Stop, n: nat): (k: nat)
    ensures k <= n
  {
    match stop
    case Finish => n
    case Raise(after) => if after < n then after else n
    case Kill(after) => if after < n then after else n
  }

  predicate Killed(stop: Stop, n: nat) {
    stop.Kill? && stop.after < n
  }

  /** An exception removes the temporary file; a kill leaves it behind. */
  function Stopped(d: Disk, plan: seq<FileOp>, stop: Stop): Disk {
    var k := Done(stop, |plan|);
    var cut := Perform(d, plan, k);
    if k < |plan| && stop.Raise? then cut.(temp := NoTemp) else cut
  }

  // ---------------------------------------------------------------- requests

  datatype Peer = ProxyOwner | Self | Stranger

  datatype Request = Request(peer: Peer, op: string, user: string, credential: string)

  datatype Waiting = AuthWait(credential: string) | IssueWait(credential: string)

  datatype Via = Protocol | LeftProxy | ByToken | ByCache | ByPam | Exception

  datatype Reply = Reply(ok: bool, code: int, via: Via, token: Option<string>)

  /** `joins` are the join scripts that hold a token of this daemon and have not come to their
      last step. They outlive the daemon. */
  datatype State = State(me: string, cache: AuthCache.Cache, disk: Disk, waiting: map<nat, Waiting>, joins: set<nat>)

  /** The file operations of the scripts: leave sets the marker and removes the token file
      itself before it asks for a revocation; join removes the marker in the end, unless it
      stops before. */
  datatype ScriptAct = LeaveMarks | LeaveDropsTokens | JoinEnds(id: nat) | JoinStops(id: nat)

  datatype Event =
    | Arrive(id: nat, request: Request, mono: real, wall: real, stop: Stop)
    | PamReplies(id: nat, ok: bool, code: int, purgeAt: real, storeAt: real,
                 wall: real, token: string, stop: Stop)
    | Restart
    | Script(act: ScriptAct)

  function Answer(ok: bool, code: int, via: Via): Option<Reply> {
    Some(Reply(ok, code, via, None))
  }

  function KeyOf(s: State, credential: string): AuthCache.Key {
    AuthCache.Key(s.me, AuthCache.Hmac(credential))
  }

  function Reborn(s: State): State {
    s.(cache := [], waiting := map[])
  }

  /** `_authenticate` up to the await: no reply means that PAM has been asked. */
  function Authenticate(s: State, id: nat, credential: string, mono: real, wall: real): (State, Option<Reply>) {
    if s.disk.disabled then (s, Answer(false, -8, LeftProxy))
    else if Tokens.LooksLikeToken(credential) then
      match Tokens.Check(s.disk.tokens, credential, wall)
      case Matches => (s, Answer(true, 0, ByToken))
      case Refused => (s, Answer(false, -6, ByToken))
      case Raises => (s, Answer(false, -2, Exception))
    else
      var s' := s.(cache := AuthCache.AfterGet(s.cache, KeyOf(s, credential), mono));
      if AuthCache.Hit(s.cache, KeyOf(s, credential), mono) then (s', Answer(true, 0, ByCache))
      else (s'.(waiting := s.waiting[id := AuthWait(credential)]), None)
  }

  function Revoke(s: State, stop: Stop): (State, Option<Reply>) {
    var s' := s.(disk := Stopped(s.disk, RevokePlan(), stop));
    if Killed(stop, 8) then (Reborn(s'), None)
    else if Done(stop, 8) < 8 then (s', Answer(false, -2, Exception))
    else (s'.(cache := []), Answer(true, 0, LeftProxy))
  }

  function Issue(s: State, code: int, token: string, wall: real, stop: Stop): (State, Option<Reply>) {
    match Tokens.Superseded(s.disk.tokens)
    case None =>
      var s' := s.(disk := Stopped(s.disk, [MakeDir, ChmodDir], stop));
      if Killed(stop, 2) then (Reborn(s'), None) else (s', Answer(false, -2, Exception))
    case Some(previous) =>
      var s' := s.(disk := Stopped(s.disk, IssuePlan(Tokens.NewRecord(token, previous, wall)), stop));
      if Killed(stop, 8) then (Reborn(s'), None)
      else if Done(stop, 8) < 8 then (s', Answer(false, -2, Exception))
      else (s', Some(Reply(true, code, ByPam, Some(token))))
  }

  /** The op dispatch of `handle`. */
  function Dispatch(s: State, id: nat, r: Request, mono: real, wall: real, stop: Stop): (State, Option<Reply>) {
    if r.peer == Stranger then (s, Answer(false, -3, Protocol))
    else if r.op == "capabilities" then (s, Answer(true, 0, Protocol))
    else if r.user != s.me then (s, Answer(false, -1, Protocol))
    else if r.op == "issue-token" then
      if r.peer != Self then (s, Answer(false, -5, Protocol))
      else (s.(waiting := s.waiting[id := IssueWait(r.credential)]), None)
    else if r.op == "revoke-token" then
      if r.peer != Self then (s, Answer(false, -5, Protocol)) else Revoke(s, stop)
    else if r.op != "authenticate" then (s, Answer(false, -7, Protocol))
    else Authenticate(s, id, r.credential, mono, wall)
  }

  /** What follows the await, for the two operations that have one. */
  function Resume(s: State, e: Event): (State, Option<Reply>)
    requires e.PamReplies?
  {
    if e.id !in s.waiting then (s, None) else
      var w := s.waiting[e.id];
      var s1 := s.(waiting := s.waiting - {e.id});
      var s2 := if e.ok then s1.(cache := AuthCache.AfterPut(s.cache, KeyOf(s, w.credential), e.purgeAt, e.storeAt))
                else s1;
      if w.AuthWait? || !e.ok then (s2, Answer(e.ok, e.code, ByPam))
      else
        var (s3, reply) := Issue(s2, e.code, e.token, e.wall, e.stop);
        (if reply.Some? && reply.value.ok then s3.(joins := s3.joins + {e.id}) else s3, reply)
  }

  function ByScript(s: State, act: ScriptAct): State {
    match act
    case LeaveMarks => s.(disk := s.disk.(disabled := true))
    case LeaveDropsTokens => s.(disk := s.disk.(tokens := Tokens.Missing))
    case JoinEnds(id) =>
      if id in s.joins then s.(disk := s.disk.(disabled := false), joins := s.joins - {id}) else s
    case JoinStops(id) => s.(joins := s.joins - {id})
  }

  function Step(s: State, e: Event): (State, Option<Reply>) {
    match e
    case Arrive(id, request, mono, wall, stop) => Dispatch(s, id, request, mono, wall, stop)
    case PamReplies(_, _, _, _, _, _, _, _) => Resume(s, e)
    case Restart => (Reborn(s), None)
    case Script(act) => (ByScript(s, act), None)
  }

  // ---------------------------------------------------------------- the process

  class Daemon {
    const me: string
    const cache: AuthCache.SuccessCache
    var disk: Disk
    var waiting: map<nat, Waiting>
    ghost var joins: set<nat>

    ghost predicate Valid()
      reads this, cache
    {
      cache.Valid()
    }

    ghost function View(): State
      reads this, cache
    {
      State(me, cache.entries, disk, waiting, joins)
    }

    constructor (me: string, disk: Disk, ghost joins: set<nat>)
      ensures Valid() && fresh(cache)
      ensures View() == State(me, [], disk, map[], joins)
    {
      this.me := me;
      this.disk := disk;
      this.joins := joins;
      waiting := map[];
      cache := new AuthCache.SuccessCache();
    }

    /** One file operation, the `n`-th of an update that gets as far as `limit`. */
    method Do(op: FileOp, n: nat, limit: nat) returns (ok: bool)
      modifies this`disk
      ensures ok == (n < limit)
      ensures disk == if ok then Apply(old(disk), op) else old(disk)
    {
      ok := n < limit;
      if ok {
        disk := Apply(disk, op);
      }
    }

    method PrepareDir(limit: nat) returns (ok: bool)
      modifies this`disk
      ensures ok == (limit > 1)
      ensures disk == Perform(old(disk), [MakeDir, ChmodDir], if limit < 2 then limit else 2)
    {
      ghost var plan := [MakeDir, ChmodDir];
      ok := Do(MakeDir, 0, limit);
      assert limit >= 1 ==> disk == Perform(old(disk), plan, 1);
      ok := Do(ChmodDir, 1, limit);
    }

    /** Writes the temporary file; every step after the limit fails like the first one. */
    method WriteTemp(content: Content, limit: nat) returns (ok: bool)
      modifies this`disk
      ensures ok == (limit > 5)
      ensures var plan := [MakeDir, ChmodDir, MakeTemp, ChmodTemp, WriteSome, WriteAll(content)];
              disk == Perform(old(disk), plan, if limit < 6 then limit else 6)
    {
      ghost var plan := [MakeDir, ChmodDir, MakeTemp, ChmodTemp, WriteSome, WriteAll(content)];
      ok := Do(MakeDir, 0, limit);
      assert limit >= 1 ==> disk == Perform(old(disk), plan, 1);
      ok := Do(ChmodDir, 1, limit);
      assert limit >= 2 ==> disk == Perform(old(disk), plan, 2);
      ok := Do(MakeTemp, 2, limit);
      assert limit >= 3 ==> disk == Perform(old(disk), plan, 3);
      ok := Do(ChmodTemp, 3, limit);
      assert limit >= 4 ==> disk == Perform(old(disk), plan, 4);
      ok := Do(WriteSome, 4, limit);
      assert limit >= 5 ==> disk == Perform(old(disk), plan, 5);
      ok := Do(WriteAll(content), 5, limit);
    }

    /** The process is gone; the next one starts with an empty cache and no requests. */
    method Die()
      modifies this, cache
      ensures Valid() && View() == Reborn(old(View()))
    {
      cache.Clear();
      waiting := map[];
    }

    method DisableProxyAccess(stop: Stop) returns (completed: bool)
      requires Valid()
      modifies this, cache
      ensures Valid()
      ensures completed == (Done(stop, 8) == 8)
      ensures View() == Revoke(old(View()), stop).0
    {
      var limit := Done(stop, 8);
      PlanPrefix(disk, RevokePlan(), MarkerText);
      completed := WriteTemp(MarkerText, limit);
      completed := Do(RenameToMarker, 6, limit);
      completed := Do(UnlinkTokens, 7, limit);
      assert disk == Perform(old(disk), RevokePlan(), limit);
      if completed {
        cache.Clear();
      } else if stop.Raise? {
        disk := disk.(temp := NoTemp);
      } else {
        Die();
      }
    }

    /** Replaces the token record and, once that is done, clears the leave marker. */
    method IssueProxyToken(token: string, wall: real, stop: Stop, ghost code: int) returns (completed: bool)
      requires Valid()
      modifies this, cache
      ensures Valid()
      ensures completed == (Tokens.Superseded(old(disk).tokens).Some? && Done(stop, 8) == 8)
      ensures View() == Issue(old(View()), code, token, wall, stop).0
    {
      var previous := Tokens.Superseded(disk.tokens);
      if previous.None? {
        completed := PrepareDir(Done(stop, 2));
        if !completed && stop.Raise? {
          disk := disk.(temp := NoTemp);
        } else if !completed {
          Die();
        }
        return false;
      }
      var record := Tokens.NewRecord(token, previous.value, wall);
      var limit := Done(stop, 8);
      PlanPrefix(disk, IssuePlan(record), RecordText(record));
      completed := WriteTemp(RecordText(record), limit);
      completed := Do(RenameToTokens, 6, limit);
      completed := Do(UnlinkMarker, 7, limit);
      assert disk == Perform(old(disk), IssuePlan(record), limit);
      if !completed && stop.Raise? {
        disk := disk.(temp := NoTemp);
      } else if !completed {
        Die();
      }
    }

    method AuthenticateUntilPam(id: nat, credential: string, mono: real, wall: real) returns (reply: Option<Reply>)
      requires Valid()
      modifies this, cache
      ensures Valid()
      ensures (View(), reply) == Authenticate(old(View()), id, credential, mono, wall)
    {
      if disk.disabled {
        return Answer(false, -8, LeftProxy);
      }
      if Tokens.LooksLikeToken(credential) {
        var verdict := Tokens.Check(disk.tokens, credential, wall);
        return match verdict
          case Matches => Answer(true, 0, ByToken)
          case Refused => Answer(false, -6, ByToken)
          case Raises => Answer(false, -2, Exception);
      }
      var hit := cache.Get(me, credential, mono);
      if hit {
        return Answer(true, 0, ByCache);
      }
      waiting := waiting[id := AuthWait(credential)];
      return None;
    }

    method HandleArrival(id: nat, r: Request, mono: real, wall: real, stop: Stop) returns (reply: Option<Reply>)
      requires Valid()
      modifies this, cache
      ensures Valid()
      ensures (View(), reply) == Dispatch(old(View()), id, r, mono, wall, stop)
    {
      if r.peer == Stranger {
        return Answer(false, -3, Protocol);
      }
      if r.op == "capabilities" {
        return Answer(true, 0, Protocol);
      }
      if r.user != me {
        return Answer(false, -1, Protocol);
      }
      if r.op == "issue-token" {
        if r.peer != Self {
          return Answer(false, -5, Protocol);
        }
        waiting := waiting[id := IssueWait(r.credential)];
        return None;
      }
      if r.op == "revoke-token" {
        if r.peer != Self {
          return Answer(false, -5, Protocol);
        }
        var completed := DisableProxyAccess(stop);
        return if completed then Answer(true, 0, LeftProxy)
               else if stop.Kill? then None else Answer(false, -2, Exception);
      }
      if r.op != "authenticate" {
        return Answer(false, -7, Protocol);
      }
      reply := AuthenticateUntilPam(id, r.credential, mono, wall);
    }

    method HandlePamReply(e: Event) returns (reply: Option<Reply>)
      requires Valid() && e.PamReplies?
      modifies this, cache
      ensures Valid()
      ensures (View(), reply) == Resume(old(View()), e)
    {
      if e.id !in waiting {
        return None;
      }
      var w := waiting[e.id];
      waiting := waiting - {e.id};
      if e.ok {
        cache.Put(me, w.credential, e.purgeAt, e.storeAt);
      }
      if w.AuthWait? || !e.ok {
        return Answer(e.ok, e.code, ByPam);
      }
      var readable := Tokens.Superseded(disk.tokens).Some?;
      var completed := IssueProxyToken(e.token, e.wall, e.stop, e.code);
      if completed {
        joins := joins + {e.id};
      }
      return if completed then Some(Reply(true, e.code, ByPam, Some(e.token)))
             else if Killed(e.stop, if readable then 8 else 2) then None
             else Answer(false, -2, Exception);
    }
  }

  lemma {:induction false} PerformPrefix(d: Disk, plan: seq<FileOp>, short: seq<FileOp>, k: nat)
    requires k <= |short| && short <= plan
    ensures Perform(d, plan, k) == Perform(d, short, k)
  {
    if k > 0 {
      PerformPrefix(d, plan, short, k - 1);
    }
  }

  lemma PlanPrefix(d: Disk, plan: seq<FileOp>, content: Content)
    requires var short := [MakeDir, ChmodDir, MakeTemp, ChmodTemp, WriteSome, WriteAll(content)]; short <= plan
    ensures var short := [MakeDir, ChmodDir, MakeTemp, ChmodTemp, WriteSome, WriteAll(content)];
            forall k: nat :: k <= 6 ==> Perform(d, plan, k) == Perform(d, short, k)
  {
    var short := [MakeDir, ChmodDir, MakeTemp, ChmodTemp, WriteSome, WriteAll(content)];
    forall k: nat | k <= 6
      ensures Perform(d, plan, k) == Perform(d, short, k)
    {
      PerformPrefix(d, plan, short, k);
    }
  }
}
