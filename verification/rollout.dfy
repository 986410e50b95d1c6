/** The staged updater, modules/repo_auto_update/updater.sh: from the manifest to the three
    control files, with a crash possible between any two of their writes.
 */
module Rollout {
  import opened Options
  import opened RolloutManifest

  // ---------------------------------------------------------------- one run as a function

  datatype SequenceFile = NoFile | Number(n: nat) | Garbage

  /** The control files (an absent revision or pending file reads as ""), and the targets
      that the apply adapter has been run for. */
  datatype State = State(revision: string, sequence: SequenceFile, pending: string, applied: seq<string>)

  /** What git says about the fetched repository. `isAncestor(a, b)` is reflexive. */
  datatype Repo = Repo(present: string -> bool, isAncestor: (string, string) -> bool, onBranch: string -> bool)

  /** One start of the updater. `ready` sums up configuration, lock, fetch and checkout;
      `writes` is how many control files it gets to write before it is killed. */
  datatype Attempt = Attempt(doc: Document, ready: bool, repo: Repo, verifies: bool, applies: bool, writes: nat)

  datatype Outcome = NotReady | Paused | Idle | AlreadyStaged | Rejected | Staged

  datatype Write = SetRevision(target: string) | SetSequence(n: nat) | SetPending(target: string)

  function Apply(s: State, w: Write): State {
    match w
    case SetRevision(target) => s.(revision := target)
    case SetSequence(n) => s.(sequence := Number(n))
    case SetPending(target) => s.(pending := target)
  }

  function ApplyAll(s: State, ws: seq<Write>): State
    decreases |ws|
  {
    if ws == [] then s else ApplyAll(Apply(s, ws[0]), ws[1..])
  }

  function Cut(ws: seq<Write>, n: nat): seq<Write> {
    if n < |ws| then ws[..n] else ws
  }

  function Recorded(s: State): nat {
    if s.sequence.Number? then s.sequence.n else 0
  }

  /** The ancestry rule between the target and the revision it would replace. */
  predicate Replaceable(m: Manifest, installed: string, repo: Repo) {
    installed == "" || m.allowRollback || (repo.present(installed) && !repo.isAncestor(m.target, installed))
  }

  predicate Installable(s: State, m: Manifest, repo: Repo) {
    && m.sequence >= Recorded(s)
    && !(m.sequence == Recorded(s) && Recorded(s) != 0)
    && repo.present(m.target) && repo.onBranch(m.target)
    && Replaceable(m, s.revision, repo)
  }

  function Decide(s: State, a: Attempt): Outcome {
    if !a.ready then NotReady
    else
      match Parse(a.doc)
      case None => Rejected
      case Some(m) =>
        if !m.enabled then Paused
        else if m.target == "" then Idle
        else if s.sequence == Garbage then Rejected
        else if s.revision == m.target then AlreadyStaged
        else if !Installable(s, m, a.repo) || !a.verifies || !a.applies then Rejected
        else Staged
  }

  function Target(a: Attempt): Manifest
    requires Parse(a.doc).Some?
  {
    Parse(a.doc).value
  }

  function Writes(s: State, a: Attempt): (ws: seq<Write>)
    ensures ws != [] ==> Parse(a.doc).Some?
  {
    match Decide(s, a)
    case AlreadyStaged =>
      if Target(a).sequence > Recorded(s) then [SetSequence(Target(a).sequence)] else []
    case Staged => [SetRevision(Target(a).target), SetSequence(Target(a).sequence), SetPending(Target(a).target)]
    case _ => []
  }

  predicate Applies(s: State, a: Attempt) {
    && a.ready && Parse(a.doc).Some? && Target(a).enabled && Target(a).target != ""
    && s.sequence != Garbage && s.revision != Target(a).target
    && Installable(s, Target(a), a.repo) && a.verifies
  }

  function Step(s: State, a: Attempt): State {
    var s' := if Applies(s, a) then s.(applied := s.applied + [Target(a).target]) else s;
    ApplyAll(s', Cut(Writes(s, a), a.writes))
  }

  // ---------------------------------------------------------------- the script

  class Updater {
    var revision: string
    var sequence: SequenceFile
    var pending: string
    var applied: seq<string>
    var left: nat            // control-file writes before the process is killed

    ghost function View(): State
      reads this
    {
      State(revision, sequence, pending, applied)
    }

    constructor (s: State)
      ensures View() == s
    {
      revision, sequence, pending, applied, left := s.revision, s.sequence, s.pending, s.applied, 0;
    }

    /** `atomic_write`: the file changes as a whole or, after a kill, not at all. */
    method AtomicWrite(w: Write)
      modifies this`revision, this`sequence, this`pending, this`left
      ensures View() == if old(left) > 0 then Apply(old(View()), w) else old(View())
      ensures left == if old(left) > 0 then old(left) - 1 else 0
    {
      if left > 0 {
        match w {
          case SetRevision(target) => revision := target;
          case SetSequence(n) => sequence := Number(n);
          case SetPending(target) => pending := target;
        }
        left := left - 1;
      }
    }

    /** The three writes after a successful application. */
    method RecordInstalled(target: string, n: nat)
      modifies this`revision, this`sequence, this`pending, this`left
      ensures View() == ApplyAll(old(View()), Cut([SetRevision(target), SetSequence(n), SetPending(target)], old(left)))
    {
      AtomicWrite(SetRevision(target));
      AtomicWrite(SetSequence(n));
      AtomicWrite(SetPending(target));
      ThreeWrites(old(View()), SetRevision(target), SetSequence(n), SetPending(target), old(left));
    }

    /** The script from the parser's five lines on. */
    method Run(a: Attempt) returns (outcome: Outcome)
      modifies this
      ensures outcome == Decide(old(View()), a)
      ensures View() == Step(old(View()), a)
    {
      left := a.writes;
      if !a.ready {
        return NotReady;
      }
      var parsed := Parse(a.doc);
      if parsed.None? {
        return Rejected;
      }
      UpdaterReadsBack(parsed.value);
      var rollout := ReadRollout(MapFile(Output(parsed.value)));
      if rollout.None? {
        return Rejected;
      }
      var m := rollout.value;
      if !m.enabled {
        return Paused;
      }
      if m.target == "" {
        return Idle;
      }
      if sequence == Garbage {
        return Rejected;
      }
      var installedSequence := if sequence.Number? then sequence.n else 0;
      if revision == m.target {
        OneWrite(View(), SetSequence(m.sequence), a.writes);
        if m.sequence > installedSequence {
          AtomicWrite(SetSequence(m.sequence));
        }
        return AlreadyStaged;
      }
      if m.sequence < installedSequence {
        return Rejected;
      }
      if m.sequence == installedSequence && installedSequence != 0 {
        return Rejected;
      }
      if !a.repo.present(m.target) || !a.repo.onBranch(m.target) {
        return Rejected;
      }
      if revision != "" {
        if !a.repo.present(revision) {
          if !m.allowRollback {
            return Rejected;
          }
        } else if a.repo.isAncestor(m.target, revision) && !m.allowRollback {
          return Rejected;
        }
      }
      if !a.verifies {
        return Rejected;
      }
      applied := applied + [m.target];
      if !a.applies {
        return Rejected;
      }
      RecordInstalled(m.target, m.sequence);
      return Staged;
    }
  }

  lemma OneWrite(s: State, x: Write, n: nat)
    ensures ApplyAll(s, Cut([x], n)) == if n == 0 then s else Apply(s, x)
    ensures ApplyAll(s, Cut([], n)) == s
  {
    assert [x][..0] == [] && [x][1..] == [];
  }

  lemma ThreeWrites(s: State, x: Write, y: Write, z: Write, n: nat)
    ensures ApplyAll(s, Cut([x, y, z], n)) ==
            if n == 0 then s else if n == 1 then Apply(s, x)
            else if n == 2 then Apply(Apply(s, x), y) else Apply(Apply(Apply(s, x), y), z)
  {
    assert [x, y, z][..0] == [] && [x, y, z][..1] == [x] && [x, y, z][..2] == [x, y];
    assert [x, y, z][1..] == [y, z] && [x, y][1..] == [y];
    assert ApplyAll(s, [x]) == Apply(s, x);
    assert ApplyAll(Apply(s, x), [y]) == Apply(Apply(s, x), y);
    assert ApplyAll(Apply(Apply(s, x), y), [z]) == Apply(Apply(Apply(s, x), y), z);
  }

  // ---------------------------------------------------------------- every single run

  /** The control files after a run, by its outcome and the number of writes it got to do. */
  lemma StepFacts(s: State, a: Attempt)
    ensures var s' := Step(s, a);
            match Decide(s, a)
            case Staged =>
              && s'.revision == (if a.writes >= 1 then Target(a).target else s.revision)
              && s'.sequence == (if a.writes >= 2 then Number(Target(a).sequence) else s.sequence)
              && s'.pending == (if a.writes >= 3 then Target(a).target else s.pending)
              && s'.applied == s.applied + [Target(a).target]
              && Target(a).sequence > Recorded(s)
            case AlreadyStaged =>
              && s'.revision == s.revision && s'.pending == s.pending && s'.applied == s.applied
              && s'.sequence == (if a.writes >= 1 && Target(a).sequence > Recorded(s)
                                 then Number(Target(a).sequence) else s.sequence)
            case _ => s'.revision == s.revision && s'.sequence == s.sequence && s'.pending == s.pending
  {
    match Decide(s, a)
    case Staged =>
      var m := Target(a);
      ThreeWrites(s.(applied := s.applied + [m.target]),
                  SetRevision(m.target), SetSequence(m.sequence), SetPending(m.target), a.writes);
    case AlreadyStaged =>
      OneWrite(s, SetSequence(Target(a).sequence), a.writes);
    case _ =>
  }

  /** The recorded sequence never decreases; the revision changes only for a sequence strictly
      above the recorded one, which needs the manifest's positive-sequence rule; and without
      `allow_rollback` the new target is not an ancestor of the revision it replaces. */
  lemma StepIsMonotone(s: State, a: Attempt)
    ensures var s' := Step(s, a);
            && Recorded(s') >= Recorded(s)
            && (s.sequence != Garbage ==> s'.sequence != Garbage)
            && (s'.revision != s.revision ==>
                  && Parse(a.doc).Some?
                  && s'.revision == Target(a).target
                  && Target(a).sequence > Recorded(s)
                  && (s.revision != "" && !Target(a).allowRollback ==>
                        a.repo.present(s.revision) && !a.repo.isAncestor(s'.revision, s.revision)))
  {
    StepFacts(s, a);
  }

  /** Everything that an attempt needs before its target is applied. */
  ghost predicate Accepts(s: State, a: Attempt, m: Manifest) {
    && a.ready && Parse(a.doc) == Some(m)
    && m.enabled && m.target != "" && m.target != s.revision
    && s.sequence != Garbage && m.sequence > Recorded(s)
    && a.repo.present(m.target) && a.repo.onBranch(m.target)
    && (s.revision == "" || m.allowRollback || (a.repo.present(s.revision) && !a.repo.isAncestor(m.target, s.revision)))
    && a.verifies
  }

  /** A target is applied exactly if it is accepted, and that includes its verification; it
      becomes the installed revision exactly if it could be applied as well. */
  lemma {:induction false} InstalledIffAccepted(s: State, a: Attempt)
    ensures Step(s, a).applied == s.applied
            || exists m :: Accepts(s, a, m) && Step(s, a).applied == s.applied + [m.target]
    ensures Step(s, a).applied != s.applied <==> exists m :: Accepts(s, a, m)
    ensures Step(s, a).revision != s.revision <==> a.applies && a.writes >= 1 && exists m :: Accepts(s, a, m)
    ensures forall m :: Accepts(s, a, m) && a.applies && a.writes >= 1 ==> Step(s, a).revision == m.target
  {
    StepFacts(s, a);
    WritesLeaveApplied(if Applies(s, a) then s.(applied := s.applied + [Target(a).target]) else s,
                       Cut(Writes(s, a), a.writes));
    if Applies(s, a) {
      assert Accepts(s, a, Target(a));
    }
  }

  lemma {:induction false} WritesLeaveApplied(s: State, ws: seq<Write>)
    ensures ApplyAll(s, ws).applied == s.applied
    decreases |ws|
  {
    if ws != [] {
      WritesLeaveApplied(Apply(s, ws[0]), ws[1..]);
    }
  }

  /** A rollback that the manifest allows is installed although its target is an ancestor. */
  lemma AllowedRollbackInstalls(s: State, a: Attempt, m: Manifest)
    requires a.ready && Parse(a.doc) == Some(m) && m.enabled && m.target != "" && m.target != s.revision
    requires s.sequence != Garbage && m.sequence > Recorded(s)
    requires a.repo.present(m.target) && a.repo.onBranch(m.target) && a.repo.isAncestor(m.target, s.revision)
    requires m.allowRollback && a.verifies && a.applies && a.writes >= 1
    ensures Step(s, a).revision == m.target
  {
    assert Accepts(s, a, m);
    InstalledIffAccepted(s, a);
  }

  // ---------------------------------------------------------------- every sequence of runs

  function Run(s: State, h: seq<Attempt>): State {
    if h == [] then s else Step(Run(s, h[..|h| - 1]), h[|h| - 1])
  }

  function At(s: State, h: seq<Attempt>, i: nat): State
    requires i <= |h|
  {
    Run(s, h[..i])
  }

  lemma AtNext(s: State, h: seq<Attempt>, i: nat)
    requires i < |h|
    ensures At(s, h, i + 1) == Step(At(s, h, i), h[i])
  {
    assert h[..i + 1][..i] == h[..i];
  }

  lemma {:induction false} SequenceNeverDecreases(s: State, h: seq<Attempt>, i: nat, j: nat)
    requires i <= j <= |h|
    ensures Recorded(At(s, h, i)) <= Recorded(At(s, h, j))
    decreases j
  {
    if i < j {
      SequenceNeverDecreases(s, h, i, j - 1);
      AtNext(s, h, j - 1);
      StepIsMonotone(At(s, h, j - 1), h[j - 1]);
    }
  }

  /** Run `i` of the series accepts the target: that includes its verification. */
  ghost predicate AcceptsInRun(s: State, h: seq<Attempt>, i: nat, target: string)
    requires i < |h|
  {
    exists m :: Accepts(At(s, h, i), h[i], m) && m.target == target
  }

  lemma AcceptedEarlier(s: State, h: seq<Attempt>, i: nat, n: nat, target: string)
    requires i < n <= |h| && AcceptsInRun(s, h[..n], i, target)
    ensures AcceptsInRun(s, h, i, target)
  {
    assert h[..n][..i] == h[..i];
  }

  /** Over every series of runs: whatever was applied was accepted, verification included, in a
      run for that target. */
  lemma {:induction false} AppliedWereVerified(s: State, h: seq<Attempt>, target: string)
    requires target in Run(s, h).applied && target !in s.applied
    ensures exists i :: 0 <= i < |h| && AcceptsInRun(s, h, i, target)
  {
    var n := |h| - 1;
    if target in Run(s, h[..n]).applied {
      AppliedWereVerified(s, h[..n], target);
      var i :| 0 <= i < n && AcceptsInRun(s, h[..n], i, target);
      AcceptedEarlier(s, h, i, n, target);
    } else {
      InstalledIffAccepted(Run(s, h[..n]), h[n]);
      assert AcceptsInRun(s, h, n, target);
    }
  }

  /** Over every series of runs: a revision that was not there from the start was accepted and
      applied in a run for it. */
  lemma {:induction false} InstalledWereVerified(s: State, h: seq<Attempt>)
    requires Run(s, h).revision != s.revision
    ensures exists i :: 0 <= i < |h| && h[i].applies && AcceptsInRun(s, h, i, Run(s, h).revision)
  {
    var n, revision := |h| - 1, Run(s, h).revision;
    InstalledIffAccepted(Run(s, h[..n]), h[n]);
    if revision == Run(s, h[..n]).revision {
      InstalledWereVerified(s, h[..n]);
      var i :| 0 <= i < n && h[..n][i].applies && AcceptsInRun(s, h[..n], i, revision);
      AcceptedEarlier(s, h, i, n, revision);
    } else {
      assert AcceptsInRun(s, h, n, revision);
    }
  }

  /** Linear history: in every fetch, git's ancestry among the commits that are present is the
      order of their positions. */
  ghost predicate Linear(h: seq<Attempt>, position: string -> int) {
    forall i, x, y :: 0 <= i < |h| && h[i].repo.present(x) && h[i].repo.present(y) ==>
      (h[i].repo.isAncestor(x, y) <==> position(x) <= position(y))
  }

  ghost predicate NoRollback(h: seq<Attempt>, i: nat, j: nat)
    requires j <= |h|
  {
    forall k :: i <= k < j && Parse(h[k].doc).Some? ==> !Target(h[k]).allowRollback
  }

  /** On linear history the installed revision only ever moves forward until a rollback is
      allowed, whatever crashes happen between the control-file writes. */
  lemma {:induction false} RevisionsAdvance(s: State, h: seq<Attempt>, position: string -> int, i: nat, j: nat)
    requires i <= j <= |h| && Linear(h, position) && NoRollback(h, i, j)
    ensures At(s, h, i).revision == At(s, h, j).revision || At(s, h, i).revision == ""
            || position(At(s, h, i).revision) < position(At(s, h, j).revision)
    ensures At(s, h, i).revision != "" ==> At(s, h, j).revision != ""
    decreases j
  {
    if i < j {
      RevisionsAdvance(s, h, position, i, j - 1);
      AtNext(s, h, j - 1);
      StepIsMonotone(At(s, h, j - 1), h[j - 1]);
      StepFacts(At(s, h, j - 1), h[j - 1]);
    }
  }

  // ---------------------------------------------------------------- recovery

  /** Once the revision file is written, a second run of the same manifest finishes the
      sequence write without verifying or applying anything again, however the first run was
      cut short. It does not write the pending marker, which stays as the crash left it. */
  lemma RerunFinishes(s: State, a: Attempt, b: Attempt)
    requires Decide(s, a) == Staged && a.writes >= 1
    requires b.doc == a.doc && b.ready && b.writes >= 1
    ensures var crashed, done := Step(s, a), Step(Step(s, a), b);
            && Decide(crashed, b) == AlreadyStaged
            && done.revision == Target(a).target && done.sequence == Number(Target(a).sequence)
            && done.applied == crashed.applied
            && done.pending == (if a.writes >= 3 then Target(a).target else s.pending)
  {
    StepFacts(s, a);
    StepFacts(Step(s, a), b);
  }

  /** After a complete run, running the same manifest again changes none of the files. */
  lemma RerunIsIdempotent(s: State, a: Attempt, b: Attempt)
    requires Decide(s, a) == Staged && a.writes >= 3
    requires b.doc == a.doc && b.ready
    ensures Step(Step(s, a), b) == Step(s, a)
  {
    StepFacts(s, a);
    StepFacts(Step(s, a), b);
  }

  // ---------------------------------------------------------------- replaying old manifests

  /** A manifest for another target, acceptable but for its sequence number. */
  ghost predicate OtherwiseInstallable(s: State, b: Attempt) {
    && b.ready && Parse(b.doc).Some? && Target(b).enabled && Target(b).target != ""
    && Target(b).target != s.revision && b.verifies && b.applies
    && b.repo.present(Target(b).target) && b.repo.onBranch(Target(b).target)
    && Replaceable(Target(b), s.revision, b.repo)
  }

  /** Anti-replay across a crash: after a run that replaced the revision, a later manifest for
      another target gets through exactly when its sequence is above the new one, if the first
      run also recorded its sequence, and above the old recorded one if it did not. */
  lemma NextManifestNeeds(s: State, a: Attempt, b: Attempt)
    requires Decide(s, a) == Staged && a.writes >= 1
    requires OtherwiseInstallable(Step(s, a), b)
    ensures Decide(Step(s, a), b) == Staged <==>
            Target(b).sequence > (if a.writes >= 2 then Target(a).sequence else Recorded(s))
  {
    StepFacts(s, a);
  }

  /** No run of `h` was killed between its revision write and its sequence write. */
  ghost predicate NeverTorn(s: State, h: seq<Attempt>) {
    forall i :: 0 <= i < |h| && Decide(At(s, h, i), h[i]) == Staged ==> h[i].writes != 1
  }

  /** Attempt `i` replaced the installed revision. */
  ghost predicate Installs(s: State, h: seq<Attempt>, i: nat)
    requires i < |h|
  {
    Decide(At(s, h, i), h[i]) == Staged && h[i].writes >= 1
  }

  /** Without such a crash the sequences of successive installations strictly increase, so an
      older manifest can never be replayed. */
  lemma InstalledSequencesIncrease(s: State, h: seq<Attempt>, i: nat, j: nat)
    requires i < j < |h| && NeverTorn(s, h)
    requires Installs(s, h, i) && Installs(s, h, j)
    ensures Target(h[i]).sequence < Target(h[j]).sequence
  {
    AtNext(s, h, i);
    StepFacts(At(s, h, i), h[i]);
    SequenceNeverDecreases(s, h, i + 1, j);
    StepFacts(At(s, h, j), h[j]);
  }

  function Document(target: string, sequence: nat): Document {
    Object(map["schema" := Int(1), "enabled" := Bool(true), "target" := Str(target),
               "activation" := Str("next-restart"), "sequence" := Int(sequence),
               "allow_rollback" := Bool(false)])
  }

  function Healthy(target: string, sequence: nat, writes: nat): Attempt {
    var repo := Repo((x: string) => true, (x: string, y: string) => x == y, (x: string) => true);
    Attempt(Document(target, sequence), true, repo, true, true, writes)
  }

  /** With one, it can: after a crash behind the revision write of sequence 5, a manifest with
      the older sequence 4 still installs another target. */
  lemma TornRunAllowsOlderManifest(x: string, y: string)
    requires IsCommitId(x) && IsCommitId(y) && x != y
    ensures var s := State("", NoFile, "", []);
            var h := [Healthy(x, 5, 1), Healthy(y, 4, 3)];
            && Installs(s, h, 0) && Installs(s, h, 1)
            && Target(h[1]).sequence < Target(h[0]).sequence
            && Run(s, h).revision == y
  {
    var s := State("", NoFile, "", []);
    var first, second := Healthy(x, 5, 1), Healthy(y, 4, 3);
    var h := [first, second];
    assert Parse(first.doc) == Some(Manifest(true, x, 5, false));
    assert Parse(second.doc) == Some(Manifest(true, y, 4, false));
    assert h[..0] == [] && h[..2] == h;
    AtNext(s, h, 0);
    AtNext(s, h, 1);
    StepFacts(s, first);
    StepFacts(Step(s, first), second);
  }
}
