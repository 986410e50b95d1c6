/** The full-duplex relay of auth_proxy.py: `_pipe` and `_relay`, two tasks and a controller
    whose steps interleave freely under a real-valued clock.
 */
module Relay {
  import opened Options
  import opened Bytes

  const READ_LIMIT: nat := 65536

  // ---------------------------------------------------------------- one direction

  datatype Phase = Reading | Draining | Closing | Done

  /** `input` is everything the source delivers before its end of file; `base` is the value
      of the counter cell when the direction starts. */
  datatype Pipe = Pipe(input: bytes, base: nat, read: nat, output: bytes, counter: nat, eofs: nat, phase: Phase)

  /** How an await of `_pipe` ends. */
  datatype Outcome =
    | Chunk(n: nat)            // the read returns n bytes
    | End(writable: bool)      // the read returns the end of file
    | Drained                  // the drain succeeds
    | Failed                   // a reset, another error, or the timeout of the last drain
    | Interrupted              // it is cancelled

  function Start(input: bytes, base: nat): Pipe {
    Pipe(input, base, 0, [], base, 0, Reading)
  }

  predicate Possible(p: Pipe, o: Outcome) {
    match o
    case Chunk(n) => p.phase == Reading && 1 <= n <= READ_LIMIT && p.read + n <= |p.input|
    case End(_) => p.phase == Reading && p.read == |p.input|
    case Drained => p.phase == Draining || p.phase == Closing
    case Failed => p.phase != Done
    case Interrupted => p.phase != Done
  }

  function Advance(p: Pipe, o: Outcome): Pipe
    requires Possible(p, o)
  {
    match o
    case Chunk(n) =>
      p.(counter := p.counter + n, output := p.output + p.input[p.read..p.read + n],
         read := p.read + n, phase := Draining)
    case End(writable) => if writable then p.(eofs := p.eofs + 1, phase := Closing) else p.(phase := Done)
    case Drained => p.(phase := if p.phase == Draining then Reading else Done)
    case Failed => p.(phase := Done)
    case Interrupted => p.(phase := Done)
  }

  /** The direction follows a sequence of outcomes, one for each await it reaches. */
  ghost predicate Follows(p: Pipe, os: seq<Outcome>, q: Pipe)
    decreases |os|
  {
    if os == [] then q == p else Possible(p, os[0]) && Follows(Advance(p, os[0]), os[1..], q)
  }

  /** What every direction keeps: a prefix of the input is out, the counter has grown by its
      length, and the end of file is written once at most, after the whole input. */
  ghost predicate Forwards(p: Pipe) {
    && p.read <= |p.input|
    && p.output == p.input[..p.read]
    && p.counter == p.base + |p.output|
    && p.eofs <= 1
    && (p.eofs == 1 ==> p.output == p.input && (p.phase == Closing || p.phase == Done))
  }

  lemma AdvanceForwards(p: Pipe, o: Outcome)
    requires Forwards(p) && Possible(p, o)
    ensures Forwards(Advance(p, o))
    ensures Advance(p, o).input == p.input && Advance(p, o).base == p.base
  {
  }

  lemma {:induction false} FollowsForwards(p: Pipe, os: seq<Outcome>, q: Pipe)
    requires Forwards(p) && Follows(p, os, q)
    ensures Forwards(q) && q.input == p.input && q.base == p.base
    decreases |os|
  {
    if os != [] {
      AdvanceForwards(p, os[0]);
      FollowsForwards(Advance(p, os[0]), os[1..], q);
    }
  }

  /** How many bytes the reads of these outcomes bring. */
  function Total(os: seq<Outcome>): nat {
    if os == [] then 0 else (if os[0].Chunk? then os[0].n else 0) + Total(os[1..])
  }

  /** Nothing is held back: what has been read is out, all of it, and a writable end of file
      has been passed on. */
  lemma {:induction false} WhatIsForwarded(p: Pipe, os: seq<Outcome>, q: Pipe)
    requires Forwards(p) && Follows(p, os, q)
    ensures q.read == p.read + Total(os) <= |q.input| && q.output == q.input[..p.read + Total(os)]
    ensures q.eofs == 1 <==> p.eofs == 1 || End(true) in os
    decreases |os|
  {
    FollowsForwards(p, os, q);
    if os != [] {
      AdvanceForwards(p, os[0]);
      WhatIsForwarded(Advance(p, os[0]), os[1..], q);
      assert os == [os[0]] + os[1..];
    }
  }

  lemma DoneIsLast(p: Pipe, os: seq<Outcome>, q: Pipe)
    requires p.phase == Done && Follows(p, os, q)
    ensures q == p
  {
  }

  /** The destination writer. */
  class Sink {
    var data: bytes
    var eofs: nat

    constructor ()
      ensures data == [] && eofs == 0
    {
      data, eofs := [], 0;
    }
  }

  /** `_pipe` against the outcomes of its awaits, which it takes from the front; `q` is where
      they lead. When they run out it is left waiting. */
  method RunPipe(input: bytes, dst: Sink, counter: array<nat>, outcomes: seq<Outcome>, ghost q: Pipe)
    returns (finished: bool)
    requires counter.Length == 1 && dst.data == [] && dst.eofs == 0
    requires Follows(Start(input, counter[0]), outcomes, q)
    modifies dst, counter
    ensures dst.data == q.output && dst.eofs == q.eofs && counter[0] == q.counter
    ensures dst.data <= input && counter[0] == old(counter[0]) + |dst.data|
    ensures Total(outcomes) <= |input| && dst.data == input[..Total(outcomes)]
    ensures dst.eofs <= 1 && (dst.eofs == 1 ==> dst.data == input)
    ensures dst.eofs == 1 <==> End(true) in outcomes
    ensures finished <==> q.phase == Done
  {
    var todo := outcomes;
    var read := 0;
    ghost var p := Start(input, counter[0]);
    FollowsForwards(p, todo, q);
    WhatIsForwarded(p, todo, q);
    while true
      invariant Follows(p, todo, q) && p.phase == Reading && p.input == input && p.read == read
      invariant dst.data == p.output && dst.eofs == p.eofs && counter[0] == p.counter
      decreases |todo|
    {
      if todo == [] {
        return false;
      }
      var got := todo[0];
      p, todo := Advance(p, got), todo[1..];
      match got {
        case Chunk(n) =>
          counter[0] := counter[0] + n;
          dst.data := dst.data + input[read..read + n];
          read := read + n;
          if todo == [] {
            return false;
          }
          var drained := todo[0];
          p, todo := Advance(p, drained), todo[1..];
          if drained != Drained {
            DoneIsLast(p, todo, q);
            return true;
          }
        case End(writable) =>
          if writable {
            dst.eofs := dst.eofs + 1;
            if todo == [] {
              return false;
            }
            p, todo := Advance(p, todo[0]), todo[1..];
          }
          DoneIsLast(p, todo, q);
          return true;
        case Failed =>
          DoneIsLast(p, todo, q);
          return true;
        case Interrupted =>
          DoneIsLast(p, todo, q);
          return true;
      }
    }
  }

  // ---------------------------------------------------------------- both directions

  datatype Task = Task(pipe: Pipe, deadline: real, cancelled: bool)

  datatype Control = WaitFirst | WaitSecond(deadline: real) | Gathering | CleanUp | Returned

  /** The timeouts of the configuration. */
  datatype Limits = Limits(halfClose: real, close: real)

  /** `eofAt` and `doneAt` remember when the first end of file was read and when the
      controller saw the first task finish; `outer` that the relay itself was cancelled. */
  datatype State = State(left: Task, right: Task, control: Control, now: real,
                         eofAt: Option<real>, doneAt: Option<real>, outer: bool)

  datatype Step =
    | Move(onLeft: bool, o: Outcome)
    | FirstDone | SecondDone | SecondTimeout | Gathered
    | OuterCancel | CleanedUp
    | Tick(d: real)

  predicate IsDone(t: Task) {
    t.pipe.phase == Done
  }

  function Cancel(t: Task): Task {
    if IsDone(t) then t else t.(cancelled := true)
  }

  /** A cancelled task takes no other step than to end. */
  predicate CanMove(t: Task, o: Outcome) {
    && Possible(t.pipe, o)
    && (o.Interrupted? ==> t.cancelled)
    && (t.cancelled ==> o.Interrupted? || t.pipe.phase == Closing)
  }

  /** Time may pass to `t` only if nothing is due before: cancellation is prompt, the last
      drain and the second wait end by their deadlines, and the controller does not sleep
      on a finished wait. */
  predicate MayWait(s: State, t: real) {
    && !(s.left.cancelled && !IsDone(s.left)) && !(s.right.cancelled && !IsDone(s.right))
    && (s.left.pipe.phase == Closing ==> t <= s.left.deadline)
    && (s.right.pipe.phase == Closing ==> t <= s.right.deadline)
    && match s.control
       case WaitFirst => !IsDone(s.left) && !IsDone(s.right)
       case WaitSecond(deadline) => t <= deadline && !(IsDone(s.left) && IsDone(s.right))
       case Gathering => !(IsDone(s.left) && IsDone(s.right))
       case CleanUp => !(IsDone(s.left) && IsDone(s.right))
       case Returned => true
  }

  predicate Enabled(s: State, step: Step) {
    match step
    case Move(onLeft, o) => CanMove(if onLeft then s.left else s.right, o)
    case FirstDone => s.control.WaitFirst? && (IsDone(s.left) || IsDone(s.right))
    case SecondDone => s.control.WaitSecond? && IsDone(s.left) && IsDone(s.right)
    case SecondTimeout => s.control.WaitSecond? && s.now >= s.control.deadline
    case Gathered => s.control.Gathering? && IsDone(s.left) && IsDone(s.right)
    case OuterCancel => s.control.WaitFirst? || s.control.WaitSecond? || s.control.Gathering?
    case CleanedUp => s.control.CleanUp? && IsDone(s.left) && IsDone(s.right)
    case Tick(d) => d > 0.0 && MayWait(s, s.now + d)
  }

  function MoveTask(t: Task, o: Outcome, now: real, limits: Limits): Task
    requires Possible(t.pipe, o)
  {
    var moved := t.(pipe := Advance(t.pipe, o));
    if moved.pipe.phase == Closing then moved.(deadline := now + limits.close) else moved
  }

  function Next(s: State, step: Step, limits: Limits): State
    requires Enabled(s, step)
  {
    match step
    case Move(onLeft, o) =>
      var s' := if onLeft then s.(left := MoveTask(s.left, o, s.now, limits))
                else s.(right := MoveTask(s.right, o, s.now, limits));
      if o.End? && s.eofAt.None? then s'.(eofAt := Some(s.now)) else s'
    case FirstDone =>
      s.(control := if IsDone(s.left) && IsDone(s.right) then Gathering else WaitSecond(s.now + limits.halfClose),
         doneAt := Some(s.now))
    case SecondDone => s.(control := Gathering)
    case SecondTimeout => s.(control := Gathering, left := Cancel(s.left), right := Cancel(s.right))
    case Gathered => s.(control := Returned)
    case OuterCancel =>
      s.(control := CleanUp, left := Cancel(s.left), right := Cancel(s.right), outer := true)
    case CleanedUp => s.(control := Returned)
    case Tick(d) => s.(now := s.now + d)
  }

  function Begin(leftInput: bytes, leftBase: nat, rightInput: bytes, rightBase: nat): State {
    State(Task(Start(leftInput, leftBase), 0.0, false), Task(Start(rightInput, rightBase), 0.0, false),
          WaitFirst, 0.0, None, None, false)
  }

  /** A schedule of the relay, from its start. */
  ghost predicate Runs(s: State, steps: seq<Step>, limits: Limits, s': State)
    decreases |steps|
  {
    if steps == [] then s' == s
    else Enabled(s, steps[0]) && Runs(Next(s, steps[0], limits), steps[1..], limits, s')
  }

  // ---------------------------------------------------------------- invariants

  ghost predicate Safe(s: State) {
    && Forwards(s.left.pipe) && Forwards(s.right.pipe)
    && (s.control.Returned? ==> IsDone(s.left) && IsDone(s.right))
    && (s.control.WaitFirst? ==> s.doneAt.None?)
    && ((s.left.cancelled || s.right.cancelled) ==> s.control.Gathering? || s.control.CleanUp? || s.control.Returned?)
    && ((s.control.Gathering? || s.control.CleanUp?) ==>
          (s.left.cancelled || IsDone(s.left)) && (s.right.cancelled || IsDone(s.right)))
  }

  /** The latest moment by which a relay that has seen an end of file returns. */
  function Limit(eofAt: real, limits: Limits): real {
    eofAt + limits.close + limits.halfClose
  }

  ghost predicate ClosingSoon(t: Task, eofAt: real, limits: Limits) {
    IsDone(t) || (t.pipe.phase == Closing && t.deadline <= eofAt + limits.close)
  }

  ghost predicate OnTime(s: State, limits: Limits) {
    && (s.left.pipe.phase == Closing ==> s.now <= s.left.deadline)
    && (s.right.pipe.phase == Closing ==> s.now <= s.right.deadline)
    && (s.control.WaitSecond? ==> s.now <= s.control.deadline <= s.now + limits.halfClose)
    && (s.eofAt.Some? ==>
          && s.eofAt.value <= s.now
          && match s.control
             case WaitFirst =>
               && s.now <= s.eofAt.value + limits.close
               && (ClosingSoon(s.left, s.eofAt.value, limits) || ClosingSoon(s.right, s.eofAt.value, limits))
             case WaitSecond(deadline) => deadline <= Limit(s.eofAt.value, limits)
             case Gathering => s.now <= Limit(s.eofAt.value, limits)
             case CleanUp => s.now <= Limit(s.eofAt.value, limits)
             case Returned => true)
  }

  /** Without a cancellation from outside, a task is cancelled only after the other one has
      been finished for the whole half-close grace. */
  ghost predicate Patient(s: State, limits: Limits) {
    && (s.control.WaitSecond? ==> s.doneAt.Some? && s.control.deadline == s.doneAt.value + limits.halfClose)
    && ((s.left.cancelled || s.right.cancelled) && !s.outer ==>
          s.doneAt.Some? && s.now >= s.doneAt.value + limits.halfClose)
  }

  /** Once a first direction was seen to finish, the relay returns within the half-close timeout. */
  ghost predicate Prompt(s: State, limits: Limits) {
    s.doneAt.Some? ==> s.doneAt.value <= s.now && (s.now <= s.doneAt.value + limits.halfClose || s.control.Returned?)
  }

  lemma StepKeepsPrompt(s: State, step: Step, limits: Limits)
    requires limits.halfClose >= 0.0 && Enabled(s, step)
    requires Safe(s) && OnTime(s, limits) && Patient(s, limits) && Prompt(s, limits)
    ensures Prompt(Next(s, step, limits), limits)
  {
  }

  lemma {:induction false} StepKeepsSafe(s: State, step: Step, limits: Limits)
    requires Safe(s) && Enabled(s, step)
    ensures Safe(Next(s, step, limits))
  {
    match step
    case Move(onLeft, o) => AdvanceForwards((if onLeft then s.left else s.right).pipe, o);
    case _ =>
  }

  lemma {:induction false} StepKeepsTime(s: State, step: Step, limits: Limits)
    requires limits.close >= 0.0 && limits.halfClose >= 0.0
    requires Safe(s) && OnTime(s, limits) && Enabled(s, step)
    ensures OnTime(Next(s, step, limits), limits)
  {
  }

  lemma StepKeepsPatience(s: State, step: Step, limits: Limits)
    requires Safe(s) && Patient(s, limits) && Enabled(s, step)
    ensures Patient(Next(s, step, limits), limits)
  {
  }

  /** The invariant of every reachable state. */
  ghost predicate Sound(s: State, limits: Limits) {
    && limits.close >= 0.0 && limits.halfClose >= 0.0
    && Safe(s) && OnTime(s, limits) && Patient(s, limits) && Prompt(s, limits)
  }

  lemma StepKeeps(s: State, step: Step, limits: Limits)
    requires Sound(s, limits) && Enabled(s, step)
    ensures Sound(Next(s, step, limits), limits)
  {
    StepKeepsSafe(s, step, limits);
    StepKeepsTime(s, step, limits);
    StepKeepsPatience(s, step, limits);
    StepKeepsPrompt(s, step, limits);
  }

  ghost predicate SameTask(s: State, s': State) {
    && s'.left.pipe.input == s.left.pipe.input && s'.right.pipe.input == s.right.pipe.input
    && s'.left.pipe.base == s.left.pipe.base && s'.right.pipe.base == s.right.pipe.base
  }

  lemma StepKeepsTask(s: State, step: Step, limits: Limits)
    requires Enabled(s, step)
    ensures SameTask(s, Next(s, step, limits))
  {
  }

  lemma {:induction false} RunKeeps(s: State, steps: seq<Step>, limits: Limits, s': State)
    requires Sound(s, limits) && Runs(s, steps, limits, s')
    ensures Sound(s', limits) && SameTask(s, s')
    decreases |steps|
  {
    if steps != [] {
      var mid := Next(s, steps[0], limits);
      StepKeeps(s, steps[0], limits);
      StepKeepsTask(s, steps[0], limits);
      RunKeeps(mid, steps[1..], limits, s');
    }
  }

  // ---------------------------------------------------------------- the guarantees

  /** In every schedule each direction has forwarded a prefix of its input, counted exactly,
      and has closed its side at most once, after the whole input; and when the relay returns
      both tasks are finished. */
  lemma RelayForwards(leftInput: bytes, leftBase: nat, rightInput: bytes, rightBase: nat,
                      steps: seq<Step>, limits: Limits, s: State)
    requires limits.close >= 0.0 && limits.halfClose >= 0.0
    requires Runs(Begin(leftInput, leftBase, rightInput, rightBase), steps, limits, s)
    ensures s.left.pipe.output <= leftInput && s.right.pipe.output <= rightInput
    ensures s.left.pipe.counter == leftBase + |s.left.pipe.output|
    ensures s.right.pipe.counter == rightBase + |s.right.pipe.output|
    ensures s.left.pipe.eofs <= 1 && (s.left.pipe.eofs == 1 ==> s.left.pipe.output == leftInput)
    ensures s.right.pipe.eofs <= 1 && (s.right.pipe.eofs == 1 ==> s.right.pipe.output == rightInput)
    ensures s.control.Returned? ==> IsDone(s.left) && IsDone(s.right)
  {
    RunKeeps(Begin(leftInput, leftBase, rightInput, rightBase), steps, limits, s);
  }

  ghost function Ends(s: State, onLeft: bool): nat {
    if onLeft then s.left.pipe.eofs else s.right.pipe.eofs
  }

  lemma StepPassesEnds(s: State, step: Step, limits: Limits, onLeft: bool)
    requires Sound(s, limits) && Enabled(s, step)
    ensures Ends(Next(s, step, limits), onLeft) == 1 <==> Ends(s, onLeft) == 1 || step == Move(onLeft, End(true))
  {
  }

  lemma {:induction false} EndIsPassedOn(s: State, steps: seq<Step>, limits: Limits, s': State, onLeft: bool)
    requires Sound(s, limits) && Runs(s, steps, limits, s')
    ensures Ends(s', onLeft) == 1 <==> Ends(s, onLeft) == 1 || Move(onLeft, End(true)) in steps
    decreases |steps|
  {
    if steps != [] {
      StepKeeps(s, steps[0], limits);
      StepPassesEnds(s, steps[0], limits, onLeft);
      EndIsPassedOn(Next(s, steps[0], limits), steps[1..], limits, s', onLeft);
      assert steps == [steps[0]] + steps[1..];
    }
  }

  /** How many bytes one side's reads bring in a schedule. */
  function Carried(steps: seq<Step>, onLeft: bool): nat {
    if steps == [] then 0 else CarriedBy(steps[0], onLeft) + Carried(steps[1..], onLeft)
  }

  function CarriedBy(step: Step, onLeft: bool): nat {
    match step
    case Move(side, Chunk(n)) => if side == onLeft then n else 0
    case _ => 0
  }

  ghost function ReadSoFar(s: State, onLeft: bool): nat {
    if onLeft then s.left.pipe.read else s.right.pipe.read
  }

  lemma StepCarries(s: State, step: Step, limits: Limits, onLeft: bool)
    requires Enabled(s, step)
    ensures ReadSoFar(Next(s, step, limits), onLeft) == ReadSoFar(s, onLeft) + CarriedBy(step, onLeft)
  {
  }

  lemma {:induction false} BytesAreCarried(s: State, steps: seq<Step>, limits: Limits, s': State, onLeft: bool)
    requires Runs(s, steps, limits, s')
    ensures ReadSoFar(s', onLeft) == ReadSoFar(s, onLeft) + Carried(steps, onLeft)
    decreases |steps|
  {
    if steps != [] {
      StepCarries(s, steps[0], limits, onLeft);
      BytesAreCarried(Next(s, steps[0], limits), steps[1..], limits, s', onLeft);
    }
  }

  /** In every schedule each side has written exactly the bytes that its reads brought. */
  lemma RelayWritesAllItReads(leftInput: bytes, leftBase: nat, rightInput: bytes, rightBase: nat,
                              steps: seq<Step>, limits: Limits, s: State)
    requires limits.close >= 0.0 && limits.halfClose >= 0.0
    requires Runs(Begin(leftInput, leftBase, rightInput, rightBase), steps, limits, s)
    ensures Carried(steps, true) <= |leftInput| && s.left.pipe.output == leftInput[..Carried(steps, true)]
    ensures Carried(steps, false) <= |rightInput| && s.right.pipe.output == rightInput[..Carried(steps, false)]
  {
    var begun := Begin(leftInput, leftBase, rightInput, rightBase);
    BytesAreCarried(begun, steps, limits, s, true);
    BytesAreCarried(begun, steps, limits, s, false);
    RunKeeps(begun, steps, limits, s);
  }

  /** Half-close passes through the relay: in every schedule a side that read an end of file
      onto a writable stream has closed that stream exactly once, and no other side has. */
  lemma RelayPassesEnds(leftInput: bytes, leftBase: nat, rightInput: bytes, rightBase: nat,
                        steps: seq<Step>, limits: Limits, s: State)
    requires limits.close >= 0.0 && limits.halfClose >= 0.0
    requires Runs(Begin(leftInput, leftBase, rightInput, rightBase), steps, limits, s)
    ensures s.left.pipe.eofs == if Move(true, End(true)) in steps then 1 else 0
    ensures s.right.pipe.eofs == if Move(false, End(true)) in steps then 1 else 0
  {
    var begun := Begin(leftInput, leftBase, rightInput, rightBase);
    EndIsPassedOn(begun, steps, limits, s, true);
    EndIsPassedOn(begun, steps, limits, s, false);
    RunKeeps(begun, steps, limits, s);
  }

  /** Once an end of file has been read, the relay has returned after the close timeout and
      the half-close timeout at the latest. */
  lemma RelayIsBounded(leftInput: bytes, leftBase: nat, rightInput: bytes, rightBase: nat,
                       steps: seq<Step>, limits: Limits, s: State)
    requires limits.close >= 0.0 && limits.halfClose >= 0.0
    requires Runs(Begin(leftInput, leftBase, rightInput, rightBase), steps, limits, s)
    ensures s.eofAt.Some? && s.now > Limit(s.eofAt.value, limits) ==> s.control.Returned?
  {
    RunKeeps(Begin(leftInput, leftBase, rightInput, rightBase), steps, limits, s);
  }

  /** The same holds when the first direction ends by a reset or another error, without an end
      of file: after it was seen to finish only the half-close timeout is left. */
  lemma RelayEndsAfterReset(leftInput: bytes, leftBase: nat, rightInput: bytes, rightBase: nat,
                            steps: seq<Step>, limits: Limits, s: State)
    requires limits.close >= 0.0 && limits.halfClose >= 0.0
    requires Runs(Begin(leftInput, leftBase, rightInput, rightBase), steps, limits, s)
    ensures s.doneAt.Some? && s.now > s.doneAt.value + limits.halfClose ==> s.control.Returned?
  {
    RunKeeps(Begin(leftInput, leftBase, rightInput, rightBase), steps, limits, s);
  }

  /** Half-close is preserved: unless the relay itself is cancelled, a direction is cut off
      no earlier than the half-close timeout after the other one was seen to finish. */
  lemma RelayIsPatient(leftInput: bytes, leftBase: nat, rightInput: bytes, rightBase: nat,
                       steps: seq<Step>, limits: Limits, s: State)
    requires limits.close >= 0.0 && limits.halfClose >= 0.0
    requires Runs(Begin(leftInput, leftBase, rightInput, rightBase), steps, limits, s)
    ensures !s.outer && (s.left.cancelled || s.right.cancelled) ==>
              s.doneAt.Some? && s.doneAt.value + limits.halfClose <= s.now
  {
    RunKeeps(Begin(leftInput, leftBase, rightInput, rightBase), steps, limits, s);
  }

  // ---------------------------------------------------------------- progress

  /** How long time may pass before the deadlines that are running. */
  function Slack(s: State): real
  {
    var a := if s.left.pipe.phase == Closing then s.left.deadline - s.now else 1.0;
    var b := if s.right.pipe.phase == Closing then s.right.deadline - s.now else 1.0;
    var c := if s.control.WaitSecond? then s.control.deadline - s.now else 1.0;
    var m := if a <= b then a else b;
    if m <= c then m else c
  }

  /** The step that is due before time may pass. */
  function Due(s: State): Option<Step> {
    if s.left.cancelled && !IsDone(s.left) then Some(Move(true, Interrupted))
    else if s.right.cancelled && !IsDone(s.right) then Some(Move(false, Interrupted))
    else if s.left.pipe.phase == Closing && s.left.deadline <= s.now then Some(Move(true, Failed))
    else if s.right.pipe.phase == Closing && s.right.deadline <= s.now then Some(Move(false, Failed))
    else
      match s.control
      case WaitFirst => if IsDone(s.left) || IsDone(s.right) then Some(FirstDone) else None
      case WaitSecond(deadline) =>
        if IsDone(s.left) && IsDone(s.right) then Some(SecondDone)
        else if deadline <= s.now then Some(SecondTimeout) else None
      case Gathering => if IsDone(s.left) && IsDone(s.right) then Some(Gathered) else None
      case CleanUp => if IsDone(s.left) && IsDone(s.right) then Some(CleanedUp) else None
      case Returned => None
  }

  /** No reachable state stops the clock for good: either a timer, a cancellation or the
      controller is due and can act, or time can pass. */
  lemma NeverStuck(s: State, limits: Limits)
    requires Sound(s, limits)
    ensures Due(s).Some? ==> Enabled(s, Due(s).value) && !Due(s).value.Tick?
    ensures Due(s).None? ==> Slack(s) > 0.0 && Enabled(s, Tick(Slack(s)))
  {
  }

  /** Acting on what is due ends: each such step finishes a direction or moves the controller on. */
  function Remaining(s: State): nat {
    (if IsDone(s.left) then 0 else 1) + (if IsDone(s.right) then 0 else 1)
    + match s.control
      case WaitFirst => 3
      case WaitSecond(_) => 2
      case Gathering => 1
      case CleanUp => 1
      case Returned => 0
  }

  lemma DueIsProgress(s: State, limits: Limits)
    requires Sound(s, limits) && Due(s).Some?
    ensures Enabled(s, Due(s).value)
    ensures Remaining(Next(s, Due(s).value, limits)) < Remaining(s)
  {
    NeverStuck(s, limits);
  }

  /** Hence from every reachable state time can go on after at most five steps. */
  lemma {:induction false} TimeGoesOn(s: State, limits: Limits) returns (steps: seq<Step>, s': State)
    requires Sound(s, limits)
    ensures Runs(s, steps, limits, s') && Sound(s', limits) && s'.now == s.now && |steps| <= Remaining(s) <= 5
    ensures exists d :: d > 0.0 && Enabled(s', Tick(d))
    decreases Remaining(s)
  {
    NeverStuck(s, limits);
    if Due(s).None? {
      steps, s' := [], s;
      assert Enabled(s', Tick(Slack(s')));
    } else {
      var step := Due(s).value;
      DueIsProgress(s, limits);
      StepKeeps(s, step, limits);
      var rest;
      rest, s' := TimeGoesOn(Next(s, step, limits), limits);
      steps := [step] + rest;
      assert steps[1..] == rest;
    }
  }

  // ---------------------------------------------------------------- schedules as data

  /** Runs a list of steps and passes over those that are not possible when they come up. */
  function Execute(s: State, steps: seq<Step>, limits: Limits): State
    decreases |steps|
  {
    if steps == [] then s
    else Execute(if Enabled(s, steps[0]) then Next(s, steps[0], limits) else s, steps[1..], limits)
  }

  /** Every such execution is a schedule, and every schedule is such an execution. */
  lemma {:induction false} ExecuteRuns(s: State, steps: seq<Step>, limits: Limits) returns (taken: seq<Step>)
    ensures Runs(s, taken, limits, Execute(s, steps, limits))
    decreases |steps|
  {
    if steps == [] {
      taken := [];
    } else if Enabled(s, steps[0]) {
      var rest := ExecuteRuns(Next(s, steps[0], limits), steps[1..], limits);
      taken := [steps[0]] + rest;
      assert taken[1..] == rest;
    } else {
      taken := ExecuteRuns(s, steps[1..], limits);
    }
  }

  lemma {:induction false} RunsAreExecuted(s: State, steps: seq<Step>, limits: Limits, s': State)
    requires Runs(s, steps, limits, s')
    ensures Execute(s, steps, limits) == s'
    decreases |steps|
  {
    if steps != [] {
      RunsAreExecuted(Next(s, steps[0], limits), steps[1..], limits, s');
    }
  }

  /** What any execution has forwarded, with counters that start at any value. */
  lemma ExecuteForwards(leftInput: bytes, leftBase: nat, rightInput: bytes, rightBase: nat,
                        steps: seq<Step>, limits: Limits)
    requires limits.close >= 0.0 && limits.halfClose >= 0.0
    ensures var s := Execute(Begin(leftInput, leftBase, rightInput, rightBase), steps, limits);
            && s.left.pipe.output <= leftInput && s.left.pipe.counter == leftBase + |s.left.pipe.output|
            && s.right.pipe.output <= rightInput && s.right.pipe.counter == rightBase + |s.right.pipe.output|
  {
    var begun := Begin(leftInput, leftBase, rightInput, rightBase);
    var taken := ExecuteRuns(begun, steps, limits);
    RelayForwards(leftInput, leftBase, rightInput, rightBase, taken, limits, Execute(begun, steps, limits));
  }
}
