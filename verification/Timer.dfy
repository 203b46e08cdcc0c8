/**
 The cancelable timer. A timer is started, canceled and shut down by its owner or from its own
 routine, under a push lock; it expires on a timer callback, which queues a work item, which runs
 the routine. Each block under the spin lock is a step, as is everything that can race with it:
 expiry, the start of a worker, the end of the routine and every dereference.
 */
module Timer {

  /** Who holds the push lock, and how far it is: it cancels, waits, and then possibly starts. */
  datatype Caller =
    | NoCaller
    | Cancels(isStart: bool, byWorker: bool)
    | Waits(isStart: bool, byWorker: bool, canceled: bool, signaled: bool)
    | Starts(byWorker: bool)
    | Leaves(byWorker: bool)

  /** Flags and fields of the timer; the kernel timer is armed or its callback is on its way; the
      work item is on the queue or its routine has just been entered. `running` workers are in the
      timer routine; `toDrop` callbacks and workers have yet to drop their references. Starts are
      numbered, and `canceled` and `ran` record their fate. */
  datatype State = State(
    exTimerInserted: bool, workItemInserted: bool, shutdown: bool, cancelEvent: bool, cleanupEvent: bool,
    refs: nat, frees: nat, owner: bool, cleanupSignaled: bool,
    armed: bool, firing: bool, queued: bool, entered: bool, running: nat, toDrop: nat,
    caller: Caller, starts: nat, timerStart: nat, workStart: nat, canceled: set<nat>, ran: set<nat>, runs: nat)

  ghost predicate Init(s: State) {
    s == State(false, false, false, false, false, 1, 0, true, false,
               false, false, false, false, 0, 0, NoCaller, 0, 0, 0, {}, {}, 0)
  }

  datatype Step =
    | Acquire(isStart: bool, byWorker: bool)
    | CancelBlock
    | WaitOver
    | StartBlock
    | Release
    | Expire
    | TimeoutBlock
    | EnterWorker
    | WorkerBlock
    | RoutineDone
    | DropReference
    | Shutdown
    | SetCleanup
    | OwnerDrop

  /** Drops a reference; the last frees the timer and then signals a waiting shutdown. */
  function Deref(s: State): State
    requires s.refs > 0
  {
    if s.refs == 1 then s.(refs := 0, frees := s.frees + 1, cleanupSignaled := s.cleanupSignaled || s.cleanupEvent)
    else s.(refs := s.refs - 1)
  }

  ghost predicate Enabled(s: State, step: Step) {
    match step
    case Acquire(_, byWorker) => s.caller.NoCaller? && (if byWorker then s.running > 0 else s.owner)
    case CancelBlock => s.caller.Cancels? && s.refs > 0
    case WaitOver => s.caller.Waits? && s.caller.signaled
    case StartBlock => s.caller.Starts?
    case Release => s.caller.Leaves?
    case Expire => s.armed
    case TimeoutBlock => s.firing
    case EnterWorker => s.queued
    case WorkerBlock => s.entered
    case RoutineDone => s.running > 0
    case DropReference => s.toDrop > 0 && s.refs > 0
    case Shutdown => s.owner && !s.shutdown
    case SetCleanup => s.owner && s.shutdown
    case OwnerDrop => s.owner && s.shutdown && s.refs > 0 && (s.caller.NoCaller? || s.caller.byWorker)
  }

  /** Signals the caller that waits for a cancellation. */
  function SignalCancel(s: State): State {
    s.(cancelEvent := false, caller := if s.caller.Waits? then s.caller.(signaled := true) else s.caller)
  }

  ghost function Apply(s: State, step: Step): State
    requires Enabled(s, step)
  {
    match step
    case Acquire(isStart, byWorker) =>
      s.(caller := Cancels(isStart, byWorker), running := if byWorker then s.running - 1 else s.running)
    case CancelBlock =>
      var c := s.caller;
      if s.exTimerInserted then
        if s.armed then
          Deref(s.(armed := false, exTimerInserted := false, canceled := s.canceled + {s.timerStart}))
            .(caller := Waits(c.isStart, c.byWorker, true, true))
        else
          s.(cancelEvent := true, canceled := s.canceled + {s.timerStart},
            caller := Waits(c.isStart, c.byWorker, true, false))
      else if s.workItemInserted then
        s.(cancelEvent := true, canceled := s.canceled + {s.workStart},
          caller := Waits(c.isStart, c.byWorker, true, false))
      else s.(caller := Waits(c.isStart, c.byWorker, false, true))
    case WaitOver => s.(caller := if s.caller.isStart then Starts(s.caller.byWorker) else Leaves(s.caller.byWorker))
    case StartBlock =>
      if s.shutdown then s.(caller := Leaves(s.caller.byWorker))
      else
        s.(refs := s.refs + 1, exTimerInserted := true, armed := true, timerStart := s.starts, starts := s.starts + 1,
           caller := Leaves(s.caller.byWorker))
    case Release =>
      s.(caller := NoCaller, running := if s.caller.byWorker then s.running + 1 else s.running)
    case Expire => s.(armed := false, firing := true)
    case TimeoutBlock =>
      if s.cancelEvent then SignalCancel(s).(exTimerInserted := false, firing := false, toDrop := s.toDrop + 1)
      else s.(exTimerInserted := false, firing := false, queued := true, workItemInserted := true,
        workStart := s.timerStart)
    case EnterWorker => s.(queued := false, entered := true)
    case WorkerBlock =>
      if s.cancelEvent then SignalCancel(s).(workItemInserted := false, entered := false, toDrop := s.toDrop + 1)
      else s.(workItemInserted := false, entered := false, running := s.running + 1,
              ran := s.ran + {s.workStart}, runs := s.runs + 1)
    case RoutineDone => s.(running := s.running - 1, toDrop := s.toDrop + 1)
    case DropReference => Deref(s.(toDrop := s.toDrop - 1))
    case Shutdown => s.(shutdown := true)
    case SetCleanup => s.(cleanupEvent := true)
    case OwnerDrop => Deref(s.(owner := false))
  }

  // ---- The invariant ----

  function Bit(b: bool): nat {
    if b then 1 else 0
  }

  /** A start is on its way to its routine. */
  predicate Outstanding(s: State) {
    s.armed || s.firing || s.queued || s.entered
  }

  function CurrentStart(s: State): nat {
    if s.armed || s.firing then s.timerStart else s.workStart
  }

  ghost predicate Inv(s: State) {
    && Bit(s.armed) + Bit(s.firing) + Bit(s.queued) + Bit(s.entered) <= 1
    && (s.exTimerInserted <==> s.armed || s.firing)
    && (s.workItemInserted <==> s.queued || s.entered)
    && (s.cancelEvent <==> s.caller.Waits? && !s.caller.signaled)
    && (s.cancelEvent ==> s.firing || s.queued || s.entered)
    && (s.caller.Starts? || (s.caller.Waits? && s.caller.signaled) ==> !Outstanding(s))
    && s.refs == Bit(s.owner) + Bit(Outstanding(s)) + s.running + s.toDrop
       + Bit(!s.caller.NoCaller? && s.caller.byWorker)
    && (!s.caller.NoCaller? && !s.caller.byWorker ==> s.owner)
    && s.frees == Bit(s.refs == 0)
    && (s.cleanupSignaled ==> s.refs == 0)
    && (s.refs == 0 && s.cleanupEvent ==> s.cleanupSignaled)
    && (!s.owner ==> s.shutdown)
    && (Outstanding(s) ==> CurrentStart(s) < s.starts && CurrentStart(s) !in s.ran)
    && (Outstanding(s) && CurrentStart(s) in s.canceled ==> s.cancelEvent)
    && (forall n :: n in s.canceled || n in s.ran ==> n < s.starts)
    && s.canceled !! s.ran
    && s.runs == |s.ran|
  }

  lemma {:induction false} InitInv(s: State)
    requires Init(s)
    ensures Inv(s)
  {
  }

  predicate CallerStep(step: Step) {
    step.Acquire? || step.WaitOver? || step.StartBlock? || step.Release?
  }

  lemma {:induction false} CallerKeeps(s: State, step: Step)
    requires Inv(s) && Enabled(s, step) && CallerStep(step)
    ensures Inv(Apply(s, step))
  {
  }

  lemma {:induction false} CancelKeeps(s: State)
    requires Inv(s) && Enabled(s, CancelBlock)
    ensures !s.cancelEvent
    ensures Inv(Apply(s, CancelBlock))
  {
  }

  /** The callback and the worker; the work item is not queued while it is queued. */
  lemma {:induction false} TimeoutKeeps(s: State, step: Step)
    requires Inv(s) && Enabled(s, step) && (step.Expire? || step.TimeoutBlock? || step.EnterWorker?)
    ensures step.TimeoutBlock? ==> !s.queued && !s.entered
    ensures Inv(Apply(s, step))
  {
  }

  lemma {:induction false} WorkerKeeps(s: State)
    requires Inv(s) && Enabled(s, WorkerBlock)
    ensures Inv(Apply(s, WorkerBlock))
  {
  }

  lemma {:induction false} OwnerKeeps(s: State, step: Step)
    requires Inv(s) && Enabled(s, step) && (step.RoutineDone? || step.Shutdown? || step.SetCleanup?)
    ensures Inv(Apply(s, step))
  {
  }

  lemma {:induction false} DropKeeps(s: State)
    requires Inv(s) && Enabled(s, DropReference)
    ensures Inv(Apply(s, DropReference))
  {
  }

  lemma {:induction false} OwnerDropKeeps(s: State)
    requires Inv(s) && Enabled(s, OwnerDrop)
    ensures Inv(Apply(s, OwnerDrop))
  {
  }

  lemma {:induction false} StepKeeps(s: State, step: Step)
    requires Inv(s) && Enabled(s, step)
    ensures Inv(Apply(s, step))
  {
    if CallerStep(step) {
      CallerKeeps(s, step);
    } else {
      match step
      case CancelBlock => CancelKeeps(s);
      case Expire => TimeoutKeeps(s, step);
      case TimeoutBlock => TimeoutKeeps(s, step);
      case EnterWorker => TimeoutKeeps(s, step);
      case WorkerBlock => WorkerKeeps(s);
      case DropReference => DropKeeps(s);
      case OwnerDrop => OwnerDropKeeps(s);
      case _ => OwnerKeeps(s, step);
    }
  }

  // ---- Runs ----

  ghost predicate Next(s: State, t: State) {
    exists step :: Enabled(s, step) && t == Apply(s, step)
  }

  ghost predicate IsRun(states: seq<State>) {
    && |states| > 0 && Init(states[0])
    && forall i :: 0 < i < |states| ==> Next(states[i - 1], states[i])
  }

  lemma {:induction false} RunKeeps(states: seq<State>, i: nat)
    requires IsRun(states) && i < |states|
    ensures Inv(states[i])
    decreases i
  {
    if i == 0 {
      InitInv(states[0]);
    } else {
      RunKeeps(states, i - 1);
      assert Next(states[i - 1], states[i]);
      var step :| Enabled(states[i - 1], step) && states[i] == Apply(states[i - 1], step);
      StepKeeps(states[i - 1], step);
    }
  }

  /** The flags tell where the timer is, never both at once; a cancel event is registered for one
      waiting caller at most; a block that registers one finds none, and a callback that queues the
      work item finds it off the queue. */
  lemma {:induction false} FlagsTell(states: seq<State>, i: nat)
    requires IsRun(states) && i < |states|
    ensures var s := states[i];
            && !(s.exTimerInserted && s.workItemInserted)
            && (s.cancelEvent <==> s.caller.Waits? && !s.caller.signaled)
            && (s.caller.Cancels? ==> !s.cancelEvent)
            && (s.firing ==> !s.queued && !s.entered && !s.armed)
            && (s.caller.Starts? ==> !s.exTimerInserted && !s.workItemInserted)
  {
    RunKeeps(states, i);
  }

  /** A start that was reported canceled never runs the routine, and no start runs it twice. */
  lemma {:induction false} CanceledNeverRuns(states: seq<State>, i: nat)
    requires IsRun(states) && i < |states|
    ensures states[i].canceled !! states[i].ran
    ensures states[i].runs == |states[i].ran|
    ensures forall n :: n in states[i].canceled || n in states[i].ran ==> n < states[i].starts
  {
    RunKeeps(states, i);
  }

  /** What a run can still do that reads or writes the timer. */
  ghost predicate InUse(s: State) {
    s.owner || Outstanding(s) || s.running > 0 || s.toDrop > 0 || !s.caller.NoCaller?
  }

  /** The timer is freed exactly when its owner, its callback and every worker are done with it, once,
      and a waiting shutdown is let go exactly then. */
  lemma {:induction false} FreedLast(states: seq<State>, i: nat)
    requires IsRun(states) && i < |states|
    ensures states[i].frees <= 1
    ensures states[i].frees == 1 <==> !InUse(states[i])
    ensures states[i].cleanupSignaled ==> states[i].frees == 1
    ensures states[i].frees == 1 && states[i].cleanupEvent ==> states[i].cleanupSignaled
  {
    RunKeeps(states, i);
  }

  /** Nothing can happen to a freed timer. */
  lemma {:induction false} FreedIsOver(states: seq<State>, i: nat, step: Step)
    requires IsRun(states) && i < |states| && Enabled(states[i], step)
    ensures states[i].frees == 0
  {
    RunKeeps(states, i);
  }
}
