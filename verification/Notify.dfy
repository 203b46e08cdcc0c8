/**
 Waiting for AF_XDP I/O. One wait at a time, by a blocked thread or by a pended IRP, races with the
 two data path producers, with I/O cancellation and with socket cleanup. Blocks under the socket
 lock that nothing can look into are one step; every read outside the lock, every step of setting
 a wait up and every interlocked exchange of the cancel routine is a step of its own.
 */
module Notify {
  import opened Options

  /** WAIT_TX and WAIT_RX. */
  datatype Flags = Flags(tx: bool, rx: bool)

  const NONE := Flags(false, false)

  datatype Side = Tx | Rx

  predicate Has(f: Flags, b: Side) {
    if b.Tx? then f.tx else f.rx
  }

  function And(f: Flags, g: Flags): Flags {
    Flags(f.tx && g.tx, f.rx && g.rx)
  }

  function Only(b: Side): Flags {
    Flags(b.Tx?, b.Rx?)
  }

  /** A data path after it submits to its ring: it reads the flags, then the event, then the IRP. */
  datatype Producer = Idle | Submitted | SawFlags | SawEventSet | Signalling

  /** Where a notify call stands. */
  datatype Pc =
    | Start
    | FlagsSet                 // holding the lock from here ...
    | IrpSet
    | RoutineSet
    | CancelSeen               // ... to here
    | EarlyCancel
    | CheckTx
    | CheckRx(ready: Flags)
    | SelfSignal(ready: Flags)
    | Recheck
    | Waiting
    | Waking
    | Done

  /** The cancel routine: once taken it runs, leaves the lock, and completes the IRP. */
  datatype Runner = NoRun | Running | Unlocked | Ran

  /** A notify call with its IRP, if it has one. */
  datatype Call = Call(
    isIrp: bool, want: Flags, pc: Pc,
    pended: bool, routine: bool, cancelled: bool, taking: bool, runner: Runner, completions: nat)

  datatype Cleanup = NotStarted | Snapped(flags: Flags) | Cleaned

  /** `owner` is the call whose wait is set up; `completing` are the IRPs some thread has taken and
      is about to complete. */
  datatype State = State(
    lock: Option<nat>, flags: Flags, waitIrp: Option<nat>, event: bool, closing: bool,
    tx: bool, rx: bool, producerTx: Producer, producerRx: Producer,
    calls: map<nat, Call>, completing: set<nat>, cleanup: Cleanup, owner: Option<nat>)

  function NonEmpty(s: State, b: Side): bool {
    if b.Tx? then s.tx else s.rx
  }

  function ProducerOf(s: State, b: Side): Producer {
    if b.Tx? then s.producerTx else s.producerRx
  }

  function WithProducer(s: State, b: Side, p: Producer): State {
    if b.Tx? then s.(producerTx := p) else s.(producerRx := p)
  }

  function WithRing(s: State, b: Side, nonEmpty: bool): State {
    if b.Tx? then s.(tx := nonEmpty) else s.(rx := nonEmpty)
  }

  function WithCall(s: State, id: nat, c: Call): State {
    s.(calls := s.calls[id := c])
  }

  ghost predicate Init(s: State) {
    && s == State(None, NONE, None, s.event, false, s.tx, s.rx, Idle, Idle, map[], {}, NotStarted, None)
  }

  // ---- Steps ----

  datatype Step =
    | Begin(id: nat, isIrp: bool, want: Flags)
    | Acquire(id: nat)
    | ClearEvent(id: nat)
    | Pend(id: nat)
    | SetRoutine(id: nat)
    | ReadCancel(id: nat)
    | Exchange(id: nat)
    | EarlyComplete(id: nat)
    | QueryTx(id: nat)
    | QueryRx(id: nat)
    | SignalSelf(id: nat)
    | Abandon(id: nat, changed: bool)
    | Wake(id: nat)
    | Finish(id: nat)
    | CancelMark(id: nat)
    | CancelTake(id: nat)
    | CancelLocked(id: nat)
    | CancelComplete(id: nat)
    | Complete(id: nat)
    | Submit(b: Side)
    | ReadFlags(b: Side)
    | ReadEvent(b: Side)
    | ReadIrp(b: Side)
    | Signal(b: Side)
    | Drain(b: Side)
    | CleanupSnap
    | CleanupSignal

  /** Signalling, under the lock: the first signal takes the IRP and clears the wait, unless the
      cancel routine has been taken already; a blocked thread just gets its event set. */
  function SignalBlock(s: State, ready: Flags): State
    requires s.waitIrp.Some? ==> s.waitIrp.value in s.calls
  {
    if And(s.flags, ready) == NONE then s
    else if s.waitIrp.Some? then
      var id := s.waitIrp.value;
      var c := s.calls[id];
      WithCall(s, id, c.(routine := false))
        .(waitIrp := None, flags := NONE, owner := None,
          completing := if c.routine then s.completing + {id} else s.completing)
    else s.(event := true)
  }

  ghost predicate At(s: State, id: nat, pc: Pc) {
    id in s.calls && s.calls[id].pc == pc
  }

  ghost predicate Enabled(s: State, step: Step) {
    && (s.waitIrp.Some? ==> s.waitIrp.value in s.calls)
    && match step
       case Begin(id, _, want) => id !in s.calls && want != NONE
       case Acquire(id) => At(s, id, Start) && s.lock == None
       case ClearEvent(id) => At(s, id, FlagsSet) && !s.calls[id].isIrp
       case Pend(id) => At(s, id, FlagsSet) && s.calls[id].isIrp
       case SetRoutine(id) => At(s, id, IrpSet)
       case ReadCancel(id) => At(s, id, RoutineSet)
       case Exchange(id) => At(s, id, CancelSeen)
       case EarlyComplete(id) => At(s, id, EarlyCancel)
       case QueryTx(id) => At(s, id, CheckTx)
       case QueryRx(id) => id in s.calls && s.calls[id].pc.CheckRx?
       case SignalSelf(id) => id in s.calls && s.calls[id].pc.SelfSignal? && s.lock == None
       case Abandon(id, _) => At(s, id, Recheck) && s.lock == None
       case Wake(id) => At(s, id, Waiting)
       case Finish(id) => At(s, id, Waking) && s.lock == None
       case CancelMark(id) => id in s.calls && s.calls[id].isIrp && s.calls[id].completions == 0
       case CancelTake(id) => id in s.calls && s.calls[id].taking
       case CancelLocked(id) => id in s.calls && s.calls[id].runner == Running && s.lock == None
       case CancelComplete(id) => id in s.calls && s.calls[id].runner == Unlocked
       case Complete(id) => id in s.calls && id in s.completing
       case Submit(b) => ProducerOf(s, b) == Idle
       case ReadFlags(b) => ProducerOf(s, b) == Submitted
       case ReadEvent(b) => ProducerOf(s, b) == SawFlags
       case ReadIrp(b) => ProducerOf(s, b) == SawEventSet
       case Signal(b) => ProducerOf(s, b) == Signalling && s.lock == None
       case Drain(b) => true
       case CleanupSnap => s.cleanup == NotStarted && s.lock == None
       case CleanupSignal => s.cleanup.Snapped? && s.lock == None
  }

  ghost function Apply(s: State, step: Step): State
    requires Enabled(s, step)
  {
    match step
    case Begin(id, isIrp, want) =>
      WithCall(s, id, Call(isIrp, want, Start, false, false, false, false, NoRun, 0))
    case Acquire(id) =>
      var c := s.calls[id];
      if s.closing || s.flags != NONE then WithCall(s, id, c.(pc := Done))
      else WithCall(s, id, c.(pc := FlagsSet)).(lock := Some(id), flags := c.want, owner := Some(id))
    case ClearEvent(id) => WithCall(s, id, s.calls[id].(pc := CheckTx)).(event := false, lock := None)
    case Pend(id) => WithCall(s, id, s.calls[id].(pc := IrpSet, pended := true)).(waitIrp := Some(id))
    case SetRoutine(id) => WithCall(s, id, s.calls[id].(pc := RoutineSet, routine := true))
    case ReadCancel(id) =>
      if s.calls[id].cancelled then WithCall(s, id, s.calls[id].(pc := CancelSeen))
      else WithCall(s, id, s.calls[id].(pc := CheckTx)).(lock := None)
    case Exchange(id) =>
      if s.calls[id].routine then
        WithCall(s, id, s.calls[id].(pc := EarlyCancel, routine := false))
          .(lock := None, waitIrp := None, flags := NONE, owner := None)
      else WithCall(s, id, s.calls[id].(pc := Done)).(lock := None)
    case EarlyComplete(id) =>
      WithCall(s, id, s.calls[id].(pc := Done, completions := s.calls[id].completions + 1))
    case QueryTx(id) =>
      WithCall(s, id, s.calls[id].(pc := CheckRx(Flags(s.calls[id].want.tx && s.tx, false))))
    case QueryRx(id) =>
      var c := s.calls[id];
      WithCall(s, id, c.(pc := SelfSignal(Flags(c.pc.ready.tx, c.want.rx && s.rx))))
    case SignalSelf(id) =>
      var ready := s.calls[id].pc.ready;
      var t := WithCall(s, id, s.calls[id].(pc := Recheck));
      if ready == NONE then t else SignalBlock(t, ready)
    case Abandon(id, changed) =>
      var c := s.calls[id];
      var t := WithCall(s, id, c.(pc := if c.isIrp then Done else Waiting));
      if changed then SignalBlock(t, c.want) else t
    case Wake(id) => WithCall(s, id, s.calls[id].(pc := Waking))
    case Finish(id) => WithCall(s, id, s.calls[id].(pc := Done)).(flags := NONE, owner := None)
    case CancelMark(id) => WithCall(s, id, s.calls[id].(cancelled := true, taking := true))
    case CancelTake(id) =>
      var c := s.calls[id].(taking := false);
      WithCall(s, id, if c.routine then c.(routine := false, runner := Running) else c)
    case CancelLocked(id) =>
      var t := WithCall(s, id, s.calls[id].(runner := Unlocked));
      if s.waitIrp == Some(id) then t.(waitIrp := None, flags := NONE, owner := None) else t
    case CancelComplete(id) =>
      WithCall(s, id, s.calls[id].(runner := Ran, completions := s.calls[id].completions + 1))
    case Complete(id) =>
      WithCall(s, id, s.calls[id].(completions := s.calls[id].completions + 1)).(completing := s.completing - {id})
    case Submit(b) => WithProducer(WithRing(s, b, true), b, Submitted)
    case ReadFlags(b) => WithProducer(s, b, if Has(s.flags, b) then SawFlags else Idle)
    case ReadEvent(b) => WithProducer(s, b, if s.event then SawEventSet else Signalling)
    case ReadIrp(b) => WithProducer(s, b, if s.waitIrp.Some? then Signalling else Idle)
    case Signal(b) => WithProducer(SignalBlock(s, Only(b)), b, Idle)
    case Drain(b) => WithRing(s, b, false)
    case CleanupSnap => s.(closing := true, cleanup := Snapped(s.flags))
    case CleanupSignal =>
      var t := s.(cleanup := Cleaned);
      if s.cleanup.flags == NONE then t else SignalBlock(t, s.cleanup.flags)
  }

  // ---- The invariant ----

  predicate HoldsLock(pc: Pc) {
    pc.FlagsSet? || pc.IrpSet? || pc.RoutineSet? || pc.CancelSeen?
  }

  /** The ways in which an IRP is going to be completed, or has been. */
  function Tokens(s: State, id: nat): nat
    requires id in s.calls
  {
    var c := s.calls[id];
    (if c.pc.IrpSet? then 1 else 0)
    + (if c.routine then 1 else 0)
    + (if id in s.completing then 1 else 0)
    + (if c.runner == Running || c.runner == Unlocked then 1 else 0)
    + (if c.pc.EarlyCancel? then 1 else 0)
    + c.completions
  }

  ghost predicate CallOk(s: State, id: nat)
    requires id in s.calls
  {
    var c := s.calls[id];
    && c.want != NONE
    && (HoldsLock(c.pc) <==> s.lock == Some(id))
    && Tokens(s, id) == (if c.pended then 1 else 0)
    && (!c.isIrp ==> !c.pended && !c.pc.RoutineSet? && !c.pc.CancelSeen?)
    && (c.isIrp ==> !c.pc.Waiting? && !c.pc.Waking?)
    && (c.pc.Start? || c.pc.FlagsSet? ==> !c.pended)
    && (c.isIrp && !c.pc.Start? && !c.pc.FlagsSet? ==> c.pended || c.pc.Done?)
    && (c.routine ==> s.waitIrp == Some(id))
    && (c.runner == Running ==> s.waitIrp == Some(id) || !HoldsLock(c.pc))
    && (s.waitIrp == Some(id) ==> c.isIrp && c.pended && (c.pc.IrpSet? || c.routine || c.runner == Running))
    && (HoldsLock(c.pc) ==> s.owner == Some(id))
    && (c.pc.IrpSet? || c.pc.RoutineSet? || c.pc.CancelSeen? ==> s.waitIrp == Some(id))
    && (c.taking || c.runner != NoRun ==> c.cancelled)
    && (c.pc.CheckRx? ==> And(c.pc.ready, c.want) == c.pc.ready && !c.pc.ready.rx)
    && (c.pc.SelfSignal? ==> And(c.pc.ready, c.want) == c.pc.ready)
    && (!c.isIrp && Blocking(c.pc) ==> s.owner == Some(id))
    && (s.owner == Some(id) && !c.isIrp ==> c.pc.FlagsSet? || Blocking(c.pc))
    && (s.owner == Some(id) && c.isIrp ==> s.waitIrp == Some(id) || c.pc.FlagsSet?)
  }

  predicate Blocking(pc: Pc) {
    pc.CheckTx? || pc.CheckRx? || pc.SelfSignal? || pc.Recheck? || pc.Waiting? || pc.Waking?
  }

  ghost predicate OwnerOk(s: State) {
    && (s.flags == NONE <==> s.owner == None)
    && (s.owner.Some? ==> s.owner.value in s.calls && s.flags == s.calls[s.owner.value].want)
    && (s.waitIrp.Some? ==> s.waitIrp.value in s.calls && s.owner == s.waitIrp)
    && (s.lock.Some? ==> s.lock.value in s.calls)
    && (forall id :: id in s.completing ==> id in s.calls)
  }

  ghost predicate CleanupOk(s: State) {
    && (s.closing <==> s.cleanup != NotStarted)
    && (s.closing ==> s.lock == None)
    && (s.cleanup.Snapped? && s.owner.Some? ==> s.flags == s.cleanup.flags)
    && (s.cleanup.Cleaned? && s.owner.Some? ==> s.waitIrp == None && s.event)
  }

  /** The call has looked at ring `b` since its wait was set up, and has found nothing so far. */
  predicate Checked(c: Call, b: Side) {
    match c.pc
    case CheckRx(ready) => b.Tx? && ready == NONE
    case SelfSignal(ready) => ready == NONE
    case Recheck => true
    case Waiting => true
    case Done => c.isIrp
    case _ => false
  }

  /** The producer is bound to signal: it has yet to read what tells it that there is a wait. */
  predicate OnWay(p: Producer, isIrp: bool) {
    p.Submitted? || p.SawFlags? || p.Signalling? || (p.SawEventSet? && isIrp)
  }

  /** Nobody has taken the IRP, or set the event. */
  predicate Asleep(s: State, c: Call) {
    if c.isIrp then c.routine else !s.event
  }

  /** A set-up wait that has found ring `b` empty, and is not woken, still has the producer coming
      if the ring is no longer empty. */
  ghost predicate WakeOk(s: State, b: Side) {
    s.owner.Some? && s.owner.value in s.calls ==>
      var c := s.calls[s.owner.value];
      Has(c.want, b) && Checked(c, b) && Asleep(s, c) && NonEmpty(s, b) ==> OnWay(ProducerOf(s, b), c.isIrp)
  }

  ghost predicate Core(s: State) {
    OwnerOk(s) && forall id :: id in s.calls ==> CallOk(s, id)
  }

  ghost predicate Inv(s: State) {
    Core(s) && CleanupOk(s) && WakeOk(s, Tx) && WakeOk(s, Rx)
  }

  lemma {:induction false} InitInv(s: State)
    requires Init(s)
    ensures Inv(s)
  {
  }

  // ---- Every step keeps it ----

  ghost predicate Local(before: Option<nat>, after: Option<nat>, id: nat) {
    after == before || ((before == None || before == Some(id)) && (after == None || after == Some(id)))
  }

  /** Nothing but call `id` can tell the two states apart. */
  ghost predicate OnlyMoves(s: State, t: State, id: nat) {
    && t.calls.Keys == s.calls.Keys + {id}
    && (forall j :: j in s.calls && j != id ==> t.calls[j] == s.calls[j])
    && Local(s.lock, t.lock, id) && Local(s.waitIrp, t.waitIrp, id) && Local(s.owner, t.owner, id)
    && s.completing - {id} == t.completing - {id}
  }

  lemma {:induction false} OthersOk(s: State, t: State, id: nat)
    requires Core(s) && OnlyMoves(s, t, id) && CallOk(t, id) && OwnerOk(t)
    ensures Core(t)
  {
    forall j | j in t.calls && j != id
      ensures CallOk(t, j)
    {
      assert CallOk(s, j);
      assert j in s.completing - {id} <==> j in t.completing - {id};
    }
  }

  lemma {:induction false} BeginKeeps(s: State, id: nat, isIrp: bool, want: Flags)
    requires Inv(s) && Enabled(s, Begin(id, isIrp, want))
    ensures Inv(Apply(s, Begin(id, isIrp, want)))
  {
    OthersOk(s, Apply(s, Begin(id, isIrp, want)), id);
  }

  lemma {:induction false} AcquireFails(s: State, id: nat)
    requires Core(s) && At(s, id, Start)
    ensures Core(WithCall(s, id, s.calls[id].(pc := Done)))
  {
    assert CallOk(s, id);
    OthersOk(s, WithCall(s, id, s.calls[id].(pc := Done)), id);
  }

  lemma {:induction false} AcquireWins(s: State, id: nat)
    requires Core(s) && At(s, id, Start) && s.lock == None && s.flags == NONE
    ensures Core(WithCall(s, id, s.calls[id].(pc := FlagsSet)).(lock := Some(id), flags := s.calls[id].want,
            owner := Some(id)))
  {
    assert CallOk(s, id);
    OthersOk(s, WithCall(s, id, s.calls[id].(pc := FlagsSet)).(lock := Some(id), flags := s.calls[id].want,
      owner := Some(id)), id);
  }

  lemma {:induction false} AcquireCore(s: State, id: nat)
    requires Core(s) && Enabled(s, Acquire(id))
    ensures Core(Apply(s, Acquire(id)))
  {
    if s.closing || s.flags != NONE {
      AcquireFails(s, id);
    } else {
      AcquireWins(s, id);
    }
  }

  lemma {:induction false} AcquireRest(s: State, id: nat)
    requires Inv(s) && Enabled(s, Acquire(id))
    ensures CleanupOk(Apply(s, Acquire(id))) && WakeOk(Apply(s, Acquire(id)), Tx) && WakeOk(Apply(s, Acquire(id)), Rx)
  {
    assert CallOk(s, id);
    if s.closing || s.flags != NONE {
      AcquireFailsWake(s, id, Tx);
      AcquireFailsWake(s, id, Rx);
    }
  }

  lemma {:induction false} AcquireFailsWake(s: State, id: nat, b: Side)
    requires WakeOk(s, b) && At(s, id, Start) && CallOk(s, id)
    ensures WakeOk(WithCall(s, id, s.calls[id].(pc := Done)), b)
  {
  }

  lemma {:induction false} ClearEventKeeps(s: State, id: nat)
    requires Inv(s) && Enabled(s, ClearEvent(id))
    ensures Inv(Apply(s, ClearEvent(id)))
  {
    assert CallOk(s, id);
    OthersOk(s, Apply(s, ClearEvent(id)), id);
  }

  lemma {:induction false} PendKeeps(s: State, id: nat)
    requires Inv(s) && Enabled(s, Pend(id))
    ensures Inv(Apply(s, Pend(id)))
  {
    assert CallOk(s, id);
    OthersOk(s, Apply(s, Pend(id)), id);
  }

  lemma {:induction false} SetRoutineKeeps(s: State, id: nat)
    requires Inv(s) && Enabled(s, SetRoutine(id))
    ensures Inv(Apply(s, SetRoutine(id)))
  {
    assert CallOk(s, id);
    OthersOk(s, Apply(s, SetRoutine(id)), id);
  }

  lemma {:induction false} CancelNoticed(s: State, id: nat)
    requires Core(s) && At(s, id, RoutineSet)
    ensures Core(WithCall(s, id, s.calls[id].(pc := CancelSeen)))
  {
    assert CallOk(s, id);
    OthersOk(s, WithCall(s, id, s.calls[id].(pc := CancelSeen)), id);
  }

  lemma {:induction false} NoCancelSeen(s: State, id: nat)
    requires Core(s) && At(s, id, RoutineSet) && !s.calls[id].cancelled
    ensures Core(WithCall(s, id, s.calls[id].(pc := CheckTx)).(lock := None))
  {
    assert CallOk(s, id);
    OthersOk(s, WithCall(s, id, s.calls[id].(pc := CheckTx)).(lock := None), id);
  }

  lemma {:induction false} ReadCancelCore(s: State, id: nat)
    requires Core(s) && Enabled(s, ReadCancel(id))
    ensures Core(Apply(s, ReadCancel(id)))
  {
    if s.calls[id].cancelled {
      CancelNoticed(s, id);
    } else {
      NoCancelSeen(s, id);
    }
  }

  lemma {:induction false} ReadCancelRest(s: State, id: nat)
    requires Inv(s) && Enabled(s, ReadCancel(id))
    ensures CleanupOk(Apply(s, ReadCancel(id))) && WakeOk(Apply(s, ReadCancel(id)), Tx)
            && WakeOk(Apply(s, ReadCancel(id)), Rx)
  {
    assert CallOk(s, id);
  }

  lemma {:induction false} ExchangeWins(s: State, id: nat)
    requires Core(s) && At(s, id, CancelSeen) && s.calls[id].routine
    ensures Core(WithCall(s, id, s.calls[id].(pc := EarlyCancel, routine := false))
                   .(lock := None, waitIrp := None, flags := NONE, owner := None))
  {
    assert CallOk(s, id);
    OthersOk(s, WithCall(s, id, s.calls[id].(pc := EarlyCancel, routine := false))
                  .(lock := None, waitIrp := None, flags := NONE, owner := None), id);
  }

  lemma {:induction false} ExchangeLoses(s: State, id: nat)
    requires Core(s) && At(s, id, CancelSeen) && !s.calls[id].routine
    ensures Core(WithCall(s, id, s.calls[id].(pc := Done)).(lock := None))
  {
    assert CallOk(s, id);
    OthersOk(s, WithCall(s, id, s.calls[id].(pc := Done)).(lock := None), id);
  }

  lemma {:induction false} ExchangeCore(s: State, id: nat)
    requires Core(s) && Enabled(s, Exchange(id))
    ensures Core(Apply(s, Exchange(id)))
  {
    if s.calls[id].routine {
      ExchangeWins(s, id);
    } else {
      ExchangeLoses(s, id);
    }
  }

  lemma {:induction false} ExchangeRest(s: State, id: nat)
    requires Inv(s) && Enabled(s, Exchange(id))
    ensures CleanupOk(Apply(s, Exchange(id))) && WakeOk(Apply(s, Exchange(id)), Tx)
            && WakeOk(Apply(s, Exchange(id)), Rx)
  {
    assert CallOk(s, id);
  }

  lemma {:induction false} EarlyCompleteKeeps(s: State, id: nat)
    requires Inv(s) && Enabled(s, EarlyComplete(id))
    ensures Inv(Apply(s, EarlyComplete(id)))
  {
    assert CallOk(s, id);
    OthersOk(s, Apply(s, EarlyComplete(id)), id);
  }

  lemma {:induction false} QueryTxCore(s: State, id: nat)
    requires Core(s) && Enabled(s, QueryTx(id))
    ensures Core(Apply(s, QueryTx(id)))
  {
    assert CallOk(s, id);
    OthersOk(s, Apply(s, QueryTx(id)), id);
  }

  lemma {:induction false} QueryTxRest(s: State, id: nat)
    requires Inv(s) && Enabled(s, QueryTx(id))
    ensures CleanupOk(Apply(s, QueryTx(id))) && WakeOk(Apply(s, QueryTx(id)), Tx) && WakeOk(Apply(s, QueryTx(id)), Rx)
  {
    assert CallOk(s, id);
  }

  lemma {:induction false} QueryRxCore(s: State, id: nat)
    requires Core(s) && Enabled(s, QueryRx(id))
    ensures Core(Apply(s, QueryRx(id)))
  {
    assert CallOk(s, id);
    OthersOk(s, Apply(s, QueryRx(id)), id);
  }

  lemma {:induction false} QueryRxRest(s: State, id: nat)
    requires Inv(s) && Enabled(s, QueryRx(id))
    ensures CleanupOk(Apply(s, QueryRx(id))) && WakeOk(Apply(s, QueryRx(id)), Tx) && WakeOk(Apply(s, QueryRx(id)), Rx)
  {
    assert CallOk(s, id);
  }

  lemma {:induction false} WakeKeeps(s: State, id: nat)
    requires Inv(s) && Enabled(s, Wake(id))
    ensures Inv(Apply(s, Wake(id)))
  {
    assert CallOk(s, id);
    OthersOk(s, Apply(s, Wake(id)), id);
  }

  lemma {:induction false} FinishKeeps(s: State, id: nat)
    requires Inv(s) && Enabled(s, Finish(id))
    ensures Inv(Apply(s, Finish(id)))
  {
    assert CallOk(s, id);
    OthersOk(s, Apply(s, Finish(id)), id);
  }

  lemma {:induction false} CancelMarkCore(s: State, id: nat)
    requires Core(s) && Enabled(s, CancelMark(id))
    ensures Core(Apply(s, CancelMark(id)))
  {
    assert CallOk(s, id);
    OthersOk(s, Apply(s, CancelMark(id)), id);
  }

  lemma {:induction false} CancelMarkRest(s: State, id: nat)
    requires Inv(s) && Enabled(s, CancelMark(id))
    ensures CleanupOk(Apply(s, CancelMark(id))) && WakeOk(Apply(s, CancelMark(id)), Tx)
            && WakeOk(Apply(s, CancelMark(id)), Rx)
  {
    assert CallOk(s, id);
  }

  lemma {:induction false} CancelTakeCore(s: State, id: nat)
    requires Core(s) && Enabled(s, CancelTake(id))
    ensures Core(Apply(s, CancelTake(id)))
  {
    assert CallOk(s, id);
    OthersOk(s, Apply(s, CancelTake(id)), id);
  }

  lemma {:induction false} CancelTakeRest(s: State, id: nat)
    requires Inv(s) && Enabled(s, CancelTake(id))
    ensures CleanupOk(Apply(s, CancelTake(id))) && WakeOk(Apply(s, CancelTake(id)), Tx)
            && WakeOk(Apply(s, CancelTake(id)), Rx)
  {
    assert CallOk(s, id);
  }

  lemma {:induction false} CancelDrops(s: State, id: nat)
    requires Core(s) && id in s.calls && s.calls[id].runner == Running && s.lock == None && s.waitIrp == Some(id)
    ensures Core(WithCall(s, id, s.calls[id].(runner := Unlocked)).(waitIrp := None, flags := NONE, owner := None))
  {
    assert CallOk(s, id);
    OthersOk(s, WithCall(s, id, s.calls[id].(runner := Unlocked)).(waitIrp := None, flags := NONE, owner := None), id);
  }

  lemma {:induction false} CancelLeaves(s: State, id: nat)
    requires Core(s) && id in s.calls && s.calls[id].runner == Running && s.lock == None && s.waitIrp != Some(id)
    ensures Core(WithCall(s, id, s.calls[id].(runner := Unlocked)))
  {
    assert CallOk(s, id);
    OthersOk(s, WithCall(s, id, s.calls[id].(runner := Unlocked)), id);
  }

  lemma {:induction false} CancelLockedCore(s: State, id: nat)
    requires Core(s) && Enabled(s, CancelLocked(id))
    ensures Core(Apply(s, CancelLocked(id)))
  {
    if s.waitIrp == Some(id) {
      CancelDrops(s, id);
    } else {
      CancelLeaves(s, id);
    }
  }

  lemma {:induction false} CancelLockedRest(s: State, id: nat)
    requires Inv(s) && Enabled(s, CancelLocked(id))
    ensures CleanupOk(Apply(s, CancelLocked(id))) && WakeOk(Apply(s, CancelLocked(id)), Tx)
            && WakeOk(Apply(s, CancelLocked(id)), Rx)
  {
    assert CallOk(s, id);
  }

  lemma {:induction false} CancelCompleteKeeps(s: State, id: nat)
    requires Inv(s) && Enabled(s, CancelComplete(id))
    ensures Inv(Apply(s, CancelComplete(id)))
  {
    assert CallOk(s, id);
    OthersOk(s, Apply(s, CancelComplete(id)), id);
  }

  lemma {:induction false} CompleteKeeps(s: State, id: nat)
    requires Inv(s) && Enabled(s, Complete(id))
    ensures Inv(Apply(s, Complete(id)))
  {
    assert CallOk(s, id);
    OthersOk(s, Apply(s, Complete(id)), id);
  }

  // ---- Signals ----

  lemma {:induction false} SignalTakes(s: State, id: nat)
    requires Core(s) && s.lock == None && s.waitIrp == Some(id)
    ensures Core(WithCall(s, id, s.calls[id].(routine := false))
                   .(waitIrp := None, flags := NONE, owner := None,
                     completing := if s.calls[id].routine then s.completing + {id} else s.completing))
  {
    assert CallOk(s, id);
    var t := WithCall(s, id, s.calls[id].(routine := false))
               .(waitIrp := None, flags := NONE, owner := None,
                 completing := if s.calls[id].routine then s.completing + {id} else s.completing);
    assert CallOk(t, id);
    OthersOk(s, t, id);
  }

  lemma {:induction false} SignalSets(s: State)
    requires Core(s)
    ensures Core(s.(event := true))
  {
    var t := s.(event := true);
    forall id | id in t.calls
      ensures CallOk(t, id)
    {
      assert CallOk(s, id);
    }
  }

  lemma {:induction false} SignalCore(s: State, ready: Flags)
    requires Core(s) && s.lock == None
    ensures Core(SignalBlock(s, ready))
  {
    if s.waitIrp.Some? {
      SignalTakes(s, s.waitIrp.value);
    } else {
      SignalSets(s);
    }
  }

  /** A signal that finds its flag waited for leaves no sleeper behind; any other does nothing. */
  lemma {:induction false} SignalWakes(s: State, ready: Flags)
    requires Core(s) && s.lock == None
    ensures And(s.flags, ready) == NONE ==> SignalBlock(s, ready) == s
    ensures var t := SignalBlock(s, ready);
            And(s.flags, ready) != NONE ==>
              && (t.owner.Some? ==>
                    t.waitIrp == None && t.event && t.owner.value in t.calls && !t.calls[t.owner.value].isIrp)
              && WakeOk(t, Tx) && WakeOk(t, Rx)
  {
    if s.owner.Some? {
      assert CallOk(s, s.owner.value);
    }
  }

  lemma {:induction false} SignalCleanup(s: State, ready: Flags)
    requires Core(s) && s.lock == None && CleanupOk(s)
    ensures CleanupOk(SignalBlock(s, ready))
  {
    SignalWakes(s, ready);
  }

  /** A call's move from looking to waiting. */
  ghost predicate MovesOn(c: Call, pc: Pc) {
    (c.pc.SelfSignal? && pc == Recheck) || (c.pc.Recheck? && pc == if c.isIrp then Done else Waiting)
  }

  lemma {:induction false} MovedCore(s: State, id: nat, pc: Pc)
    requires Core(s) && id in s.calls && s.lock == None && MovesOn(s.calls[id], pc)
    ensures Core(WithCall(s, id, s.calls[id].(pc := pc)))
  {
    assert CallOk(s, id);
    OthersOk(s, WithCall(s, id, s.calls[id].(pc := pc)), id);
  }

  lemma {:induction false} MovedOn(s: State, id: nat, pc: Pc)
    requires Inv(s) && id in s.calls && s.lock == None && MovesOn(s.calls[id], pc)
    ensures Core(WithCall(s, id, s.calls[id].(pc := pc))) && CleanupOk(WithCall(s, id, s.calls[id].(pc := pc)))
    ensures s.owner != Some(id) || s.calls[id].pc == Recheck || s.calls[id].pc == SelfSignal(NONE) ==>
              WakeOk(WithCall(s, id, s.calls[id].(pc := pc)), Tx) && WakeOk(WithCall(s, id, s.calls[id].(pc := pc)), Rx)
  {
    MovedCore(s, id, pc);
  }

  lemma {:induction false} SignalSelfKeeps(s: State, id: nat)
    requires Inv(s) && Enabled(s, SignalSelf(id))
    ensures Inv(Apply(s, SignalSelf(id)))
  {
    assert CallOk(s, id);
    var ready, t := s.calls[id].pc.ready, WithCall(s, id, s.calls[id].(pc := Recheck));
    MovedOn(s, id, Recheck);
    if ready != NONE {
      SignalCore(t, ready);
      SignalWakes(t, ready);
      SignalCleanup(t, ready);
    }
  }

  lemma {:induction false} AbandonKeeps(s: State, id: nat, changed: bool)
    requires Inv(s) && Enabled(s, Abandon(id, changed))
    ensures Inv(Apply(s, Abandon(id, changed)))
  {
    var c := s.calls[id];
    var pc := if c.isIrp then Done else Waiting;
    var t := WithCall(s, id, c.(pc := pc));
    MovedOn(s, id, pc);
    if changed {
      SignalCore(t, c.want);
      SignalWakes(t, c.want);
      SignalCleanup(t, c.want);
    }
  }

  lemma {:induction false} CleanupSignalKeeps(s: State)
    requires Inv(s) && Enabled(s, CleanupSignal)
    ensures Inv(Apply(s, CleanupSignal))
  {
    var t := s.(cleanup := Cleaned);
    assert forall id :: id in t.calls ==> CallOk(s, id);
    assert Core(t);
    if s.cleanup.flags != NONE {
      SignalCore(t, s.cleanup.flags);
      SignalWakes(t, s.cleanup.flags);
    }
  }

  lemma {:induction false} CleanupSnapKeeps(s: State)
    requires Inv(s) && Enabled(s, CleanupSnap)
    ensures Inv(Apply(s, CleanupSnap))
  {
    assert forall id :: id in s.calls ==> CallOk(s, id);
  }

  // ---- The data paths ----

  lemma {:induction false} SameCore(s: State, t: State)
    requires Core(s)
    requires t == s.(tx := t.tx, rx := t.rx, producerTx := t.producerTx, producerRx := t.producerRx)
    ensures Core(t)
  {
    forall id | id in t.calls
      ensures CallOk(t, id)
    {
      assert CallOk(s, id);
    }
  }

  lemma {:induction false} SubmitKeeps(s: State, b: Side)
    requires Inv(s) && Enabled(s, Submit(b))
    ensures Inv(Apply(s, Submit(b)))
  {
    SameCore(s, Apply(s, Submit(b)));
  }

  lemma {:induction false} ReadFlagsKeeps(s: State, b: Side)
    requires Inv(s) && Enabled(s, ReadFlags(b))
    ensures Inv(Apply(s, ReadFlags(b)))
  {
    SameCore(s, Apply(s, ReadFlags(b)));
  }

  lemma {:induction false} ReadEventKeeps(s: State, b: Side)
    requires Inv(s) && Enabled(s, ReadEvent(b))
    ensures Inv(Apply(s, ReadEvent(b)))
  {
    SameCore(s, Apply(s, ReadEvent(b)));
  }

  lemma {:induction false} ReadIrpKeeps(s: State, b: Side)
    requires Inv(s) && Enabled(s, ReadIrp(b))
    ensures Inv(Apply(s, ReadIrp(b)))
  {
    SameCore(s, Apply(s, ReadIrp(b)));
    if s.owner.Some? {
      assert CallOk(s, s.owner.value);
    }
  }

  lemma {:induction false} DrainKeeps(s: State, b: Side)
    requires Inv(s) && Enabled(s, Drain(b))
    ensures Inv(Apply(s, Drain(b)))
  {
    SameCore(s, Apply(s, Drain(b)));
  }

  lemma {:induction false} SignalKeeps(s: State, b: Side)
    requires Inv(s) && Enabled(s, Signal(b))
    ensures Inv(Apply(s, Signal(b)))
  {
    SignalCore(s, Only(b));
    SignalCleanup(s, Only(b));
    var t := SignalBlock(s, Only(b));
    SameCore(t, WithProducer(t, b, Idle));
    SignalRest(s, b);
  }

  lemma {:induction false} SignalRest(s: State, b: Side)
    requires Inv(s) && s.lock == None
    ensures var t := WithProducer(SignalBlock(s, Only(b)), b, Idle); WakeOk(t, Tx) && WakeOk(t, Rx)
  {
    SignalWakes(s, Only(b));
  }

  predicate SetsUp(step: Step) {
    || step.Begin? || step.Acquire? || step.ClearEvent? || step.Pend? || step.SetRoutine? || step.ReadCancel?
    || step.Exchange? || step.EarlyComplete?
  }

  predicate WaitsOrEnds(step: Step) {
    || step.QueryTx? || step.QueryRx? || step.Wake? || step.Finish? || step.CancelMark? || step.CancelTake?
    || step.CancelLocked? || step.CancelComplete? || step.Complete?
  }

  lemma {:induction false} SetUpKeeps(s: State, step: Step)
    requires Inv(s) && Enabled(s, step) && SetsUp(step)
    ensures Inv(Apply(s, step))
  {
    match step
    case Begin(id, isIrp, want) => BeginKeeps(s, id, isIrp, want);
    case Acquire(id) => AcquireCore(s, id); AcquireRest(s, id);
    case ClearEvent(id) => ClearEventKeeps(s, id);
    case Pend(id) => PendKeeps(s, id);
    case SetRoutine(id) => SetRoutineKeeps(s, id);
    case ReadCancel(id) => ReadCancelCore(s, id); ReadCancelRest(s, id);
    case Exchange(id) => ExchangeCore(s, id); ExchangeRest(s, id);
    case EarlyComplete(id) => EarlyCompleteKeeps(s, id);
  }

  lemma {:induction false} WaitKeeps(s: State, step: Step)
    requires Inv(s) && Enabled(s, step) && WaitsOrEnds(step)
    ensures Inv(Apply(s, step))
  {
    match step
    case QueryTx(id) => QueryTxCore(s, id); QueryTxRest(s, id);
    case QueryRx(id) => QueryRxCore(s, id); QueryRxRest(s, id);
    case Wake(id) => WakeKeeps(s, id);
    case Finish(id) => FinishKeeps(s, id);
    case CancelMark(id) => CancelMarkCore(s, id); CancelMarkRest(s, id);
    case CancelTake(id) => CancelTakeCore(s, id); CancelTakeRest(s, id);
    case CancelLocked(id) => CancelLockedCore(s, id); CancelLockedRest(s, id);
    case CancelComplete(id) => CancelCompleteKeeps(s, id);
    case Complete(id) => CompleteKeeps(s, id);
  }

  lemma {:induction false} DataPathKeeps(s: State, step: Step)
    requires Inv(s) && Enabled(s, step) && !SetsUp(step) && !WaitsOrEnds(step)
    ensures Inv(Apply(s, step))
  {
    match step
    case SignalSelf(id) => SignalSelfKeeps(s, id);
    case Abandon(id, changed) => AbandonKeeps(s, id, changed);
    case Submit(b) => SubmitKeeps(s, b);
    case ReadFlags(b) => ReadFlagsKeeps(s, b);
    case ReadEvent(b) => ReadEventKeeps(s, b);
    case ReadIrp(b) => ReadIrpKeeps(s, b);
    case Signal(b) => SignalKeeps(s, b);
    case Drain(b) => DrainKeeps(s, b);
    case CleanupSnap => CleanupSnapKeeps(s);
    case CleanupSignal => CleanupSignalKeeps(s);
  }

  /** Every step of every thread keeps the invariant. */
  lemma {:induction false} StepKeeps(s: State, step: Step)
    requires Inv(s) && Enabled(s, step)
    ensures Inv(Apply(s, step))
  {
    if SetsUp(step) {
      SetUpKeeps(s, step);
    } else if WaitsOrEnds(step) {
      WaitKeeps(s, step);
    } else {
      DataPathKeeps(s, step);
    }
  }

  // ---- Runs ----

  ghost predicate Next(s: State, t: State) {
    exists step :: Enabled(s, step) && t == Apply(s, step)
  }

  /** A run: every state follows from the one before by some step of some thread. */
  ghost predicate IsRun(states: seq<State>) {
    && |states| > 0 && Init(states[0])
    && forall i :: 0 < i < |states| ==> Next(states[i - 1], states[i])
  }

  lemma {:induction false} RunKeeps(states: seq<State>, i: nat)
    requires IsRun(states) && i < |states|
    ensures Inv(states[i])
    decreases i
  {
    if i == 0 {
      InitInv(states[0]);
    } else {
      RunKeeps(states, i - 1);
      assert Next(states[i - 1], states[i]);
      var step :| Enabled(states[i - 1], step) && states[i] == Apply(states[i - 1], step);
      StepKeeps(states[i - 1], step);
    }
  }

  /** Some thread has the IRP in hand and completes it next: a signaller, the cancel routine, or the
      notify call that saw the cancellation. */
  ghost predicate InHand(s: State, id: nat)
    requires id in s.calls
  {
    id in s.completing || s.calls[id].runner == Running || s.calls[id].runner == Unlocked || s.calls[id].pc.EarlyCancel?
  }

  /** The IRP waits where a signal, a cancellation or cleanup finds it, or is being put there. */
  ghost predicate Parked(s: State, id: nat)
    requires id in s.calls
  {
    s.waitIrp == Some(id) && (s.calls[id].routine || s.calls[id].pc.IrpSet?)
  }

  /** No IRP is completed twice, and one not yet completed is parked or in exactly one pair of hands. */
  lemma {:induction false} CompletedOnce(states: seq<State>, i: nat, id: nat)
    requires IsRun(states) && i < |states| && id in states[i].calls && states[i].calls[id].pended
    ensures states[i].calls[id].completions <= 1
    ensures states[i].calls[id].completions == 0 <==> (Parked(states[i], id) || InHand(states[i], id))
    ensures !(Parked(states[i], id) && InHand(states[i], id))
    ensures !(id in states[i].completing && (states[i].calls[id].runner == Running
            || states[i].calls[id].runner == Unlocked))
  {
    RunKeeps(states, i);
    assert CallOk(states[i], id);
  }

  /** Once cleanup is through, no IRP is parked: each is completed or in somebody's hands. */
  lemma {:induction false} CleanupEmpties(states: seq<State>, i: nat)
    requires IsRun(states) && i < |states| && states[i].cleanup.Cleaned?
    ensures states[i].waitIrp == None
    ensures forall id :: id in states[i].calls && states[i].calls[id].pended && states[i].calls[id].completions == 0 ==>
              InHand(states[i], id)
    ensures forall id :: id in states[i].calls && states[i].calls[id].pc.Waiting? ==> states[i].event
  {
    RunKeeps(states, i);
    forall id | id in states[i].calls
      ensures states[i].calls[id].pended && states[i].calls[id].completions == 0 ==> InHand(states[i], id)
      ensures states[i].calls[id].pc.Waiting? ==> states[i].event
    {
      assert CallOk(states[i], id);
    }
  }

  // ---- No lost wakeup ----

  /** Call `id` waits for ring `b` and nothing has woken it: its thread is blocked on a clear event,
      or its IRP is parked and its thread has left. */
  ghost predicate Sleeps(s: State, id: nat, b: Side) {
    && id in s.calls && Has(s.calls[id].want, b)
    && (if s.calls[id].isIrp then s.calls[id].pc.Done? && s.calls[id].routine
        else s.calls[id].pc.Waiting? && !s.event)
  }

  lemma {:induction false} NoLostWakeup(states: seq<State>, i: nat, id: nat, b: Side)
    requires IsRun(states) && i < |states| && Sleeps(states[i], id, b) && NonEmpty(states[i], b)
    ensures OnWay(ProducerOf(states[i], b), states[i].calls[id].isIrp)
  {
    RunKeeps(states, i);
    assert CallOk(states[i], id);
  }

  function NextStep(p: Producer, b: Side): Step {
    match p
    case Idle => Submit(b)
    case Submitted => ReadFlags(b)
    case SawFlags => ReadEvent(b)
    case SawEventSet => ReadIrp(b)
    case Signalling => Signal(b)
  }

  function StepsLeft(p: Producer): nat {
    match p
    case Idle => 0
    case Submitted => 4
    case SawFlags => 3
    case SawEventSet => 2
    case Signalling => 1
  }

  /** The step brings that producer's signal nearer, or wakes the sleeper. */
  ghost predicate Delivers(s: State, step: Step, id: nat, b: Side) {
    && Enabled(s, step)
    && (Sleeps(Apply(s, step), id, b) ==> StepsLeft(ProducerOf(Apply(s, step), b)) < StepsLeft(ProducerOf(s, b)))
  }

  lemma {:induction false} FlagsDeliver(s: State, id: nat, b: Side)
    requires Inv(s) && Sleeps(s, id, b) && ProducerOf(s, b) == Submitted
    ensures Delivers(s, ReadFlags(b), id, b)
  {
    assert CallOk(s, id);
  }

  lemma {:induction false} EventDelivers(s: State, id: nat, b: Side)
    requires Inv(s) && Sleeps(s, id, b) && ProducerOf(s, b) == SawFlags
    ensures Delivers(s, ReadEvent(b), id, b)
  {
  }

  lemma {:induction false} IrpDelivers(s: State, id: nat, b: Side)
    requires Inv(s) && Sleeps(s, id, b) && ProducerOf(s, b) == SawEventSet && s.calls[id].isIrp
    ensures Delivers(s, ReadIrp(b), id, b)
  {
    assert CallOk(s, id);
  }

  lemma {:induction false} SignalDelivers(s: State, id: nat, b: Side)
    requires Inv(s) && Sleeps(s, id, b) && ProducerOf(s, b) == Signalling && s.lock == None
    ensures Delivers(s, Signal(b), id, b) && !Sleeps(Apply(s, Signal(b)), id, b)
  {
    assert CallOk(s, id);
    SignalWakes(s, Only(b));
  }

  /** Being on its way means getting there: in any run, with a sleeper and a non-empty ring, each
      further step of that ring's producer delivers. */
  lemma {:induction false} ProducerDelivers(states: seq<State>, i: nat, id: nat, b: Side)
    requires IsRun(states) && i < |states| && Sleeps(states[i], id, b) && NonEmpty(states[i], b)
    requires ProducerOf(states[i], b) == Signalling ==> states[i].lock == None
    ensures Delivers(states[i], NextStep(ProducerOf(states[i], b), b), id, b)
  {
    var s := states[i];
    RunKeeps(states, i);
    NoLostWakeup(states, i, id, b);
    match ProducerOf(s, b)
    case Submitted => FlagsDeliver(s, id, b);
    case SawFlags => EventDelivers(s, id, b);
    case SawEventSet => IrpDelivers(s, id, b);
    case Signalling => SignalDelivers(s, id, b);
  }
}
