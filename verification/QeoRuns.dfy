/**
 Set requests that overlap in any way. Over every run of begun, rolled back and finished calls and of the
 driver's reports, a call's connections change from its first half to its second only in what the driver
 reports on them, so its outcome is fixed by the state before it began and its own reports.
 */
module QeoRuns {
  import opened Options
  import opened Qeo

  ghost predicate HappensAt(states: seq<Settings>, events: seq<Event>, k: nat)
    requires k < |events| && |states| == |events| + 1
  {
    Happens(states[k], states[k + 1], events[k])
  }

  /** States and the events between them. */
  ghost predicate Run(states: seq<Settings>, events: seq<Event>) {
    |states| == |events| + 1 && forall k :: 0 <= k < |events| ==> HappensAt(states, events, k)
  }

  /** The call does not end from event `i` up to event `j`. */
  ghost predicate InFlight(events: seq<Event>, i: nat, j: nat, call: nat) {
    j <= |events| && forall k :: i <= k < j ==> events[k] != Finished(call, true) && events[k] != Finished(call, false)
  }

  /** What the driver said last about a connection, from event `i` up to event `j`. */
  function LastReport(events: seq<Event>, i: nat, j: nat, id: nat): int
    requires j <= |events|
    decreases j
  {
    if j <= i then PENDING
    else
      var e := events[j - 1];
      if e.Reported? && e.id == id then e.result else LastReport(events, i, j - 1, id)
  }

  /** A call in flight: its list is as it was, and a connection on it has changed only in its status. */
  ghost predicate Undisturbed(marked: Settings, later: Settings, call: nat, id: nat, status: int) {
    && call in marked.calls && call in later.calls && later.calls[call] == marked.calls[call]
    && id in marked.objects && id in later.objects && later.objects[id] == marked.objects[id].(status := status)
  }

  /** An event of a call, or of another call, leaves a call in flight undisturbed. */
  lemma {:induction false} EventLeaves(
    marked: Settings, before: Settings, after: Settings, e: Event, call: nat, id: nat, status: int)
    requires Happens(before, after, e) && !(e.Finished? && e.call == call)
    requires Undisturbed(marked, before, call, id, status) && id in marked.calls[call]
    ensures Undisturbed(marked, after, call, id, if e.Reported? && e.id == id then e.result else status)
  {
    assert CallOk(before.objects, call, before.calls[call]) && Linked(before.objects[id], id, before.calls);
    match e
    case Began(other) => BeginLeavesOthers(before, after, other, call, id);
    case BeginFailed =>
    case Reported(other, _, _) =>
    case Finished(other, ok) => FinishLeavesOthers(before, after.objects, other, ok, call, id);
  }

  /** Over any run: from the first half of a call on, as long as it does not end, its connections keep
      everything but the status, and that is the driver's last report. */
  lemma {:induction false} CallUndisturbed(
    states: seq<Settings>, events: seq<Event>, i: nat, j: nat, call: nat, id: nat)
    requires Run(states, events) && i <= j && InFlight(events, i, j, call)
    requires Undisturbed(states[i], states[i], call, id, PENDING) && id in states[i].calls[call]
    ensures Undisturbed(states[i], states[j], call, id, LastReport(events, i, j, id))
    decreases j
  {
    if i < j {
      CallUndisturbed(states, events, i, j - 1, call, id);
      assert HappensAt(states, events, j - 1);
      EventLeaves(states[i], states[j - 1], states[j], events[j - 1], call, id, LastReport(events, i, j - 1, id));
    }
  }

  lemma {:induction false} ListKept(states: seq<Settings>, events: seq<Event>, i: nat, j: nat, call: nat)
    requires Run(states, events) && i <= j && InFlight(events, i, j, call) && call in states[i].calls
    ensures call in states[j].calls && states[j].calls[call] == states[i].calls[call]
    decreases j
  {
    if i < j {
      ListKept(states, events, i, j - 1, call);
      assert HappensAt(states, events, j - 1);
    }
  }

  /** What a call that began at `before` has made of one of its connections, given what the driver said of
      it last: an added connection stays exactly if the call and its own report are good, with that
      report as its status; one to be removed is gone exactly then, and otherwise back as it was, with
      the plain success code. */
  ghost predicate Outcome(before: Settings, marked: Settings, after: Settings, id: nat, ok: bool, report: int) {
    if id in before.objects then
      && before.objects[id].phase == Added
      && (id in after.objects <==> !(ok && report >= 0))
      && (id in after.objects ==> after.objects[id] == before.objects[id].(status := S_OK))
    else
      && (id in after.objects <==> ok && report >= 0)
      && (id in after.objects ==>
            id in marked.objects && after.objects[id] == Connection(marked.objects[id].key, OpAdd, report, Added, None))
  }

  lemma {:induction false} MarkedPending(before: Settings, marked: Settings, call: nat, id: nat)
    requires Happens(before, marked, Began(call)) && id in marked.calls[call]
    ensures id in marked.objects && Undisturbed(marked, marked, call, id, PENDING)
    ensures id in before.objects ==>
              before.objects[id].phase == Added && marked.objects[id] == Marked(before.objects[id], call)
    ensures id in before.objects ==> before.objects[id].operation == OpAdd && before.objects[id].transaction == None
    ensures id !in before.objects ==> marked.objects[id] == NewConnection(marked.objects[id].key, call)
  {
    assert CallOk(marked.objects, call, marked.calls[call]) && Linked(marked.objects[id], id, marked.calls);
    if id in before.objects {
      assert MarkedOne(before.objects, marked.objects, id, marked.calls[call], call);
      assert Linked(before.objects[id], id, before.calls);
    }
  }

  lemma {:induction false} SettledOutcome(
    before: Settings, marked: Settings, later: Settings, after: Settings, call: nat, id: nat, ok: bool, report: int)
    requires Happens(before, marked, Began(call)) && id in marked.calls[call]
    requires Undisturbed(marked, later, call, id, report) && Happens(later, after, Finished(call, ok))
    ensures Outcome(before, marked, after, id, ok, report)
  {
    MarkedPending(before, marked, call, id);
    assert SettledOne(later.objects, after.objects, id, later.calls[call], ok);
  }

  /** Transactions under any interleaving: over any run from a call's beginning to its end, whatever other
      calls and the driver do in between, every connection of the call comes out by the call's result
      and its own last report, relative to the state before the call; the call's end leaves every other
      connection alone. */
  lemma {:induction false} CallOutcome(
    states: seq<Settings>, events: seq<Event>, i: nat, j: nat, call: nat, ok: bool, id: nat)
    requires Run(states, events) && i < j < |events|
    requires events[i] == Began(call) && events[j] == Finished(call, ok) && InFlight(events, i + 1, j, call)
    ensures call in states[i + 1].calls && call !in states[i].calls && call !in states[j + 1].calls
    ensures id in states[i + 1].calls[call] ==>
              Outcome(states[i], states[i + 1], states[j + 1], id, ok, LastReport(events, i + 1, j, id))
    ensures id !in states[i + 1].calls[call] && id in states[j].objects ==>
              id in states[j + 1].objects && states[j + 1].objects[id] == states[j].objects[id]
  {
    assert HappensAt(states, events, i);
    assert HappensAt(states, events, j);
    ListKept(states, events, i + 1, j, call);
    if id in states[i + 1].calls[call] {
      MarkedPending(states[i], states[i + 1], call, id);
      CallUndisturbed(states, events, i + 1, j, call, id);
      SettledOutcome(states[i], states[i + 1], states[j], states[j + 1], call, id, ok,
        LastReport(events, i + 1, j, id));
    } else if id in states[j].objects {
      assert SettledOne(states[j].objects, states[j + 1].objects, id, states[j].calls[call], ok);
    }
  }

  // ---- Runs of the locked blocks ----

  lemma {:induction false} PhasesExist(objects: Objects) returns (phases: map<Key, Phase>)
    requires KeysDistinct(objects)
    ensures ShowsPhases(objects, phases)
  {
    phases := map id | id in objects :: objects[id].key := objects[id].phase;
  }

  /** What a thread of the interface's clients or the driver does next. */
  datatype Step =
    | DoBegin(call: nat, requests: seq<Request>)
    | DoReport(call: nat, id: nat, result: int)
    | DoFinish(call: nat, ok: bool)

  method TakeStep(o: Offloads, step: Step) returns (taken: bool, ghost e: Event)
    requires Valid(o.settings)
    modifies o
    ensures Valid(o.settings)
    ensures taken ==> Happens(old(o.settings), o.settings, e)
    ensures !taken ==> o.settings == old(o.settings)
  {
    taken, e := false, BeginFailed;
    var s := o.settings;
    match step
    case DoBegin(call, requests) =>
      if call !in s.calls {
        ghost var phases := PhasesExist(s.objects);
        var status := o.Begin(call, requests, phases);
        taken, e := true, if status == Success then Began(call) else BeginFailed;
      }
    case DoReport(call, id, result) =>
      if call in s.calls && id in s.calls[call] && id in s.objects {
        o.DriverReports(call, id, result);
        taken, e := true, Reported(call, id, result);
      }
    case DoFinish(call, ok) =>
      if call in s.calls {
        var outputs := o.Finish(call, ok);
        taken, e := true, Finished(call, ok);
      }
  }

  lemma {:induction false} RunMore(states: seq<Settings>, events: seq<Event>, next: Settings, e: Event)
    requires Run(states, events) && Happens(states[|events|], next, e)
    ensures Run(states + [next], events + [e])
  {
    forall k: nat | k < |events| + 1
      ensures HappensAt(states + [next], events + [e], k)
    {
      if k < |events| {
        assert HappensAt(states, events, k);
      }
    }
  }

  /** Whatever order the threads take the lock in, what happens is a run, so the laws above hold of it. */
  method RunAll(o: Offloads, steps: seq<Step>) returns (ghost states: seq<Settings>, ghost events: seq<Event>)
    requires Valid(o.settings)
    modifies o
    ensures Valid(o.settings) && Run(states, events)
    ensures states[0] == old(o.settings) && states[|events|] == o.settings
  {
    states, events := [o.settings], [];
    for k := 0 to |steps|
      invariant Valid(o.settings) && Run(states, events)
      invariant states[0] == old(o.settings) && states[|events|] == o.settings
    {
      var taken;
      ghost var e;
      taken, e := TakeStep(o, steps[k]);
      if taken {
        RunMore(states, events, o.settings, e);
        states, events := states + [o.settings], events + [e];
      }
    }
  }

  // ---- What a failed removal loses ----

  lemma {:induction false} PlanOne(key: Key)
    ensures Plan(map[], [Ask(OpAdd, key, true)]) == (Success, map[key := Adding])
    ensures Plan(map[key := Added], [Ask(OpRemove, key, true)]) == (Success, map[key := Removing])
  {
    assert [Ask(OpAdd, key, true)][1..] == [] && [Ask(OpRemove, key, true)][1..] == [];
    assert map[key := Added][key := Removing] == map[key := Removing];
  }

  lemma {:induction false} MarkedIs(before: Settings, marked: Settings, call: nat, id: nat)
    requires before.calls == map[] && Happens(before, marked, Began(call))
    requires id in marked.objects && marked.objects[id].phase != Added
    ensures id in marked.calls[call]
  {
    assert Linked(marked.objects[id], id, marked.calls);
  }

  lemma {:induction false} AddedAlone(s0: Settings, s1: Settings, s2: Settings, s3: Settings, id: nat, key: Key)
    requires s0 == Settings(map[], [], map[], 0) && Happens(s0, s1, Began(0)) && id in s1.calls[0]
    requires ShowsPhases(s1.objects, map[key := Adding])
    requires Happens(s1, s2, Reported(0, id, 1)) && Happens(s2, s3, Finished(0, true))
    ensures s3.calls == map[] && id in s3.objects && s3.objects[id] == Connection(key, OpAdd, 1, Added, None)
    ensures ShowsPhases(s3.objects, map[key := Added])
  {
    MarkedPending(s0, s1, 0, id);
    SettledOutcome(s0, s1, s2, s3, 0, id, true, 1);
    assert s3.calls == map[];
    AloneShows(s1, s3, id, key);
  }

  lemma {:induction false} AloneShows(marked: Settings, after: Settings, id: nat, key: Key)
    requires ShowsPhases(marked.objects, map[key := Adding]) && KeysDistinct(marked.objects)
    requires forall j :: j in after.objects ==> j in marked.objects
    requires id in after.objects && after.objects[id].key == key && after.objects[id].phase == Added
    ensures ShowsPhases(after.objects, map[key := Added])
  {
    forall j | j in after.objects
      ensures j == id
    {
      assert marked.objects[j].key == key && marked.objects[id].key == key;
    }
    assert HasKey(after.objects, key);
  }

  /** A connection that the driver added with a success code other than the plain one. */
  method AddedWithCode(key: Key) returns (o: Offloads, id: nat)
    ensures fresh(o) && Valid(o.settings) && o.settings.calls == map[]
    ensures id in o.settings.objects && o.settings.objects[id] == Connection(key, OpAdd, 1, Added, None)
    ensures ShowsPhases(o.settings.objects, map[key := Added])
  {
    o := new Offloads();
    ghost var s0 := o.settings;
    PlanOne(key);
    var status := o.Begin(0, [Ask(OpAdd, key, true)], map[]);
    ghost var s1 := o.settings;
    assert HasKey(s1.objects, key);
    var found := o.FindOffloadedConnection(key);
    id := found.value;
    MarkedIs(s0, s1, 0, id);
    o.DriverReports(0, id, 1);
    ghost var s2 := o.settings;
    var outputs := o.Finish(0, true);
    AddedAlone(s0, s1, s2, o.settings, id, key);
  }

  lemma {:induction false} RemovalUndone(s0: Settings, s1: Settings, s2: Settings, id: nat, key: Key)
    requires s0.calls == map[] && Happens(s0, s1, Began(1)) && Happens(s1, s2, Finished(1, false))
    requires id in s0.objects && s0.objects[id] == Connection(key, OpAdd, 1, Added, None)
    requires ShowsPhases(s1.objects, map[key := Removing])
    ensures s2.calls == map[] && id in s2.objects && s2.objects[id] == Connection(key, OpAdd, S_OK, Added, None)
  {
    assert MarkedOne(s0.objects, s1.objects, id, s1.calls[1], 1);
    MarkedIs(s0, s1, 1, id);
    SettledOutcome(s0, s1, s1, s2, 1, id, false, s1.objects[id].status);
  }

  /** Its removal is asked for and fails, and its status is no longer what it was. */
  method FailedRemovalLoses(key: Key) returns (o: Offloads, id: nat, before: int)
    ensures fresh(o) && Valid(o.settings) && o.settings.calls == map[]
    ensures id in o.settings.objects && before == 1
    ensures o.settings.objects[id] == Connection(key, OpAdd, S_OK, Added, None)
  {
    o, id := AddedWithCode(key);
    before := o.settings.objects[id].status;
    ghost var s0 := o.settings;
    PlanOne(key);
    var status := o.Begin(1, [Ask(OpRemove, key, true)], map[key := Added]);
    ghost var s1 := o.settings;
    var outputs := o.Finish(1, false);
    RemovalUndone(s0, s1, o.settings, id, key);
  }
}
