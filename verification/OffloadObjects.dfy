/**
 Offload objects of an interface set. An object is torn down from whichever end comes first: its
 handle is closed, or the interface set is deleted. Opening, downcalls, closing and deletion are
 threads that race; a locked block or a reference count operation is one step.
 */
module OffloadObjects {

  /** What is left of a cleanup: revert the settings, close the driver's handle, drop the reference. */
  datatype Cleaning = ToRevert | ToClose | ToRelease

  /** How far the owner of an object is, from allocation to dropping its reference. */
  datatype Phase =
    | Allocated
    | Protected
    | Opened
    | Counted
    | Inserted
    | Open
    | Closing(left: Cleaning)
    | Dereferencing
    | Gone
    | Failing
    | Aborted

  /** `reverts`, `closes` and `frees` count what has been done to the object. */
  datatype Object = Object(phase: Phase, refs: nat, handle: bool, reverts: nat, closes: nat, frees: nat)

  /** Holders of rundown protection: an open in progress, or a get or set downcall. */
  datatype Holder = Opener(id: nat) | User(id: nat, n: nat)

  datatype Deleter =
    | Idle
    | RunningDown
    | Looping
    | Cleanup(id: nat, left: Cleaning)
    | Drop(id: nat)
    | EventReady
    | Released
    | Returned

  /** `counted` are the objects that hold a reference on the set's offload. */
  datatype State = State(
    objects: map<nat, Object>, list: set<nat>, holders: set<Holder>,
    refs: nat, counted: set<nat>, eventPointer: bool, event: bool, deleter: Deleter)

  ghost predicate Init(s: State) {
    s == State(map[], {}, {}, 1, {}, false, false, Idle)
  }

  // ---- Steps ----

  datatype Step =
    | Allocate(id: nat)
    | Protect(id: nat)
    | OpenDriver(id: nat, ok: bool)
    | Count(id: nat)
    | Insert(id: nat)
    | Unprotect(id: nat)
    | Abort(id: nat)
    | Downcall(id: nat, n: nat)
    | DowncallDone(id: nat, n: nat)
    | Close(id: nat)
    | CloseClean(id: nat)
    | Dereference(id: nat)
    | Delete
    | DeleteWaited
    | DeleteTake(id: nat)
    | DeleteClean
    | DeleteDrop
    | DeleteDone
    | DeleteRelease
    | DeleteReturn

  function Put(s: State, id: nat, o: Object): State {
    s.(objects := s.objects[id := o])
  }

  /** Drops one reference to an object; the last frees it. */
  function Deref(o: Object): Object
    requires o.refs > 0
  {
    o.(refs := o.refs - 1, frees := if o.refs == 1 then o.frees + 1 else o.frees)
  }

  /** Drops one reference to the set's offload; the last sets the event it points to. */
  function ReleaseRef(s: State): State
    requires s.refs > 0
  {
    s.(refs := s.refs - 1, event := if s.refs == 1 then true else s.event)
  }

  /** One step of a cleanup: what it does to the object, and to the set. */
  function CleanObject(o: Object, left: Cleaning): Object {
    match left
    case ToRevert => o.(reverts := o.reverts + 1)
    case ToClose => o.(closes := o.closes + 1, handle := false)
    case ToRelease => o
  }

  function CleanSet(s: State, id: nat, left: Cleaning): State
    requires s.refs > 0
  {
    if left.ToRelease? then ReleaseRef(s).(counted := s.counted - {id}) else s
  }

  ghost predicate At(s: State, id: nat, phase: Phase) {
    id in s.objects && s.objects[id].phase == phase
  }

  predicate Deleting(d: Deleter) {
    !d.Idle?
  }

  ghost predicate Enabled(s: State, step: Step) {
    match step
    case Allocate(id) => id !in s.objects
    case Protect(id) => At(s, id, Allocated)
    case OpenDriver(id, _) => At(s, id, Protected)
    case Count(id) => At(s, id, Opened)
    case Insert(id) => At(s, id, Counted)
    case Unprotect(id) => At(s, id, Inserted)
    case Abort(id) => At(s, id, Failing) && s.objects[id].refs > 0
    case Downcall(id, n) => At(s, id, Open) && User(id, n) !in s.holders
    case DowncallDone(id, n) => User(id, n) in s.holders
    case Close(id) => At(s, id, Open) && forall n :: User(id, n) !in s.holders
    case CloseClean(id) => id in s.objects && s.objects[id].phase.Closing? && s.refs > 0
    case Dereference(id) => At(s, id, Dereferencing) && s.objects[id].refs > 0
    case Delete => s.deleter.Idle?
    case DeleteWaited => s.deleter.RunningDown? && s.holders == {}
    case DeleteTake(id) => s.deleter.Looping? && id in s.list && id in s.objects
    case DeleteClean => s.deleter.Cleanup? && s.deleter.id in s.objects && s.refs > 0
    case DeleteDrop => s.deleter.Drop? && s.deleter.id in s.objects && s.objects[s.deleter.id].refs > 0
    case DeleteDone => s.deleter.Looping? && s.list == {}
    case DeleteRelease => s.deleter.EventReady? && s.refs > 0
    case DeleteReturn => s.deleter.Released? && s.event
  }

  ghost function Apply(s: State, step: Step): State
    requires Enabled(s, step)
  {
    match step
    case Allocate(id) => Put(s, id, Object(Allocated, 1, false, 0, 0, 0))
    case Protect(id) =>
      if Deleting(s.deleter) then Put(s, id, s.objects[id].(phase := Failing))
      else Put(s, id, s.objects[id].(phase := Protected)).(holders := s.holders + {Opener(id)})
    case OpenDriver(id, ok) =>
      if ok then Put(s, id, s.objects[id].(phase := Opened, handle := true))
      else Put(s, id, s.objects[id].(phase := Failing)).(holders := s.holders - {Opener(id)})
    case Count(id) =>
      Put(s, id, s.objects[id].(phase := Counted)).(refs := s.refs + 1, counted := s.counted + {id})
    case Insert(id) => Put(s, id, s.objects[id].(phase := Inserted)).(list := s.list + {id})
    case Unprotect(id) => Put(s, id, s.objects[id].(phase := Open)).(holders := s.holders - {Opener(id)})
    case Abort(id) => Put(s, id, Deref(s.objects[id]).(phase := Aborted))
    case Downcall(id, n) => if Deleting(s.deleter) then s else s.(holders := s.holders + {User(id, n)})
    case DowncallDone(id, n) => s.(holders := s.holders - {User(id, n)})
    case Close(id) =>
      if id in s.list then Put(s, id, s.objects[id].(phase := Closing(ToRevert))).(list := s.list - {id})
      else Put(s, id, s.objects[id].(phase := Dereferencing))
    case CloseClean(id) =>
      var left := s.objects[id].phase.left;
      Put(CleanSet(s, id, left), id,
          CleanObject(s.objects[id], left).(phase := match left
                                                     case ToRevert => Closing(ToClose)
                                                     case ToClose => Closing(ToRelease)
                                                     case ToRelease => Dereferencing))
    case Dereference(id) => Put(s, id, Deref(s.objects[id]).(phase := Gone))
    case Delete => s.(deleter := RunningDown)
    case DeleteWaited => s.(deleter := Looping)
    case DeleteTake(id) =>
      Put(s, id, s.objects[id].(refs := s.objects[id].refs + 1)).(list := s.list - {id},
        deleter := Cleanup(id, ToRevert))
    case DeleteClean =>
      var id := s.deleter.id;
      Put(CleanSet(s, id, s.deleter.left), id, CleanObject(s.objects[id], s.deleter.left))
        .(deleter := match s.deleter.left
                     case ToRevert => Cleanup(id, ToClose)
                     case ToClose => Cleanup(id, ToRelease)
                     case ToRelease => Drop(id))
    case DeleteDrop => Put(s, s.deleter.id, Deref(s.objects[s.deleter.id])).(deleter := Looping)
    case DeleteDone => s.(deleter := EventReady, eventPointer := true)
    case DeleteRelease => ReleaseRef(s).(deleter := Released)
    case DeleteReturn => s.(deleter := Returned)
  }

  // ---- The invariant ----

  /** Where an object is between opening and the end of its cleanup, whoever does the cleanup. */
  datatype Life = Unborn | Fresh | OnList | Cleaned | InCleanup(left: Cleaning)

  ghost function LifeOf(s: State, id: nat): Life
    requires id in s.objects
  {
    match s.objects[id].phase
    case Allocated => Unborn
    case Protected => Unborn
    case Failing => Unborn
    case Aborted => Unborn
    case Opened => Fresh
    case Counted => Fresh
    case Closing(left) => InCleanup(left)
    case _ =>
      if id in s.list then OnList
      else if s.deleter.Cleanup? && s.deleter.id == id then InCleanup(s.deleter.left)
      else Cleaned
  }

  ghost predicate DeleterHas(s: State, id: nat) {
    (s.deleter.Cleanup? || s.deleter.Drop?) && s.deleter.id == id
  }

  ghost predicate ObjectOk(s: State, id: nat)
    requires id in s.objects
  {
    var o, life := s.objects[id], LifeOf(s, id);
    && o.refs == (if o.phase.Gone? || o.phase.Aborted? then 0 else 1) + (if DeleterHas(s, id) then 1 else 0)
    && o.frees == (if o.refs == 0 then 1 else 0)
    && (o.handle <==> life.Fresh? || life.OnList? || life == InCleanup(ToRevert) || life == InCleanup(ToClose))
    && o.reverts == (if life.Cleaned? || life == InCleanup(ToClose) || life == InCleanup(ToRelease) then 1 else 0)
    && o.closes == (if life.Cleaned? || life == InCleanup(ToRelease) then 1 else 0)
    && (id in s.counted <==> o.phase.Counted? || life.OnList? || life.InCleanup?)
    && (Opener(id) in s.holders <==> o.phase.Protected? || o.phase.Opened? || o.phase.Counted? || o.phase.Inserted?)
    && (id in s.list ==> o.phase.Inserted? || o.phase.Open?)
    && (o.phase.Inserted? ==> id in s.list)
    && (o.phase.Open? && (s.deleter.Idle? || s.deleter.RunningDown?) ==> id in s.list)
    && (DeleterHas(s, id) ==> id !in s.list && (o.phase.Open? || o.phase.Dereferencing? || o.phase.Gone?))
    && (forall n :: User(id, n) in s.holders ==> o.phase.Open? && id in s.list)
  }

  ghost predicate SetOk(s: State) {
    && (forall id :: id in s.list ==> id in s.objects)
    && (forall id :: id in s.counted ==> id in s.objects)
    && (forall h :: h in s.holders ==> h.id in s.objects)
    && (s.deleter.Cleanup? || s.deleter.Drop? ==> s.deleter.id in s.objects)
    && (!s.deleter.Idle? && !s.deleter.RunningDown? ==> s.holders == {})
    && (s.deleter.EventReady? || s.deleter.Released? || s.deleter.Returned? ==> s.list == {})
    && s.refs == (if s.deleter.Released? || s.deleter.Returned? then 0 else 1) + |s.counted|
    && (s.event <==> s.refs == 0)
    && (s.eventPointer <==> s.deleter.EventReady? || s.deleter.Released? || s.deleter.Returned?)
    && (s.deleter.Returned? ==> s.event)
  }

  ghost predicate Inv(s: State) {
    SetOk(s) && forall id :: id in s.objects ==> ObjectOk(s, id)
  }

  lemma {:induction false} InitInv(s: State)
    requires Init(s)
    ensures Inv(s)
  {
  }

  // ---- Every step keeps it ----

  /** Nothing but object `id` can tell the two states apart. */
  ghost predicate OnlyMoves(s: State, t: State, id: nat) {
    && t.objects.Keys == s.objects.Keys + {id}
    && (forall j :: j in s.objects && j != id ==> t.objects[j] == s.objects[j])
    && (forall j :: j != id ==> (j in s.list <==> j in t.list) && (j in s.counted <==> j in t.counted))
    && (forall j :: j != id ==> (Opener(j) in s.holders <==> Opener(j) in t.holders))
    && (forall j, n :: j != id ==> (User(j, n) in s.holders <==> User(j, n) in t.holders))
    && (t.deleter == s.deleter || (Past(s.deleter) && Past(t.deleter) && !OtherThan(s.deleter, id)
       && !OtherThan(t.deleter, id)))
  }

  /** The deleter has waited for rundown. */
  predicate Past(d: Deleter) {
    !d.Idle? && !d.RunningDown?
  }

  /** The deleter is busy with another object. */
  predicate OtherThan(d: Deleter, id: nat) {
    (d.Cleanup? || d.Drop?) && d.id != id
  }

  lemma {:induction false} OtherOk(s: State, t: State, id: nat, j: nat)
    requires OnlyMoves(s, t, id) && j in s.objects && j != id && ObjectOk(s, j)
    ensures j in t.objects && ObjectOk(t, j)
  {
    assert DeleterHas(s, j) <==> DeleterHas(t, j);
    assert LifeOf(s, j) == LifeOf(t, j);
  }

  lemma {:induction false} OthersOk(s: State, t: State, id: nat)
    requires Inv(s) && OnlyMoves(s, t, id) && SetOk(t) && id in t.objects && ObjectOk(t, id)
    ensures Inv(t)
  {
    forall j | j in t.objects && j != id
      ensures ObjectOk(t, j)
    {
      OtherOk(s, t, id, j);
    }
  }

  lemma {:induction false} AllocateKeeps(s: State, id: nat)
    requires Inv(s) && Enabled(s, Allocate(id))
    ensures Inv(Apply(s, Allocate(id)))
  {
    OthersOk(s, Apply(s, Allocate(id)), id);
  }

  lemma {:induction false} ProtectFails(s: State, id: nat)
    requires Inv(s) && At(s, id, Allocated)
    ensures Inv(Put(s, id, s.objects[id].(phase := Failing)))
  {
    assert ObjectOk(s, id);
    OthersOk(s, Put(s, id, s.objects[id].(phase := Failing)), id);
  }

  lemma {:induction false} ProtectWins(s: State, id: nat)
    requires Inv(s) && At(s, id, Allocated) && !Deleting(s.deleter)
    ensures Inv(Put(s, id, s.objects[id].(phase := Protected)).(holders := s.holders + {Opener(id)}))
  {
    assert ObjectOk(s, id);
    OthersOk(s, Put(s, id, s.objects[id].(phase := Protected)).(holders := s.holders + {Opener(id)}), id);
  }

  lemma {:induction false} ProtectKeeps(s: State, id: nat)
    requires Inv(s) && Enabled(s, Protect(id))
    ensures Inv(Apply(s, Protect(id)))
  {
    if Deleting(s.deleter) {
      ProtectFails(s, id);
    } else {
      ProtectWins(s, id);
    }
  }

  lemma {:induction false} CountKeeps(s: State, id: nat)
    requires Inv(s) && Enabled(s, Count(id))
    ensures Inv(Apply(s, Count(id)))
  {
    assert ObjectOk(s, id);
    OthersOk(s, Apply(s, Count(id)), id);
  }

  lemma {:induction false} InsertKeeps(s: State, id: nat)
    requires Inv(s) && Enabled(s, Insert(id))
    ensures Inv(Apply(s, Insert(id)))
  {
    assert ObjectOk(s, id);
    OthersOk(s, Apply(s, Insert(id)), id);
  }

  lemma {:induction false} UnprotectKeeps(s: State, id: nat)
    requires Inv(s) && Enabled(s, Unprotect(id))
    ensures Inv(Apply(s, Unprotect(id)))
  {
    assert ObjectOk(s, id);
    OthersOk(s, Apply(s, Unprotect(id)), id);
  }

  lemma {:induction false} AbortKeeps(s: State, id: nat)
    requires Inv(s) && Enabled(s, Abort(id))
    ensures Inv(Apply(s, Abort(id)))
  {
    AbortDrops(s, id);
  }

  lemma {:induction false} AbortDrops(s: State, id: nat)
    requires Inv(s) && At(s, id, Failing) && s.objects[id].refs > 0
    ensures Inv(Put(s, id, Deref(s.objects[id]).(phase := Aborted)))
  {
    var t := Put(s, id, Deref(s.objects[id]).(phase := Aborted));
    assert ObjectOk(s, id);
    assert LifeOf(t, id) == LifeOf(s, id);
    OthersOk(s, t, id);
  }

  lemma {:induction false} OwnerDrops(s: State, id: nat)
    requires Inv(s) && At(s, id, Dereferencing) && s.objects[id].refs > 0
    ensures Inv(Put(s, id, Deref(s.objects[id]).(phase := Gone)))
  {
    var t := Put(s, id, Deref(s.objects[id]).(phase := Gone));
    assert ObjectOk(s, id);
    assert LifeOf(t, id) == LifeOf(s, id);
    OthersOk(s, t, id);
  }

  lemma {:induction false} DereferenceKeeps(s: State, id: nat)
    requires Inv(s) && Enabled(s, Dereference(id))
    ensures Inv(Apply(s, Dereference(id)))
  {
    OwnerDrops(s, id);
  }

  lemma {:induction false} DriverOpens(s: State, id: nat)
    requires Inv(s) && At(s, id, Protected)
    ensures Inv(Put(s, id, s.objects[id].(phase := Opened, handle := true)))
  {
    assert ObjectOk(s, id);
    OthersOk(s, Put(s, id, s.objects[id].(phase := Opened, handle := true)), id);
  }

  lemma {:induction false} DriverRefuses(s: State, id: nat)
    requires Inv(s) && At(s, id, Protected)
    ensures Inv(Put(s, id, s.objects[id].(phase := Failing)).(holders := s.holders - {Opener(id)}))
  {
    assert ObjectOk(s, id);
    OthersOk(s, Put(s, id, s.objects[id].(phase := Failing)).(holders := s.holders - {Opener(id)}), id);
  }

  lemma {:induction false} OpenDriverKeeps(s: State, id: nat, ok: bool)
    requires Inv(s) && Enabled(s, OpenDriver(id, ok))
    ensures Inv(Apply(s, OpenDriver(id, ok)))
  {
    if ok {
      DriverOpens(s, id);
    } else {
      DriverRefuses(s, id);
    }
  }

  lemma {:induction false} DowncallKeeps(s: State, id: nat, n: nat)
    requires Inv(s) && Enabled(s, Downcall(id, n))
    ensures Inv(Apply(s, Downcall(id, n)))
  {
    assert ObjectOk(s, id);
    OthersOk(s, Apply(s, Downcall(id, n)), id);
  }

  lemma {:induction false} DowncallDoneKeeps(s: State, id: nat, n: nat)
    requires Inv(s) && Enabled(s, DowncallDone(id, n))
    ensures Inv(Apply(s, DowncallDone(id, n)))
  {
    assert User(id, n).id in s.objects;
    assert ObjectOk(s, id);
    OthersOk(s, Apply(s, DowncallDone(id, n)), id);
  }

  lemma {:induction false} DeleteTakeKeeps(s: State, id: nat)
    requires Inv(s) && Enabled(s, DeleteTake(id))
    ensures Inv(Apply(s, DeleteTake(id)))
  {
    assert ObjectOk(s, id);
    OthersOk(s, Apply(s, DeleteTake(id)), id);
  }

  lemma {:induction false} CloseTakes(s: State, id: nat)
    requires Inv(s) && At(s, id, Open) && id in s.list && forall n :: User(id, n) !in s.holders
    ensures Inv(Put(s, id, s.objects[id].(phase := Closing(ToRevert))).(list := s.list - {id}))
  {
    assert ObjectOk(s, id);
    OthersOk(s, Put(s, id, s.objects[id].(phase := Closing(ToRevert))).(list := s.list - {id}), id);
  }

  lemma {:induction false} CloseLeaves(s: State, id: nat)
    requires Inv(s) && At(s, id, Open) && id !in s.list
    ensures Inv(Put(s, id, s.objects[id].(phase := Dereferencing)))
  {
    assert ObjectOk(s, id);
    OthersOk(s, Put(s, id, s.objects[id].(phase := Dereferencing)), id);
  }

  lemma {:induction false} CloseKeeps(s: State, id: nat)
    requires Inv(s) && Enabled(s, Close(id))
    ensures Inv(Apply(s, Close(id)))
  {
    if id in s.list {
      CloseTakes(s, id);
    } else {
      CloseLeaves(s, id);
    }
  }

  lemma {:induction false} CloserReverts(s: State, id: nat)
    requires Inv(s) && At(s, id, Closing(ToRevert))
    ensures Inv(Put(s, id, s.objects[id].(reverts := s.objects[id].reverts + 1, phase := Closing(ToClose))))
  {
    assert ObjectOk(s, id);
    OthersOk(s, Put(s, id, s.objects[id].(reverts := s.objects[id].reverts + 1, phase := Closing(ToClose))), id);
  }

  lemma {:induction false} CloserCloses(s: State, id: nat)
    requires Inv(s) && At(s, id, Closing(ToClose))
    ensures Inv(Put(s, id, s.objects[id].(closes := s.objects[id].closes + 1, handle := false,
            phase := Closing(ToRelease))))
  {
    assert ObjectOk(s, id);
    OthersOk(s, Put(s, id, s.objects[id].(closes := s.objects[id].closes + 1, handle := false,
      phase := Closing(ToRelease))), id);
  }

  lemma {:induction false} CloserReleases(s: State, id: nat)
    requires Inv(s) && At(s, id, Closing(ToRelease)) && s.refs > 0
    ensures Inv(Put(ReleaseRef(s).(counted := s.counted - {id}), id, s.objects[id].(phase := Dereferencing)))
  {
    assert ObjectOk(s, id);
    OthersOk(s, Put(ReleaseRef(s).(counted := s.counted - {id}), id, s.objects[id].(phase := Dereferencing)), id);
  }

  lemma {:induction false} CloseCleanKeeps(s: State, id: nat)
    requires Inv(s) && Enabled(s, CloseClean(id))
    ensures Inv(Apply(s, CloseClean(id)))
  {
    match s.objects[id].phase.left
    case ToRevert => CloserReverts(s, id);
    case ToClose => CloserCloses(s, id);
    case ToRelease => CloserReleases(s, id);
  }

  lemma {:induction false} DeleterReverts(s: State, id: nat)
    requires Inv(s) && s.deleter == Cleanup(id, ToRevert) && id in s.objects
    ensures Inv(Put(s, id, s.objects[id].(reverts := s.objects[id].reverts + 1)).(deleter := Cleanup(id, ToClose)))
  {
    assert ObjectOk(s, id);
    OthersOk(s, Put(s, id, s.objects[id].(reverts := s.objects[id].reverts + 1)).(deleter := Cleanup(id, ToClose)), id);
  }

  lemma {:induction false} DeleterCloses(s: State, id: nat)
    requires Inv(s) && s.deleter == Cleanup(id, ToClose) && id in s.objects
    ensures Inv(Put(s, id, s.objects[id].(closes := s.objects[id].closes + 1, handle := false))
                  .(deleter := Cleanup(id, ToRelease)))
  {
    assert ObjectOk(s, id);
    OthersOk(s, Put(s, id, s.objects[id].(closes := s.objects[id].closes + 1, handle := false))
                .(deleter := Cleanup(id, ToRelease)), id);
  }

  lemma {:induction false} DeleterReleases(s: State, id: nat)
    requires Inv(s) && s.deleter == Cleanup(id, ToRelease) && id in s.objects && s.refs > 0
    ensures Inv(Put(ReleaseRef(s).(counted := s.counted - {id}), id, s.objects[id]).(deleter := Drop(id)))
  {
    var t := Put(ReleaseRef(s).(counted := s.counted - {id}), id, s.objects[id]).(deleter := Drop(id));
    assert ObjectOk(s, id);
    assert LifeOf(s, id) == InCleanup(ToRelease) && LifeOf(t, id) == Cleaned;
    assert id in s.counted && |s.counted| == |s.counted - {id}| + 1;
    assert t.event == s.event;
    assert ObjectOk(t, id);
    OthersOk(s, t, id);
  }

  lemma {:induction false} DeleteCleanKeeps(s: State)
    requires Inv(s) && Enabled(s, DeleteClean)
    ensures Inv(Apply(s, DeleteClean))
  {
    match s.deleter.left
    case ToRevert => DeleterReverts(s, s.deleter.id);
    case ToClose => DeleterCloses(s, s.deleter.id);
    case ToRelease => DeleterReleases(s, s.deleter.id);
  }

  lemma {:induction false} DeleterDrops(s: State, id: nat)
    requires Inv(s) && s.deleter == Drop(id) && id in s.objects && s.objects[id].refs > 0
    ensures Inv(Put(s, id, Deref(s.objects[id])).(deleter := Looping))
  {
    var t := Put(s, id, Deref(s.objects[id])).(deleter := Looping);
    assert ObjectOk(s, id);
    assert LifeOf(t, id) == LifeOf(s, id);
    OthersOk(s, t, id);
  }

  lemma {:induction false} DeleteDropKeeps(s: State)
    requires Inv(s) && Enabled(s, DeleteDrop)
    ensures Inv(Apply(s, DeleteDrop))
  {
    DeleterDrops(s, s.deleter.id);
  }

  /** A step of the deleter that concerns no object. */
  lemma {:induction false} DeleterMoves(s: State, t: State)
    requires Inv(s) && SetOk(t) && t == s.(deleter := t.deleter, refs := t.refs, event := t.event,
             eventPointer := t.eventPointer)
    requires !s.deleter.Cleanup? && !s.deleter.Drop? && !t.deleter.Cleanup? && !t.deleter.Drop?
    requires t.deleter.RunningDown? ==> s.deleter.Idle?
    requires !t.deleter.Idle?
    ensures Inv(t)
  {
    forall id | id in t.objects
      ensures ObjectOk(t, id)
    {
      assert ObjectOk(s, id);
      assert LifeOf(t, id) == LifeOf(s, id);
    }
  }

  lemma {:induction false} DeleterKeeps(s: State, step: Step)
    requires Inv(s) && Enabled(s, step)
    requires step.Delete? || step.DeleteWaited? || step.DeleteDone? || step.DeleteRelease? || step.DeleteReturn?
    ensures Inv(Apply(s, step))
  {
    DeleterMoves(s, Apply(s, step));
  }

  predicate OwnerStep(step: Step) {
    step.Allocate? || step.Protect? || step.OpenDriver? || step.Count? || step.Insert? || step.Unprotect? || step.Abort?
    || step.Downcall? || step.DowncallDone?
  }

  lemma {:induction false} OwnerStepKeeps(s: State, step: Step)
    requires Inv(s) && Enabled(s, step) && OwnerStep(step)
    ensures Inv(Apply(s, step))
  {
    match step
    case Allocate(id) => AllocateKeeps(s, id);
    case Protect(id) => ProtectKeeps(s, id);
    case OpenDriver(id, ok) => OpenDriverKeeps(s, id, ok);
    case Count(id) => CountKeeps(s, id);
    case Insert(id) => InsertKeeps(s, id);
    case Unprotect(id) => UnprotectKeeps(s, id);
    case Abort(id) => AbortKeeps(s, id);
    case Downcall(id, n) => DowncallKeeps(s, id, n);
    case DowncallDone(id, n) => DowncallDoneKeeps(s, id, n);
  }

  /** Every step of every thread keeps the invariant. */
  lemma {:induction false} StepKeeps(s: State, step: Step)
    requires Inv(s) && Enabled(s, step)
    ensures Inv(Apply(s, step))
  {
    if OwnerStep(step) {
      OwnerStepKeeps(s, step);
    } else {
      match step
      case Close(id) => CloseKeeps(s, id);
      case CloseClean(id) => CloseCleanKeeps(s, id);
      case Dereference(id) => DereferenceKeeps(s, id);
      case DeleteTake(id) => DeleteTakeKeeps(s, id);
      case DeleteClean => DeleteCleanKeeps(s);
      case DeleteDrop => DeleteDropKeeps(s);
      case _ => DeleterKeeps(s, step);
    }
  }

  // ---- Runs ----

  ghost predicate Next(s: State, t: State) {
    exists step :: Enabled(s, step) && t == Apply(s, step)
  }

  ghost predicate IsRun(states: seq<State>) {
    && |states| > 0 && Init(states[0])
    && forall i :: 0 < i < |states| ==> Next(states[i - 1], states[i])
  }

  lemma {:induction false} RunKeeps(states: seq<State>, i: nat)
    requires IsRun(states) && i < |states|
    ensures Inv(states[i])
    decreases i
  {
    if i == 0 {
      InitInv(states[0]);
    } else {
      RunKeeps(states, i - 1);
      assert Next(states[i - 1], states[i]);
      var step :| Enabled(states[i - 1], step) && states[i] == Apply(states[i - 1], step);
      StepKeeps(states[i - 1], step);
    }
  }

  /** The driver has been asked for a handle and gave one. */
  predicate WasOpened(phase: Phase) {
    !phase.Allocated? && !phase.Protected? && !phase.Failing? && !phase.Aborted?
  }

  /** Each handle is reverted once, closed once and only after that, and each object is freed once,
      when neither its owner nor the deleter holds it. */
  lemma {:induction false} OnceEach(states: seq<State>, i: nat, id: nat)
    requires IsRun(states) && i < |states| && id in states[i].objects
    ensures var o := states[i].objects[id];
            && o.closes <= o.reverts <= 1 && o.frees <= 1
            && (WasOpened(o.phase) ==> (o.handle <==> o.closes == 0))
            && (!WasOpened(o.phase) ==> !o.handle && o.reverts == 0)
            && (o.frees == 1 <==> (o.phase.Gone? || o.phase.Aborted?) && !DeleterHas(states[i], id))
            && (o.phase.Gone? && o.frees == 1 ==> o.closes == 1)
  {
    RunKeeps(states, i);
    assert ObjectOk(states[i], id);
    var life := LifeOf(states[i], id);
    assert WasOpened(states[i].objects[id].phase) <==> !life.Unborn?;
    assert life.InCleanup? ==> life.left == ToRevert || life.left == ToClose || life.left == ToRelease;
  }

  /** A downcall under rundown protection always has an open handle and a live object. */
  lemma {:induction false} DowncallsSeeHandle(states: seq<State>, i: nat, id: nat, n: nat)
    requires IsRun(states) && i < |states| && User(id, n) in states[i].holders
    ensures id in states[i].objects && states[i].objects[id].handle && states[i].objects[id].frees == 0
  {
    RunKeeps(states, i);
    assert User(id, n).id in states[i].objects;
    assert ObjectOk(states[i], id);
  }

  /** So has a revert and a close, by either thread, and no thread touches an object that is freed. */
  lemma {:induction false} CleanupSeesHandle(states: seq<State>, i: nat, id: nat, left: Cleaning)
    requires IsRun(states) && i < |states| && id in states[i].objects
    requires states[i].objects[id].phase == Closing(left) || states[i].deleter == Cleanup(id, left)
    ensures states[i].objects[id].frees == 0 && states[i].refs > 0
    ensures !left.ToRelease? ==> states[i].objects[id].handle
    ensures !(states[i].objects[id].phase == Closing(left) && DeleterHas(states[i], id))
  {
    RunKeeps(states, i);
    assert ObjectOk(states[i], id);
    assert id in states[i].counted && states[i].counted != {};
  }

  /** The last reference to the offload goes only when there is an event to set. */
  lemma {:induction false} EventHasPlace(states: seq<State>, i: nat)
    requires IsRun(states) && i < |states| && states[i].refs == 0
    ensures states[i].eventPointer && states[i].event
  {
    RunKeeps(states, i);
  }

  /** Deletion returns only after every handle that was ever opened has been reverted and closed, and
      none can be opened afterwards. */
  lemma {:induction false} DeletionWaits(states: seq<State>, i: nat, id: nat)
    requires IsRun(states) && i < |states| && states[i].deleter.Returned? && id in states[i].objects
    ensures !states[i].objects[id].handle
    ensures WasOpened(states[i].objects[id].phase) ==>
            states[i].objects[id].reverts == 1 && states[i].objects[id].closes == 1
    ensures !WasOpened(states[i].objects[id].phase) ==> !states[i].objects[id].phase.Protected?
  {
    RunKeeps(states, i);
    var s := states[i];
    assert ObjectOk(s, id);
    assert s.counted == {};
  }
}
