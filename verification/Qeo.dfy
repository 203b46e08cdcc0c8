/**
 QUIC connection offloads of an interface. A set request adds and removes connections as one
 transaction: it marks them under the lock, drops the lock for the driver, and settles them under
 the lock again. Any number of requests overlap; each locked block below is one method.
 */
module Qeo {
  import opened Options

  datatype Operation = OpAdd | OpRemove

  datatype Direction = Transmit | Receive

  datatype Family = Inet4 | Inet6

  /** What identifies a connection; the identifier is compared up to its length. */
  datatype Key = Key(direction: Direction, family: Family, udpPort: nat, cid: seq<nat>)

  datatype Status =
    | Success
    | InvalidParameter
    | DuplicateObject
    | NoMemory
    | NotFound
    | InvalidDeviceState
    | DriverFailed

  datatype Phase = Adding | Added | Removing

  /** HRESULTs: failure is negative. */
  const S_OK: int := 0
  const PENDING: int := -2147023899

  /** A connection object; `transaction` is the call whose list it is linked on. */
  datatype Connection = Connection(key: Key, operation: Operation, status: int, phase: Phase, transaction: Option<nat>)

  /** One element of the input buffer. */
  datatype Request =
    | Malformed
    | Ask(operation: Operation, key: Key, allocates: bool)

  // ---- Lists of connections ----

  ghost predicate Distinct(list: seq<nat>) {
    forall a, b :: 0 <= a < b < |list| ==> list[a] != list[b]
  }

  lemma {:induction false} DistinctAppend(list: seq<nat>, id: nat)
    requires Distinct(list)
    ensures id !in list ==> Distinct(list + [id])
    ensures list != [] ==> Distinct(list[1..]) && list[0] !in list[1..]
  {
  }

  lemma {:induction false} DistinctPrepend(id: nat, list: seq<nat>)
    requires Distinct(list) && id !in list
    ensures Distinct([id] + list)
  {
  }

  /** The members of `keep`, in list order. */
  ghost function Filter(list: seq<nat>, keep: set<nat>): (kept: seq<nat>)
    ensures forall x :: x in kept <==> x in list && x in keep
  {
    if list == [] then []
    else if list[0] in keep then [list[0]] + Filter(list[1..], keep)
    else Filter(list[1..], keep)
  }

  /** Unlinks an entry. */
  function Unlink(list: seq<nat>, id: nat): (rest: seq<nat>) {
    if list == [] then [] else if list[0] == id then list[1..] else [list[0]] + Unlink(list[1..], id)
  }

  lemma {:induction false} FilterAll(list: seq<nat>, keep: set<nat>)
    requires forall x :: x in list ==> x in keep
    ensures Filter(list, keep) == list
  {
    if list != [] {
      FilterAll(list[1..], keep);
    }
  }

  lemma {:induction false} FilterNone(list: seq<nat>, keep: set<nat>)
    requires forall x :: x in list ==> x !in keep
    ensures Filter(list, keep) == []
  {
    if list != [] {
      FilterNone(list[1..], keep);
    }
  }

  lemma {:induction false} FilterJoin(a: seq<nat>, b: seq<nat>, keep: set<nat>)
    ensures Filter(a + b, keep) == Filter(a, keep) + Filter(b, keep)
    decreases |a|
  {
    if a == [] {
      assert a + b == b;
    } else {
      FilterJoin(a[1..], b, keep);
      assert (a + b)[1..] == a[1..] + b;
    }
  }

  lemma {:induction false} FilterSame(list: seq<nat>, keep: set<nat>, id: nat)
    requires id !in list
    ensures Filter(list, keep - {id}) == Filter(list, keep)
  {
    if list != [] {
      FilterSame(list[1..], keep, id);
    }
  }

  lemma {:induction false} FilterUnlink(list: seq<nat>, keep: set<nat>, id: nat)
    requires Distinct(list) && id in keep
    ensures Unlink(Filter(list, keep), id) == Filter(list, keep - {id})
  {
    if list != [] {
      if list[0] == id {
        assert id !in list[1..];
        FilterSame(list[1..], keep, id);
      } else {
        FilterUnlink(list[1..], keep, id);
        if list[0] in keep {
          var kept := Filter(list, keep);
          assert kept[0] == list[0] && kept[1..] == Filter(list[1..], keep);
        }
      }
    }
  }

  // ---- The settings ----

  type Objects = map<nat, Connection>

  /** Connections on the list, by identity; the calls in flight with their transaction lists. */
  datatype Settings = Settings(objects: Objects, list: seq<nat>, calls: map<nat, seq<nat>>, nextId: nat)

  ghost predicate KeysDistinct(objects: Objects) {
    forall a, b :: a in objects && b in objects && objects[a].key == objects[b].key ==> a == b
  }

  /** A connection in a transaction is linked on exactly the list of its call, and one at rest is added. */
  ghost predicate Linked(c: Connection, id: nat, calls: map<nat, seq<nat>>) {
    && (c.transaction.Some? ==> c.transaction.value in calls && id in calls[c.transaction.value])
    && (c.transaction.None? <==> c.phase == Added)
    && (c.operation == OpRemove <==> c.phase == Removing)
    && (c.phase == Added ==> c.status >= 0)
  }

  ghost predicate CallOk(objects: Objects, call: nat, mine: seq<nat>) {
    Distinct(mine) && forall id :: id in mine ==> id in objects && objects[id].transaction == Some(call)
  }

  ghost predicate Valid(s: Settings) {
    && Distinct(s.list) && (forall id :: id in s.list <==> id in s.objects)
    && KeysDistinct(s.objects)
    && (forall id :: id in s.objects ==> id < s.nextId && Linked(s.objects[id], id, s.calls))
    && (forall call :: call in s.calls ==> CallOk(s.objects, call, s.calls[call]))
  }

  /** With no call in flight, every connection is added. */
  lemma {:induction false} QuietMeansAdded(s: Settings)
    requires Valid(s) && s.calls == map[]
    ensures forall id :: id in s.objects ==> s.objects[id].phase == Added && s.objects[id].operation == OpAdd
  {
  }

  /** An adding or removing connection belongs to one call in flight, and to no other. */
  lemma {:induction false} OneOwner(s: Settings, id: nat, call: nat, other: nat)
    requires Valid(s) && id in s.objects && call in s.calls && other in s.calls
    requires id in s.calls[call] && id in s.calls[other]
    ensures call == other && s.objects[id].phase != Added
  {
    assert CallOk(s.objects, call, s.calls[call]) && CallOk(s.objects, other, s.calls[other]);
  }

  function NewConnection(key: Key, call: nat): Connection {
    Connection(key, OpAdd, PENDING, Adding, Some(call))
  }

  function Marked(c: Connection, call: nat): Connection {
    c.(phase := Removing, operation := OpRemove, status := PENDING, transaction := Some(call))
  }

  lemma {:induction false} AddKeeps(s: Settings, call: nat, key: Key)
    requires Valid(s) && call in s.calls && forall id :: id in s.objects ==> s.objects[id].key != key
    ensures Valid(Settings(s.objects[s.nextId := NewConnection(key, call)], s.list + [s.nextId],
                           s.calls[call := s.calls[call] + [s.nextId]], s.nextId + 1))
  {
    var t := Settings(s.objects[s.nextId := NewConnection(key, call)], s.list + [s.nextId],
                      s.calls[call := s.calls[call] + [s.nextId]], s.nextId + 1);
    forall c | c in t.calls
      ensures CallOk(t.objects, c, t.calls[c])
    {
      assert CallOk(s.objects, c, s.calls[c]);
      assert s.nextId !in s.objects;
      DistinctAppend(s.calls[c], s.nextId);
    }
    DistinctAppend(s.list, s.nextId);
    forall id | id in t.objects
      ensures id < t.nextId && Linked(t.objects[id], id, t.calls)
    {
      if id in s.objects {
        assert Linked(s.objects[id], id, s.calls);
      }
    }
  }

  lemma {:induction false} MarkKeeps(s: Settings, call: nat, id: nat)
    requires Valid(s) && call in s.calls && id in s.objects && s.objects[id].phase == Added
    ensures Valid(s.(objects := s.objects[id := Marked(s.objects[id], call)],
            calls := s.calls[call := s.calls[call] + [id]]))
  {
    var t := s.(objects := s.objects[id := Marked(s.objects[id], call)],
        calls := s.calls[call := s.calls[call] + [id]]);
    assert Linked(s.objects[id], id, s.calls);
    forall c | c in t.calls
      ensures CallOk(t.objects, c, t.calls[c])
    {
      assert CallOk(s.objects, c, s.calls[c]);
      DistinctAppend(s.calls[c], id);
    }
    forall j | j in t.objects
      ensures j < t.nextId && Linked(t.objects[j], j, t.calls)
    {
      assert Linked(s.objects[j], j, s.calls);
    }
  }

  // ---- Settling ----

  /** Whether a connection stays on the list when its call ends. */
  predicate Stays(c: Connection, ok: bool) {
    if c.phase == Adding then ok && c.status >= 0 else !(ok && c.status >= 0)
  }

  /** The connection as it stays. */
  function Rested(c: Connection): Connection {
    if c.phase == Adding then c.(phase := Added, transaction := None)
    else c.(phase := Added, operation := OpAdd, status := S_OK, transaction := None)
  }

  /** The settings after the first connection of a call is settled. */
  function SettleFirst(s: Settings, call: nat, ok: bool): Settings
    requires call in s.calls && s.calls[call] != [] && s.calls[call][0] in s.objects
  {
    var id := s.calls[call][0];
    var c := s.objects[id];
    if Stays(c, ok) then s.(objects := s.objects[id := Rested(c)], calls := s.calls[call := s.calls[call][1..]])
    else s.(objects := s.objects - {id}, list := Unlink(s.list, id), calls := s.calls[call := s.calls[call][1..]])
  }

  lemma {:induction false} UnlinkMembers(list: seq<nat>, id: nat)
    requires Distinct(list) && id in list
    ensures Distinct(Unlink(list, id))
    ensures forall x :: x in Unlink(list, id) <==> x in list && x != id
  {
    DistinctAppend(list, id);
    if list[0] != id {
      UnlinkMembers(list[1..], id);
      DistinctPrepend(list[0], Unlink(list[1..], id));
      assert forall x :: x in Unlink(list, id) <==> x == list[0] || x in Unlink(list[1..], id);
    }
  }

  /** The first connection of a call leaves its transaction. */
  lemma {:induction false} StaysKeeps(s: Settings, call: nat, id: nat)
    requires Valid(s) && call in s.calls && s.calls[call] != [] && id == s.calls[call][0] && id in s.objects
    requires s.objects[id].phase == Adding ==> s.objects[id].status >= 0
    ensures Valid(s.(objects := s.objects[id := Rested(s.objects[id])], calls := s.calls[call := s.calls[call][1..]]))
  {
    var t := s.(objects := s.objects[id := Rested(s.objects[id])], calls := s.calls[call := s.calls[call][1..]]);
    assert CallOk(s.objects, call, s.calls[call]) && Linked(s.objects[id], id, s.calls);
    forall c | c in t.calls
      ensures CallOk(t.objects, c, t.calls[c])
    {
      assert CallOk(s.objects, c, s.calls[c]);
      DistinctAppend(s.calls[c], id);
    }
    forall j | j in t.objects
      ensures j < t.nextId && Linked(t.objects[j], j, t.calls)
    {
      assert Linked(s.objects[j], j, s.calls);
    }
  }

  lemma {:induction false} LeavesKeeps(s: Settings, call: nat, id: nat)
    requires Valid(s) && call in s.calls && s.calls[call] != [] && id == s.calls[call][0] && id in s.objects
    ensures Valid(s.(objects := s.objects - {id}, list := Unlink(s.list, id),
            calls := s.calls[call := s.calls[call][1..]]))
  {
    UnlinkMembers(s.list, id);
    LeavesCalls(s, call, id);
    LeavesLinks(s, call, id);
  }

  lemma {:induction false} LeavesCalls(s: Settings, call: nat, id: nat)
    requires Valid(s) && call in s.calls && s.calls[call] != [] && id == s.calls[call][0]
    ensures forall c :: c in s.calls ==> CallOk(s.objects - {id}, c, s.calls[call := s.calls[call][1..]][c])
  {
    assert CallOk(s.objects, call, s.calls[call]);
    forall c | c in s.calls
      ensures CallOk(s.objects - {id}, c, s.calls[call := s.calls[call][1..]][c])
    {
      assert CallOk(s.objects, c, s.calls[c]);
      DistinctAppend(s.calls[c], id);
    }
  }

  lemma {:induction false} LeavesLinks(s: Settings, call: nat, id: nat)
    requires Valid(s) && call in s.calls && s.calls[call] != [] && id == s.calls[call][0]
    ensures forall j :: j in s.objects && j != id ==>
              j < s.nextId && Linked(s.objects[j], j, s.calls[call := s.calls[call][1..]])
  {
    forall j | j in s.objects && j != id
      ensures j < s.nextId && Linked(s.objects[j], j, s.calls[call := s.calls[call][1..]])
    {
      assert Linked(s.objects[j], j, s.calls);
    }
  }

  lemma {:induction false} SettleKeeps(s: Settings, call: nat, ok: bool)
    requires Valid(s) && call in s.calls && s.calls[call] != []
    ensures s.calls[call][0] in s.objects && Valid(SettleFirst(s, call, ok))
  {
    var id := s.calls[call][0];
    assert CallOk(s.objects, call, s.calls[call]);
    if Stays(s.objects[id], ok) {
      StaysKeeps(s, call, id);
    } else {
      LeavesKeeps(s, call, id);
    }
  }

  /** What one call's end makes of a connection: settled if it is among `done`, untouched otherwise. */
  ghost predicate SettledOne(before: Objects, after: Objects, id: nat, done: seq<nat>, ok: bool)
    requires id in before
  {
    if id in done then
      (id in after <==> Stays(before[id], ok)) && (id in after ==> after[id] == Rested(before[id]))
    else id in after && after[id] == before[id]
  }

  ghost predicate SettledAll(before: Objects, now: Objects, done: seq<nat>, ok: bool) {
    && (forall id :: id in now ==> id in before)
    && (forall id :: id in before ==> SettledOne(before, now, id, done, ok))
  }

  lemma {:induction false} SettledStays(before: Objects, now: Objects, done: seq<nat>, ok: bool, id: nat)
    requires SettledAll(before, now, done, ok) && id in now && id !in done && Stays(now[id], ok)
    ensures SettledAll(before, now[id := Rested(now[id])], done + [id], ok)
  {
    var next := now[id := Rested(now[id])];
    forall j | j in before
      ensures SettledOne(before, next, j, done + [id], ok)
    {
      assert SettledOne(before, now, j, done, ok);
    }
  }

  lemma {:induction false} SettledLeaves(before: Objects, now: Objects, done: seq<nat>, ok: bool, id: nat)
    requires SettledAll(before, now, done, ok) && id in now && id !in done && !Stays(now[id], ok)
    ensures SettledAll(before, now - {id}, done + [id], ok)
  {
    var next := now - {id};
    forall j | j in before
      ensures SettledOne(before, next, j, done + [id], ok)
    {
      assert SettledOne(before, now, j, done, ok);
    }
  }

  /** Part way through settling: the first `k` connections of the call are done. */
  ghost predicate Settling(before: Settings, now: Settings, call: nat, k: nat, ok: bool) {
    && call in before.calls && k <= |before.calls[call]|
    && now.calls == before.calls[call := before.calls[call][k..]] && now.nextId == before.nextId
    && SettledAll(before.objects, now.objects, before.calls[call][..k], ok)
    && now.list == Filter(before.list, now.objects.Keys)
  }

  lemma {:induction false} SettlingStart(s: Settings, call: nat, ok: bool)
    requires Valid(s) && call in s.calls
    ensures Settling(s, s, call, 0, ok)
  {
    FilterAll(s.list, s.objects.Keys);
    assert s.calls[call][0..] == s.calls[call];
  }

  lemma {:induction false} SettlingStep(before: Settings, now: Settings, call: nat, k: nat, ok: bool)
    requires Settling(before, now, call, k, ok) && k < |before.calls[call]| && Distinct(before.list)
    requires Distinct(before.calls[call]) && before.calls[call][k] in now.objects
    ensures now.calls[call] != [] && now.calls[call][0] in now.objects
    ensures Settling(before, SettleFirst(now, call, ok), call, k + 1, ok)
  {
    var mine := before.calls[call];
    var id := mine[k];
    assert now.calls[call][0] == id && now.calls[call][1..] == mine[k + 1..];
    assert mine[..k + 1] == mine[..k] + [id];
    if Stays(now.objects[id], ok) {
      SettledStays(before.objects, now.objects, mine[..k], ok, id);
      assert now.objects[id := Rested(now.objects[id])].Keys == now.objects.Keys;
    } else {
      SettledLeaves(before.objects, now.objects, mine[..k], ok, id);
      FilterUnlink(before.list, now.objects.Keys, id);
      assert (now.objects - {id}).Keys == now.objects.Keys - {id};
    }
  }

  lemma {:induction false} SettlingHead(before: Settings, now: Settings, call: nat, k: nat, ok: bool)
    requires Valid(before) && Settling(before, now, call, k, ok) && k < |before.calls[call]|
    ensures before.calls[call][k] in before.objects && before.calls[call][k] in now.objects
    ensures now.calls[call] != [] && now.calls[call][0] == before.calls[call][k]
    ensures now.objects[before.calls[call][k]] == before.objects[before.calls[call][k]]
    ensures Distinct(before.calls[call])
  {
    var mine := before.calls[call];
    assert CallOk(before.objects, call, mine);
    assert SettledOne(before.objects, now.objects, mine[k], mine[..k], ok);
  }

  /** The driver's results for the first `n` connections of a call, in the order they were asked for. */
  ghost predicate Results(s: Settings, call: nat, outputs: seq<int>, n: nat) {
    && call in s.calls && |outputs| == n <= |s.calls[call]|
    && forall k :: 0 <= k < n ==> s.calls[call][k] in s.objects && outputs[k] == s.objects[s.calls[call][k]].status
  }

  /** The call is over: its list is empty and gone. */
  lemma {:induction false} ClosedKeeps(s: Settings, call: nat)
    requires Valid(s) && call in s.calls && s.calls[call] == []
    ensures Valid(s.(calls := s.calls - {call}))
  {
    var t := s.(calls := s.calls - {call});
    forall c | c in t.calls
      ensures CallOk(t.objects, c, t.calls[c])
    {
      assert CallOk(s.objects, c, s.calls[c]);
    }
    forall j | j in t.objects
      ensures Linked(t.objects[j], j, t.calls)
    {
      assert Linked(s.objects[j], j, s.calls);
    }
  }

  lemma {:induction false} OpenedKeeps(s: Settings, call: nat)
    requires Valid(s) && call !in s.calls
    ensures Valid(s.(calls := s.calls[call := []]))
  {
    var t := s.(calls := s.calls[call := []]);
    forall c | c in t.calls
      ensures CallOk(t.objects, c, t.calls[c])
    {
      if c != call {
        assert CallOk(s.objects, c, s.calls[c]);
      }
    }
    forall j | j in t.objects
      ensures Linked(t.objects[j], j, t.calls)
    {
      assert Linked(s.objects[j], j, s.calls);
    }
  }

  // ---- Marking ----

  ghost predicate MarkedOne(before: Objects, now: Objects, id: nat, mine: seq<nat>, call: nat)
    requires id in before
  {
    && id in now
    && (if id in mine then before[id].phase == Added && now[id] == Marked(before[id], call) else now[id] == before[id])
  }

  /** What a call has done to the connections: added some of its own and marked added ones for removal. */
  ghost predicate MarkedAll(before: Objects, now: Objects, mine: seq<nat>, call: nat) {
    && (forall id :: id in before ==> MarkedOne(before, now, id, mine, call))
    && (forall id :: id in now && id !in before ==> id in mine && now[id] == NewConnection(now[id].key, call))
  }

  lemma {:induction false} MarkedNew(before: Objects, now: Objects, mine: seq<nat>, call: nat, id: nat, key: Key)
    requires MarkedAll(before, now, mine, call) && id !in now
    ensures MarkedAll(before, now[id := NewConnection(key, call)], mine + [id], call)
  {
    var next := now[id := NewConnection(key, call)];
    forall j | j in before
      ensures MarkedOne(before, next, j, mine + [id], call)
    {
      assert MarkedOne(before, now, j, mine, call);
    }
  }

  lemma {:induction false} MarkedOld(before: Objects, now: Objects, mine: seq<nat>, call: nat, id: nat)
    requires MarkedAll(before, now, mine, call) && id in now && id !in mine && now[id].phase == Added
    ensures MarkedAll(before, now[id := Marked(now[id], call)], mine + [id], call)
  {
    var next := now[id := Marked(now[id], call)];
    forall j | j in before
      ensures MarkedOne(before, next, j, mine + [id], call)
    {
      assert MarkedOne(before, now, j, mine, call);
    }
  }

  ghost predicate Marking(before: Settings, now: Settings, call: nat) {
    && call !in before.calls && call in now.calls && now.calls == before.calls[call := now.calls[call]]
    && MarkedAll(before.objects, now.objects, now.calls[call], call)
    && Filter(now.list, before.objects.Keys) == before.list
    && before.nextId <= now.nextId
  }

  lemma {:induction false} MarkingStart(s: Settings, call: nat)
    requires Valid(s) && call !in s.calls
    ensures Marking(s, s.(calls := s.calls[call := []]), call)
  {
    FilterAll(s.list, s.objects.Keys);
  }

  lemma {:induction false} MarkingAdd(before: Settings, now: Settings, call: nat, key: Key)
    requires Marking(before, now, call) && now.nextId !in now.objects
    ensures Marking(before, Settings(now.objects[now.nextId := NewConnection(key, call)], now.list + [now.nextId],
                                     now.calls[call := now.calls[call] + [now.nextId]], now.nextId + 1), call)
  {
    var id := now.nextId;
    assert id !in before.objects by {
      assert id in before.objects ==> MarkedOne(before.objects, now.objects, id, now.calls[call], call);
    }
    MarkedNew(before.objects, now.objects, now.calls[call], call, id, key);
    FilterJoin(now.list, [id], before.objects.Keys);
    FilterNone([id], before.objects.Keys);
  }

  lemma {:induction false} MarkingMark(before: Settings, now: Settings, call: nat, id: nat)
    requires Marking(before, now, call) && id in now.objects && now.objects[id].phase == Added && id !in now.calls[call]
    ensures Marking(before, now.(objects := now.objects[id := Marked(now.objects[id], call)],
                                 calls := now.calls[call := now.calls[call] + [id]]), call)
  {
    MarkedOld(before.objects, now.objects, now.calls[call], call, id);
  }

  /** A failed call leaves every connection as it was, in the same order, except that a connection
      it tried to remove goes back with the plain success code. */
  ghost predicate RolledBack(before: Settings, after: Settings) {
    after.list == before.list && after.calls == before.calls && Restored(before.objects, after.objects)
  }

  lemma {:induction false} FailureRestores(
    before: Objects, marked: Objects, after: Objects, mine: seq<nat>, call: nat, id: nat)
    requires MarkedAll(before, marked, mine, call) && SettledAll(marked, after, mine, false)
    requires id in before ==> before[id].operation == OpAdd || before[id].phase != Added
    requires id in before && before[id].phase == Added ==> before[id].transaction == None
    ensures id in before <==> id in after
    ensures id in before && id !in mine ==> after[id] == before[id]
    ensures id in before && id in mine ==> before[id].phase == Added && after[id] == before[id].(status := S_OK)
  {
    if id in before {
      assert MarkedOne(before, marked, id, mine, call);
    }
    if id in marked {
      assert SettledOne(marked, after, id, mine, false);
    }
  }

  ghost predicate Restored(before: Objects, after: Objects) {
    && (forall id :: id in after <==> id in before)
    && (forall id :: id in before ==>
          || after[id] == before[id]
          || (before[id].phase == Added && after[id] == before[id].(status := S_OK)))
  }

  lemma {:induction false} FailureRestoresAll(
    before: Settings, marked: Objects, after: Objects, mine: seq<nat>, call: nat)
    requires Valid(before) && MarkedAll(before.objects, marked, mine, call) && SettledAll(marked, after, mine, false)
    ensures Restored(before.objects, after)
  {
    forall id: nat
      ensures id in before.objects <==> id in after
      ensures id in before.objects ==>
                || after[id] == before.objects[id]
                || (before.objects[id].phase == Added && after[id] == before.objects[id].(status := S_OK))
    {
      assert id in before.objects ==> Linked(before.objects[id], id, before.calls);
      FailureRestores(before.objects, marked, after, mine, call, id);
    }
  }

  /** The connections are exactly as before if and only if each one the call tried to remove had been
      added with the plain success code; any other success code of the driver is lost. */
  lemma {:induction false} FailureIsExact(before: Settings, marked: Objects, after: Objects, mine: seq<nat>, call: nat)
    requires Valid(before) && MarkedAll(before.objects, marked, mine, call) && SettledAll(marked, after, mine, false)
    ensures after == before.objects <==>
            forall id :: id in before.objects && id in mine ==> before.objects[id].status == S_OK
  {
    forall id: nat
      ensures id in before.objects <==> id in after
      ensures id in before.objects && id !in mine ==> after[id] == before.objects[id]
      ensures id in before.objects && id in mine ==> after[id] == before.objects[id].(status := S_OK)
    {
      assert id in before.objects ==> Linked(before.objects[id], id, before.calls);
      FailureRestores(before.objects, marked, after, mine, call, id);
    }
    if after == before.objects {
      forall id | id in before.objects && id in mine
        ensures before.objects[id].status == S_OK
      {
        assert after[id] == before.objects[id].(status := S_OK);
      }
    }
  }

  lemma {:induction false} FailureRollsBack(before: Settings, marked: Settings, after: Settings, call: nat)
    requires Valid(before) && Marking(before, marked, call)
    requires Settling(marked, after, call, |marked.calls[call]|, false)
    ensures RolledBack(before, after.(calls := after.calls - {call}))
  {
    var mine := marked.calls[call];
    assert mine[..|mine|] == mine;
    assert after.calls - {call} == before.calls;
    FailureRestoresAll(before, marked.objects, after.objects, mine, call);
    assert after.objects.Keys == before.objects.Keys;
  }

  // ---- What a request asks for, by key ----

  /** Takes the requests in order, against the phase each key is in. A key the call itself has
      touched counts as adding or removing, so a call cannot name a key twice. */
  function Plan(phases: map<Key, Phase>, requests: seq<Request>): (r: (Status, map<Key, Phase>))
    decreases |requests|
  {
    if requests == [] then (Success, phases)
    else
      match requests[0]
      case Malformed => (InvalidParameter, phases)
      case Ask(OpAdd, key, allocates) =>
        if key in phases then (DuplicateObject, phases)
        else if !allocates then (NoMemory, phases)
        else Plan(phases[key := Adding], requests[1..])
      case Ask(OpRemove, key, _) =>
        if key !in phases then (NotFound, phases)
        else if phases[key] != Added then (InvalidDeviceState, phases)
        else Plan(phases[key := Removing], requests[1..])
  }

  /** The phase of every key on the list. */
  ghost predicate ShowsPhases(objects: Objects, phases: map<Key, Phase>) {
    && (forall id :: id in objects ==> objects[id].key in phases && phases[objects[id].key] == objects[id].phase)
    && (forall key :: key in phases ==> HasKey(objects, key))
  }

  ghost predicate HasKey(objects: Objects, key: Key) {
    exists id :: id in objects && objects[id].key == key
  }

  lemma {:induction false} PhasesAdd(objects: Objects, phases: map<Key, Phase>, id: nat, key: Key, call: nat)
    requires ShowsPhases(objects, phases) && id !in objects && key !in phases
    ensures ShowsPhases(objects[id := NewConnection(key, call)], phases[key := Adding])
  {
    var next := objects[id := NewConnection(key, call)];
    forall k | k in phases[key := Adding]
      ensures HasKey(next, k)
    {
      if k == key {
        assert next[id].key == k;
      } else {
        assert HasKey(objects, k);
        var j :| j in objects && objects[j].key == k;
        assert j in next && next[j].key == k;
      }
    }
  }

  lemma {:induction false} PhasesMark(objects: Objects, phases: map<Key, Phase>, id: nat, call: nat)
    requires ShowsPhases(objects, phases) && id in objects && KeysDistinct(objects)
    ensures ShowsPhases(objects[id := Marked(objects[id], call)], phases[objects[id].key := Removing])
  {
    var next := objects[id := Marked(objects[id], call)];
    forall k | k in phases[objects[id].key := Removing]
      ensures HasKey(next, k)
    {
      assert k == objects[id].key || HasKey(objects, k);
      var j :| j in objects && objects[j].key == k;
      assert j in next && next[j].key == k;
    }
  }

  lemma {:induction false} MarkOldKeeps(s: Settings, before: Settings, call: nat, id: nat)
    requires Valid(s) && Marking(before, s, call) && id in s.objects && s.objects[id].phase == Added
    ensures var t := s.(objects := s.objects[id := Marked(s.objects[id], call)],
            calls := s.calls[call := s.calls[call] + [id]]);
            Valid(t) && Marking(before, t, call)
  {
    assert CallOk(s.objects, call, s.calls[call]) && Linked(s.objects[id], id, s.calls);
    MarkKeeps(s, call, id);
    MarkingMark(before, s, call, id);
  }

  // ---- What can happen to the settings ----

  /** A call got through its first half, or was rolled back in it; the driver reported on one of its
      connections; the driver returned, well or badly, and the call was settled. */
  datatype Event =
    | Began(call: nat)
    | BeginFailed
    | Reported(call: nat, id: nat, result: int)
    | Finished(call: nat, ok: bool)

  ghost predicate Happens(before: Settings, after: Settings, e: Event) {
    && Valid(before) && Valid(after)
    && match e
       case Began(call) => Marking(before, after, call)
       case BeginFailed => RolledBack(before, after)
       case Reported(call, id, result) =>
         && call in before.calls && id in before.calls[call] && id in before.objects
         && after == before.(objects := before.objects[id := before.objects[id].(status := result)])
       case Finished(call, ok) =>
         && call in before.calls && after.calls == before.calls - {call}
         && SettledAll(before.objects, after.objects, before.calls[call], ok)
         && after.list == Filter(before.list, after.objects.Keys)
  }

  // ---- The locked blocks ----

  class Offloads {
    var settings: Settings

    constructor ()
      ensures Valid(settings) && settings == Settings(map[], [], map[], 0)
    {
      settings := Settings(map[], [], map[], 0);
    }

    method FindOffloadedConnection(key: Key) returns (found: Option<nat>)
      requires Valid(settings)
      ensures found.Some? ==> found.value in settings.objects && settings.objects[found.value].key == key
      ensures found.None? ==> !HasKey(settings.objects, key)
    {
      var list, k := settings.list, 0;
      while k < |list|
        invariant 0 <= k <= |list|
        invariant forall j :: 0 <= j < k ==> settings.objects[list[j]].key != key
      {
        if settings.objects[list[k]].key == key {
          return Some(list[k]);
        }
        k := k + 1;
      }
      found := None;
    }

    method MarkNew(call: nat, key: Key, ghost before: Settings, ghost phases: map<Key, Phase>)
      requires Valid(settings) && Marking(before, settings, call) && ShowsPhases(settings.objects, phases)
               && key !in phases
      modifies this
      ensures Valid(settings) && Marking(before, settings, call)
      ensures ShowsPhases(settings.objects, phases[key := Adding])
    {
      var s := settings;
      AddKeeps(s, call, key);
      MarkingAdd(before, s, call, key);
      PhasesAdd(s.objects, phases, s.nextId, key, call);
      settings := Settings(s.objects[s.nextId := NewConnection(key, call)], s.list + [s.nextId],
                           s.calls[call := s.calls[call] + [s.nextId]], s.nextId + 1);
    }

    method MarkOld(call: nat, id: nat, ghost before: Settings, ghost phases: map<Key, Phase>)
      requires Valid(settings) && Marking(before, settings, call) && ShowsPhases(settings.objects, phases)
      requires id in settings.objects && settings.objects[id].phase == Added
      modifies this
      ensures Valid(settings) && Marking(before, settings, call)
      ensures ShowsPhases(settings.objects, phases[old(settings).objects[id].key := Removing])
    {
      var s := settings;
      MarkOldKeeps(s, before, call, id);
      PhasesMark(s.objects, phases, id, call);
      settings := s.(objects := s.objects[id := Marked(s.objects[id], call)],
        calls := s.calls[call := s.calls[call] + [id]]);
    }

    /** One element of the input, under the lock. */
    method Mark(call: nat, request: Request, ghost before: Settings, ghost phases: map<Key, Phase>)
      returns (status: Status, ghost next: map<Key, Phase>)
      requires Valid(settings) && Marking(before, settings, call) && ShowsPhases(settings.objects, phases)
      modifies this
      ensures Valid(settings) && Marking(before, settings, call)
      ensures status != Success ==> settings == old(settings) && Plan(phases, [request]).0 == status
      ensures status == Success ==> Plan(phases, [request]) == (Success, next) && ShowsPhases(settings.objects, next)
    {
      next := phases;
      if request.Malformed? {
        return InvalidParameter, next;
      }
      var found := FindOffloadedConnection(request.key);
      assert found.Some? <==> request.key in phases;
      assert [request][1..] == [];
      if request.operation == OpAdd {
        if found.Some? {
          return DuplicateObject, next;
        }
        if !request.allocates {
          return NoMemory, next;
        }
        MarkNew(call, request.key, before, phases);
        status, next := Success, phases[request.key := Adding];
      } else {
        if found.None? {
          return NotFound, next;
        }
        if settings.objects[found.value].phase != Added {
          return InvalidDeviceState, next;
        }
        MarkOld(call, found.value, before, phases);
        status, next := Success, phases[request.key := Removing];
      }
    }

    /** Settles the first connection of a call and notes its result. */
    method SettleNext(call: nat, ok: bool, outputs: seq<int>, ghost before: Settings, ghost k: nat)
      returns (more: seq<int>)
      requires Results(before, call, outputs, k)
      requires Valid(before) && Valid(settings) && Settling(before, settings, call, k, ok) && k < |before.calls[call]|
      modifies this
      ensures Valid(settings) && Settling(before, settings, call, k + 1, ok)
      ensures Results(before, call, more, k + 1)
    {
      SettlingHead(before, settings, call, k, ok);
      SettleKeeps(settings, call, ok);
      SettlingStep(before, settings, call, k, ok);
      more := outputs + [settings.objects[settings.calls[call][0]].status];
      settings := SettleFirst(settings, call, ok);
    }

    /** Takes the call's connections off its list one by one and settles each; on success their
        results go to the caller. */
    method Settle(call: nat, ok: bool) returns (outputs: seq<int>, ghost settled: Settings)
      requires Valid(settings) && call in settings.calls
      modifies this
      ensures Valid(settings)
      ensures Settling(old(settings), settled, call, |old(settings).calls[call]|, ok)
      ensures settings == settled.(calls := settled.calls - {call})
      ensures ok ==> Results(old(settings), call, outputs, |old(settings).calls[call]|)
    {
      ghost var before := settings;
      var k, n := 0, |settings.calls[call]|;
      outputs := [];
      SettlingStart(before, call, ok);
      while k < n
        invariant 0 <= k <= n && Valid(settings) && Settling(before, settings, call, k, ok)
        invariant Results(before, call, outputs, k)
      {
        outputs := SettleNext(call, ok, outputs, before, k);
        k := k + 1;
      }
      settled := settings;
      assert settings.calls[call] == [];
      ClosedKeeps(settings, call);
      settings := settings.(calls := settings.calls - {call});
    }

    /** The first half of a set request: all its elements are marked, or none. */
    method Begin(call: nat, requests: seq<Request>, ghost phases: map<Key, Phase>) returns (status: Status)
      requires Valid(settings) && call !in settings.calls && ShowsPhases(settings.objects, phases)
      modifies this
      ensures Valid(settings)
      ensures status == if requests == [] then InvalidParameter else Plan(phases, requests).0
      ensures status == Success ==>
                Marking(old(settings), settings, call) && ShowsPhases(settings.objects, Plan(phases, requests).1)
      ensures status != Success ==> RolledBack(old(settings), settings)
      ensures Happens(old(settings), settings, if status == Success then Began(call) else BeginFailed)
    {
      if requests == [] {
        assert Restored(settings.objects, settings.objects);
        return InvalidParameter;
      }
      ghost var before, now := settings, phases;
      OpenedKeeps(before, call);
      MarkingStart(before, call);
      settings := settings.(calls := settings.calls[call := []]);
      status := Success;
      var i := 0;
      assert requests[0..] == requests;
      while i < |requests| && status == Success
        invariant 0 <= i <= |requests| && Valid(settings) && Marking(before, settings, call)
        invariant status == Success ==>
                    ShowsPhases(settings.objects, now) && Plan(phases, requests) == Plan(now, requests[i..])
        invariant status != Success ==> Plan(phases, requests).0 == status
      {
        PlanFirst(now, requests[i..]);
        assert requests[i..][1..] == requests[i + 1..];
        status, now := Mark(call, requests[i], before, now);
        i := i + 1;
      }
      if status != Success {
        ghost var marked := settings;
        ghost var settled;
        var outputs;
        outputs, settled := Settle(call, false);
        FailureRollsBack(before, marked, settled, call);
      }
    }

    /** The driver writes a result into a connection of a call it is working on. */
    method DriverReports(call: nat, id: nat, result: int)
      requires Valid(settings) && call in settings.calls && id in settings.calls[call] && id in settings.objects
      modifies this
      ensures Valid(settings)
      ensures Happens(old(settings), settings, Reported(call, id, result))
    {
      ReportKeeps(settings, call, id, result);
      settings := settings.(objects := settings.objects[id := settings.objects[id].(status := result)]);
    }

    /** The second half: the driver has returned, well or badly, and each connection is settled. */
    method Finish(call: nat, ok: bool) returns (outputs: seq<int>)
      requires Valid(settings) && call in settings.calls
      modifies this
      ensures Valid(settings) && Happens(old(settings), settings, Finished(call, ok))
      ensures ok ==> Results(old(settings), call, outputs, |old(settings).calls[call]|)
    {
      ghost var before := settings;
      ghost var settled;
      outputs, settled := Settle(call, ok);
      assert before.calls[call][..|before.calls[call]|] == before.calls[call];
      assert settled.calls - {call} == before.calls - {call};
    }

    /** Marks the first connections on the list for a batch of the revert; they are all added. */
    method MarkBatch(take: nat)
      requires Valid(settings) && settings.calls == map[] && take <= |settings.list|
      modifies this
      ensures Valid(settings) && settings.list == old(settings).list
              && settings.calls == map[0 := settings.list[..take]]
    {
      OpenedKeeps(settings, 0);
      settings := settings.(calls := settings.calls[0 := []]);
      var k := 0;
      while k < take
        invariant 0 <= k <= take && Valid(settings) && settings.list == old(settings).list
        invariant settings.calls == map[0 := settings.list[..k]]
      {
        var id := settings.list[k];
        BatchMark(settings, k);
        assert settings.objects[id].phase == Added;
        settings := settings.(objects := settings.objects[id := Marked(settings.objects[id], 0)],
                              calls := settings.calls[0 := settings.calls[0] + [id]]);
        k := k + 1;
      }
    }

    /** Drops every connection of the batch, whatever the driver said about it. */
    method DropBatch()
      requires Valid(settings) && 0 in settings.calls && settings.calls == map[0 := settings.calls[0]]
      modifies this
      ensures Valid(settings) && settings.calls == map[]
      ensures |settings.list| == |old(settings).list| - |old(settings).calls[0]|
    {
      while settings.calls[0] != []
        invariant Valid(settings) && 0 in settings.calls && settings.calls == map[0 := settings.calls[0]]
        invariant |settings.list| - |settings.calls[0]| == |old(settings).list| - |old(settings).calls[0]|
        decreases |settings.calls[0]|
      {
        var id := settings.calls[0][0];
        BatchDrop(settings);
        settings := settings.(objects := settings.objects - {id}, list := Unlink(settings.list, id),
                              calls := settings.calls[0 := settings.calls[0][1..]]);
      }
      ClosedKeeps(settings, 0);
      settings := settings.(calls := settings.calls - {0});
    }

    /** Removes everything, with no call in flight, in batches. */
    method RevertSettings()
      requires Valid(settings) && settings.calls == map[]
      modifies this
      ensures Valid(settings) && settings.calls == map[]
      ensures settings.list == [] && settings.objects == map[]
    {
      while settings.list != []
        invariant Valid(settings) && settings.calls == map[]
        decreases |settings.list|
      {
        var take := if |settings.list| < BATCH_LIMIT then |settings.list| else BATCH_LIMIT;
        MarkBatch(take);
        DropBatch();
      }
      assert settings.objects.Keys == {};
    }
  }

  const BATCH_LIMIT: nat := 10000

  lemma {:induction false} UnlinkLength(list: seq<nat>, id: nat)
    requires id in list
    ensures |Unlink(list, id)| == |list| - 1
  {
    if list[0] != id {
      UnlinkLength(list[1..], id);
    }
  }

  /** Outside the batch, every connection is added and free to join it. */
  lemma {:induction false} BatchMark(s: Settings, k: nat)
    requires Valid(s) && k < |s.list| && s.calls == map[0 := s.list[..k]]
    ensures s.list[k] in s.objects && s.objects[s.list[k]].phase == Added
    ensures var id := s.list[k];
            var t := s.(objects := s.objects[id := Marked(s.objects[id], 0)], calls := s.calls[0 := s.calls[0] + [id]]);
            Valid(t) && t.calls == map[0 := s.list[..k + 1]]
  {
    var id := s.list[k];
    assert id in s.objects;
    assert Linked(s.objects[id], id, s.calls);
    assert id !in s.list[..k];
    assert s.list[..k + 1] == s.list[..k] + [id];
    MarkKeeps(s, 0, id);
  }

  lemma {:induction false} BatchDrop(s: Settings)
    requires Valid(s) && 0 in s.calls && s.calls == map[0 := s.calls[0]] && s.calls[0] != []
    ensures s.calls[0][0] in s.objects && s.objects[s.calls[0][0]].phase != Added
    ensures var id := s.calls[0][0];
            var t := s.(objects := s.objects - {id}, list := Unlink(s.list, id),
                calls := s.calls[0 := s.calls[0][1..]]);
            Valid(t) && t.calls == map[0 := s.calls[0][1..]] && |t.list| == |s.list| - 1
  {
    var id := s.calls[0][0];
    assert CallOk(s.objects, 0, s.calls[0]);
    assert Linked(s.objects[id], id, s.calls);
    LeavesKeeps(s, 0, id);
    UnlinkLength(s.list, id);
  }

  lemma {:induction false} PlanFirst(phases: map<Key, Phase>, requests: seq<Request>)
    requires requests != []
    ensures Plan(phases, [requests[0]]).0 != Success ==> Plan(phases, requests).0 == Plan(phases, [requests[0]]).0
    ensures Plan(phases, [requests[0]]).0 == Success ==>
              Plan(phases, requests) == Plan(Plan(phases, [requests[0]]).1, requests[1..])
  {
    assert [requests[0]][1..] == [];
  }

  lemma {:induction false} ReportKeeps(s: Settings, call: nat, id: nat, result: int)
    requires Valid(s) && call in s.calls && id in s.calls[call] && id in s.objects
    ensures Valid(s.(objects := s.objects[id := s.objects[id].(status := result)]))
  {
    var t := s.(objects := s.objects[id := s.objects[id].(status := result)]);
    assert CallOk(s.objects, call, s.calls[call]);
    forall c | c in t.calls
      ensures CallOk(t.objects, c, t.calls[c])
    {
      assert CallOk(s.objects, c, s.calls[c]);
    }
    forall j | j in t.objects
      ensures j < t.nextId && Linked(t.objects[j], j, t.calls)
    {
      assert Linked(s.objects[j], j, s.calls);
    }
  }

  // ---- Calls do not meet ----

  /** While a call is in flight, no other call's beginning touches its connections. */
  lemma {:induction false} BeginLeavesOthers(before: Settings, after: Settings, call: nat, other: nat, id: nat)
    requires Valid(before) && Valid(after) && Marking(before, after, call)
    requires other in before.calls && id in before.calls[other]
    ensures other in after.calls && after.calls[other] == before.calls[other]
    ensures id in before.objects && id in after.objects && after.objects[id] == before.objects[id]
  {
    assert CallOk(before.objects, other, before.calls[other]);
    assert Linked(before.objects[id], id, before.calls);
    assert MarkedOne(before.objects, after.objects, id, after.calls[call], call);
  }

  /** Nor does another call's end. */
  lemma {:induction false} FinishLeavesOthers(
    before: Settings, after: Objects, call: nat, ok: bool, other: nat, id: nat)
    requires Valid(before) && call in before.calls && SettledAll(before.objects, after, before.calls[call], ok)
    requires other in before.calls && other != call && id in before.calls[other]
    ensures id in before.objects && id in after && after[id] == before.objects[id]
  {
    assert CallOk(before.objects, other, before.calls[other]) && CallOk(before.objects, call, before.calls[call]);
    assert SettledOne(before.objects, after, id, before.calls[call], ok);
  }
}
