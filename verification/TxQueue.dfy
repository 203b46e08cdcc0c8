/**
 The in-order TX data path: one execution context completes and fills a frame ring shared by many
 sockets, while applications, the driver and the sockets' owners act in between. `Interfere` stands
 for all of them and runs inside every loop.
 */
module TxQueue {
  import opened Words
  import opened Ring
  import opened ClientList
  import opened TxLedger

  /** Part way round the circle: `m` links passed, and the clients among them served. */
  ghost predicate Circling(
    start: seq<Socket>, sockets: seq<Socket>, clients: seq<nat>, first: Entry, m: nat, current: Entry,
    visited: seq<nat>)
  {
    && |sockets| == |start| && Walked(clients, first, m, current, visited)
    && EvolvesAll(start, sockets) && WorkedAll(start, sockets, visited)
  }

  /** Sockets before and after an entry of the list is served, if it is a client. */
  ghost predicate Serves(before: seq<Socket>, after: seq<Socket>, entry: Entry) {
    && |after| == |before| && EvolvesAll(before, after)
    && (entry.Client? ==> entry.id < |before| && Worked(before[entry.id], after[entry.id]))
  }

  lemma {:induction false} CirclingStart(sockets: seq<Socket>, clients: seq<nat>, first: Entry)
    requires Distinct(clients) && OnList(clients, first)
    ensures Circling(sockets, sockets, clients, first, 0, first, [])
  {
    WalkStart(clients, first);
  }

  /** One link on, past a client that was served if it is one. */
  lemma {:induction false} CirclingStep(
    start: seq<Socket>, before: seq<Socket>, after: seq<Socket>, clients: seq<nat>, first: Entry, m: nat,
    entry: Entry, visited: seq<nat>)
    returns (next: seq<nat>)
    requires Circling(start, before, clients, first, m, entry, visited) && m <= |clients|
    requires Serves(before, after, entry)
    ensures Circling(start, after, clients, first, m + 1, Flink(clients, entry), next)
    ensures next == [] ==> visited == [] && entry.Head?
    ensures Flink(clients, entry) == first <==> m == |clients|
  {
    WalkStep(clients, first, m, entry, visited);
    next := visited + if entry.Client? then [entry.id] else [];
    if entry.Client? {
      WorkedOn(start, before, after, visited, entry.id);
    } else {
      WorkedLater(start, before, after, visited);
      assert visited + [] == visited;
    }
  }

  /** What a walk has come to: some links if it served a client. */
  lemma {:induction false} CirclingMeans(
    start: seq<Socket>, sockets: seq<Socket>, clients: seq<nat>, first: Entry, m: nat, current: Entry,
    visited: seq<nat>)
    requires Circling(start, sockets, clients, first, m, current, visited)
    ensures visited != [] ==> m >= 1 && (first.Head? ==> m >= 2)
  {
    if visited != [] {
      VisitedSome(clients, first, m, current, visited);
    }
  }

  /** Fills in a row, from `first` on: each passes something, `visited` has every client they reach, and each of
      those that was ready when first visited, and is active throughout, has got on. */
  ghost predicate Flushed(
    start: seq<Socket>, sockets: seq<Socket>, clients: seq<nat>, first: Entry, fills: seq<nat>, visited: seq<nat>)
  {
    && |sockets| == |start| && EvolvesAll(start, sockets) && WorkedAll(start, sockets, visited)
    && OnList(clients, first) && Passes(|clients|, Place(clients, first), fills)
    && Visits(clients, Place(clients, first), fills, visited)
  }

  lemma {:induction false} FlushedAdd(
    start: seq<Socket>, between: seq<Socket>, sockets: seq<Socket>, clients: seq<nat>, first: Entry, middle: Entry,
    m: nat, fills: seq<nat>, passed: seq<nat>, visited: seq<nat>)
    requires Circling(start, between, clients, first, m, middle, passed)
    requires PassesSome(|clients|, Place(clients, first), m)
    requires Flushed(between, sockets, clients, middle, fills, visited)
    ensures Flushed(start, sockets, clients, first, [m] + fills, passed + visited)
  {
    WorkedBoth(start, between, sockets, passed, visited);
    VisitsAdd(clients, Place(clients, first), Place(clients, middle), m, fills, passed, visited);
  }

  /** Writing the slot of the producer's counter adds to the window that ends there. */
  lemma {:induction false} WindowAppend(s: seq<TxFrame>, from: nat, to: nat, frame: TxFrame)
    requires RingSize(|s|) && from <= to < from + |s|
    ensures |s| > 0 && BitAnd(Low(to), |s| - 1) < |s|
    ensures Window(s[BitAnd(Low(to), |s| - 1) := frame], from, to + 1 - from) == Window(s, from, to - from) + [frame]
  {
    RingSizeBounds(|s|);
    SlotOfWord(to, |s|);
    WindowWrite(s, from, to - from, to, frame);
  }

  /**
   The frame ring without a completion ring: the driver only advances the consumer index, and
   `reserved` follows it as frames are completed to their sockets.
   */
  class FrameRing {
    const size: nat
    const elements: array<TxFrame>
    var producerIndex: u32
    var consumerIndex: u32
    var reserved: u32
    ghost var produced: nat
    ghost var consumed: nat
    ghost var retired: nat

    ghost predicate Valid()
      reads this
    {
      && elements.Length == size && RingSize(size) && 0 < size <= 0x8000_0000
      && producerIndex == Low(produced) && consumerIndex == Low(consumed) && reserved == Low(retired)
      && retired <= consumed <= produced <= retired + size
    }

    /** The frames not yet completed to their sockets, oldest first. */
    ghost function Pending(): (frames: seq<TxFrame>)
      requires Valid()
      reads this, elements
      ensures |frames| == produced - retired
    {
      Window(elements[..], retired, produced - retired)
    }

    constructor (elements: array<TxFrame>)
      requires RingSize(elements.Length)
      ensures Valid() && this.elements == elements && Pending() == []
    {
      this.elements, size := elements, elements.Length;
      producerIndex, consumerIndex, reserved := 0, 0, 0;
      produced, consumed, retired := 0, 0, 0;
      RingSizeBounds(elements.Length);
    }

    method Available() returns (n: u32)
      requires Valid()
      ensures n == size - |Pending()|
    {
      LowSub(produced, retired);
      LowSub(size, produced - retired);
      n := Sub(size, Sub(producerIndex, reserved));
    }

    method Produce(frame: TxFrame)
      requires Valid() && |Pending()| < size
      modifies this`producerIndex, this`produced, elements
      ensures Valid() && Pending() == old(Pending()) + [frame]
      ensures consumed == old(consumed)
    {
      ghost var before := elements[..];
      LowAdd(produced, 1);
      WindowAppend(before, retired, produced, frame);
      var slot := BitAnd(producerIndex, size - 1);
      elements[slot] := frame;
      assert elements[..] == before[slot := frame];
      producerIndex := Add(producerIndex, 1);
      produced := produced + 1;
    }

    /** Whether the driver has passed frames that are not yet completed. */
    method HasCompleted() returns (any: bool)
      requires Valid()
      ensures any <==> consumed > retired
    {
      LowSub(consumed, retired);
      any := Sub(consumerIndex, reserved) > 0;
    }

    method Oldest() returns (frame: TxFrame)
      requires Valid() && consumed > retired
      ensures frame == Pending()[0]
    {
      SlotOfWord(retired, size);
      WindowAt(elements[..], retired, produced - retired, 0);
      frame := elements[BitAnd(reserved, size - 1)];
    }

    method Retire()
      requires Valid() && consumed > retired
      modifies this`reserved, this`retired
      ensures Valid() && Pending() == old(Pending())[1..]
    {
      LowAdd(retired, 1);
      WindowSplit(elements[..], retired, 1, produced - retired - 1);
      reserved, retired := Add(reserved, 1), retired + 1;
    }

    /** The driver sends up to `n` more frames. */
    method Send(n: u32)
      requires Valid()
      modifies this`consumerIndex, this`consumed
      ensures Valid() && Pending() == old(Pending()) && consumed >= old(consumed)
    {
      LowSub(produced, consumed);
      if n <= Sub(producerIndex, consumerIndex) {
        LowAdd(consumed, n);
        assert consumed + n <= produced;
        consumerIndex, consumed := Add(consumerIndex, n), consumed + n;
      }
    }
  }

  class TxQueue {
    const ring: FrameRing
    var sockets: seq<Socket>
    var clients: seq<nat>
    var fillEntry: Entry

    ghost predicate Bounded()
      reads this
    {
      forall j :: 0 <= j < |sockets| ==> InBounds(sockets[j])
    }

    ghost predicate Valid()
      reads this, ring, ring.elements
    {
      && ring.Valid()
      && Inv(sockets, ring.Pending())
      && Listed(clients, fillEntry, |sockets|, ring.Pending())
    }

    constructor (ring: FrameRing)
      requires ring.Valid() && ring.Pending() == []
      ensures Valid() && this.ring == ring && clients == [] && sockets == []
    {
      this.ring, sockets, clients, fillEntry := ring, [], [], Head;
    }

    /** One step of somebody else: the driver, an application, or a socket's owner. */
    method InterfereOnce()
      requires ring.Valid() && Bounded()
      modifies this`sockets, ring`consumerIndex, ring`consumed
      ensures ring.Valid() && ring.Pending() == old(ring.Pending()) && ring.consumed >= old(ring.consumed)
      ensures DriftAll(old(sockets), sockets)
    {
      if * {
        var n: u32 :| 0 <= n < WORD;
        ring.Send(n);
        return;
      }
      var i :| 0 <= i;
      if i < |sockets| {
        var s := sockets[i];
        if * {
          var d: Descriptor := *;
          if |s.posted| < s.taken + s.txSize {
            sockets := sockets[i := s.(posted := s.posted + [d])];
          }
        } else if * {
          if s.reaped < |s.completions| {
            sockets := sockets[i := s.(reaped := s.reaped + 1)];
          }
        } else {
          var state: State := *;
          if Follows(s.state, state) {
            sockets := sockets[i := s.(state := state)];
          }
        }
      }
    }

    /** Any number of steps of anybody else. */
    method Interfere()
      requires ring.Valid() && Bounded()
      modifies this`sockets, ring`consumerIndex, ring`consumed
      ensures ring.Valid() && ring.Pending() == old(ring.Pending()) && ring.consumed >= old(ring.consumed)
      ensures DriftAll(old(sockets), sockets)
    {
      var steps :| 0 <= steps;
      for n := 0 to steps
        invariant ring.Valid() && ring.Pending() == old(ring.Pending()) && ring.consumed >= old(ring.consumed)
        invariant DriftAll(old(sockets), sockets)
      {
        InterfereOnce();
      }
    }

    /** Completion slots that are neither filled nor spoken for. The slots kept back for the frames
        outstanding are always there. */
    method GetAvailableTxCompletion(i: nat, count: nat) returns (n: nat)
      requires Valid() && i < |sockets|
      ensures n == Min(count,
              sockets[i].completionSize - (|sockets[i].completions| - sockets[i].reaped) - sockets[i].outstanding)
    {
      assert Balanced(sockets[i], ring.Pending(), i);
      var s := sockets[i];
      var available := Min(s.outstanding + count, s.completionSize - (|s.completions| - s.reaped));
      assert available >= s.outstanding;
      n := available - s.outstanding;
    }

    /** Part way through filling from socket `i`, with `k` of `todo` descriptors handled and `f` frames
        made of them, on top of `size0` frames. */
    ghost predicate FillingAt(start: seq<Socket>, i: nat, k: nat, f: nat, todo: nat, size0: nat)
      reads this, ring, ring.elements
    {
      && ring.Valid() && Filling(start, sockets, ring.Pending(), i, k, f, todo)
      && i in clients && Listed(clients, fillEntry, |start|, ring.Pending())
      && |ring.Pending()| == size0 + f && size0 + todo <= ring.size
    }

    /** Others get on meanwhile. */
    method InterfereFilling(ghost start: seq<Socket>, ghost i: nat, ghost k: nat, ghost f: nat, ghost todo: nat,
                            ghost size0: nat)
      requires FillingAt(start, i, k, f, todo, size0)
      modifies this`sockets, ring`consumerIndex, ring`consumed
      ensures FillingAt(start, i, k, f, todo, size0) && DriftAll(old(sockets), sockets)
    {
      ghost var before := sockets;
      Interfere();
      FillingDrift(start, before, sockets, ring.Pending(), i, k, f, todo);
    }

    /** One descriptor: copied into the frame ring, or counted as invalid. */
    method FillOne(i: nat, k: nat, todo: nat, ghost start: seq<Socket>, ghost f: nat, ghost size0: nat)
      returns (accepted: bool)
      requires FillingAt(start, i, k, f, todo, size0) && k < todo
      modifies this`sockets, ring`producerIndex, ring`produced, ring.elements
      ensures FillingAt(start, i, k + 1, if accepted then f + 1 else f, todo, size0)
      ensures sockets[i] == old(sockets)[i].(invalid := sockets[i].invalid)
      ensures accepted == Accepts(sockets[i].limits, sockets[i].posted[sockets[i].taken + k])
    {
      var d := sockets[i].posted[sockets[i].taken + k];
      accepted := Accepts(sockets[i].limits, d);
      if accepted {
        FillingAccept(start, sockets, ring.Pending(), i, k, f, todo);
        ring.Produce(TxFrame(i, d.base));
      } else {
        FillingReject(start, sockets, ring.Pending(), i, k, f, todo);
        sockets := sockets[i := sockets[i].(invalid := sockets[i].invalid + 1)];
      }
    }

    method FillLoop(i: nat, todo: nat, ghost start: seq<Socket>, ghost size0: nat) returns (frameCount: nat)
      requires FillingAt(start, i, 0, 0, todo, size0)
      modifies this`sockets, ring`producerIndex, ring`produced, ring`consumerIndex, ring`consumed, ring.elements
      ensures FillingAt(start, i, todo, frameCount, todo, size0)
    {
      var k := 0;
      frameCount := 0;
      while k < todo
        invariant k <= todo && FillingAt(start, i, k, frameCount, todo, size0)
      {
        InterfereFilling(start, i, k, frameCount, todo, size0);
        var accepted := FillOne(i, k, todo, start, frameCount, size0);
        k, frameCount := k + 1, if accepted then frameCount + 1 else frameCount;
      }
    }

    /** How many descriptors of an active socket to move: as many as the rings have room for. */
    method BeginFill(i: nat, available: nat) returns (todo: nat)
      requires Valid() && i in clients && i < |sockets| && sockets[i].state == Active
      requires available <= ring.size - |ring.Pending()|
      ensures InBounds(sockets[i])
      ensures |sockets[i].completions| - sockets[i].reaped + sockets[i].outstanding <= sockets[i].completionSize
      ensures todo == FillCount(sockets[i], available) && FillingAt(sockets, i, 0, 0, todo, |ring.Pending()|)
    {
      assert Balanced(sockets[i], ring.Pending(), i);
      var txAvailable := Min(available, |sockets[i].posted| - sockets[i].taken);
      todo := GetAvailableTxCompletion(i, txAvailable);
      FillingStart(sockets, ring.Pending(), i, todo);
    }

    /** Releases the descriptors and counts the frames made of them. */
    method EndFill(i: nat, todo: nat, frameCount: nat, ghost start: seq<Socket>, ghost size0: nat)
      requires FillingAt(start, i, todo, frameCount, todo, size0)
      modifies this`sockets
      ensures Valid() && |ring.Pending()| == size0 + frameCount && frameCount <= todo && i < |start|
      ensures sockets[i] == Filled(old(sockets)[i], todo, frameCount)
      ensures DriftAll(Served(start, i, todo, frameCount), sockets)
    {
      FillingDone(start, sockets, ring.Pending(), i, frameCount, todo);
      sockets := sockets[i := Filled(sockets[i], todo, frameCount)];
    }

    /** Moves descriptors of one socket into the frame ring. */
    method FillTx(i: nat, available: nat) returns (frameCount: nat, ghost count: nat)
      requires Valid() && i in clients && available <= ring.size - |ring.Pending()|
      modifies this`sockets, ring`producerIndex, ring`produced, ring`consumerIndex, ring`consumed, ring.elements
      ensures Valid()
      ensures |ring.Pending()| == |old(ring.Pending())| + frameCount && frameCount <= count <= available
      ensures i < |old(sockets)| && DriftAll(Served(old(sockets), i, count, frameCount), sockets)
      ensures count == FillCount(old(sockets)[i], available)
    {
      ghost var start, size0 := sockets, |ring.Pending()|;
      frameCount, count := 0, 0;
      if sockets[i].state != Active {
        assert Balanced(sockets[i], ring.Pending(), i);
        assert Served(start, i, 0, 0) == start;
        return;
      }
      var todo := BeginFill(i, available);
      count := todo;
      frameCount := FillLoop(i, todo, start, size0);
      EndFill(i, todo, frameCount, start, size0);
    }

    /** Part way through draining socket `i`: its frames so far are staged, and `frames` was the ring. */
    ghost predicate DrainingAt(start: seq<Socket>, i: nat, staged: seq<nat>, frames: seq<TxFrame>)
      reads this, ring, ring.elements
    {
      && ring.Valid() && Draining(start, sockets, ring.Pending(), i, staged)
      && Listed(clients, fillEntry, |start|, ring.Pending())
      && frames == FramesOf(i, staged) + ring.Pending()
    }

    /** One frame the driver has passed, if it belongs to the socket. */
    method DrainOne(i: nat, staged: seq<nat>, ghost start: seq<Socket>, ghost frames: seq<TxFrame>)
      returns (more: bool, next: seq<nat>)
      requires DrainingAt(start, i, staged, frames) && ring.consumed > ring.retired && ring.Pending()[0].client == i
      modifies this`sockets, ring`reserved, ring`retired, ring`consumerIndex, ring`consumed
      ensures DrainingAt(start, i, next, frames)
      ensures next == staged + [old(ring.Pending())[0].base] && DriftAll(old(sockets), sockets)
      ensures |ring.Pending()| < |old(ring.Pending())| && ring.consumed >= old(ring.consumed)
      ensures more ==> ring.consumed > ring.retired
    {
      var frame := ring.Oldest();
      next := staged + [frame.base];
      DrainingStep(start, sockets, ring.Pending(), i, staged);
      FramesOfMore(frames, i, staged, ring.Pending());
      ring.Retire();
      ghost var before := sockets;
      Interfere();
      DrainingDrift(start, before, sockets, ring.Pending(), i, next);
      more := ring.HasCompleted();
    }

    method DrainLoop(i: nat, ghost start: seq<Socket>, ghost frames: seq<TxFrame>) returns (staged: seq<nat>)
      requires DrainingAt(start, i, [], frames) && ring.consumed > ring.retired && ring.Pending()[0].client == i
      modifies this`sockets, ring`reserved, ring`retired, ring`consumerIndex, ring`consumed
      ensures DrainingAt(start, i, staged, frames) && staged != [] && ring.consumed >= old(ring.consumed)
    {
      staged := [];
      var more := true;
      while more
        invariant DrainingAt(start, i, staged, frames)
        invariant (more ==> ring.consumed > ring.retired) && ring.consumed >= old(ring.consumed)
        invariant staged == [] ==> more && ring.Pending()[0].client == i
        decreases |ring.Pending()|, more
      {
        var frame := ring.Oldest();
        if frame.client != i {
          more := false;
        } else {
          more, staged := DrainOne(i, staged, start, frames);
        }
      }
    }

    /** The ring's front is the socket's: nothing is staged yet. */
    ghost method BeginDrain(i: nat)
      requires Valid() && i < |sockets|
      ensures DrainingAt(sockets, i, [], ring.Pending())
    {
      DrainingStart(sockets, ring.Pending(), i);
      assert ring.Pending() == FramesOf(i, []) + ring.Pending();
    }

    /** Submits what is staged to the socket's completion ring, where there is always room for it, and
        signals the socket if that was the last of it. */
    method EndDrain(i: nat, staged: seq<nat>, ghost start: seq<Socket>, ghost frames: seq<TxFrame>)
      requires DrainingAt(start, i, staged, frames)
      modifies this`sockets
      ensures Valid() && |sockets| == |start| && EvolvesAll(start, sockets) && i < |sockets|
      ensures frames == FramesOf(i, staged) + ring.Pending()
      ensures |staged| <= old(sockets)[i].outstanding && sockets[i] == Settled(old(sockets)[i], staged)
      ensures sockets[i].completions == start[i].completions + staged
      ensures sockets[i].state == Closing && sockets[i].outstanding == 0 ==> sockets[i].flushComplete
      ensures forall j :: 0 <= j < |sockets| && j != i ==> Drifts(start[j], sockets[j])
    {
      DrainingDone(start, sockets, ring.Pending(), i, staged);
      SettledEvolves(start, sockets, i, staged);
      sockets := sockets[i := Settled(sockets[i], staged)];
    }

    /** Moves the frames at the front of the ring that belong to one socket to its completion ring. */
    method FillTxCompletion(i: nat) returns (ghost staged: seq<nat>)
      requires Valid() && ring.consumed > ring.retired && ring.Pending()[0].client == i
      modifies this`sockets, ring`reserved, ring`retired, ring`consumerIndex, ring`consumed
      ensures Valid() && |sockets| == |old(sockets)| && EvolvesAll(old(sockets), sockets) && i < |sockets|
      ensures staged != [] && old(ring.Pending()) == FramesOf(i, staged) + ring.Pending()
      ensures ring.consumed >= old(ring.consumed)
      ensures sockets[i].completions == old(sockets)[i].completions + staged
      ensures sockets[i].state == Closing && sockets[i].outstanding == 0 ==> sockets[i].flushComplete
      ensures forall j :: 0 <= j < |sockets| && j != i ==> Drifts(old(sockets)[j], sockets[j])
    {
      ghost var start, frames := sockets, ring.Pending();
      BeginDrain(i);
      var completed := DrainLoop(i, start, frames);
      staged := completed;
      EndDrain(i, completed, start, frames);
    }

    /** Part way through completing: at most `size` frames are left, and `passed` frames had been sent. */
    ghost predicate CompletedAt(start: seq<Socket>, size: nat, passed: nat)
      reads this, ring, ring.elements
    {
      && Valid() && |sockets| == |start| && EvolvesAll(start, sockets)
      && |ring.Pending()| <= size && passed <= ring.consumed
    }

    method CompleteNext(ghost start: seq<Socket>, ghost size: nat, ghost passed: nat) returns (more: bool)
      requires CompletedAt(start, size, passed) && ring.consumed > ring.retired
      modifies this`sockets, ring`reserved, ring`retired, ring`consumerIndex, ring`consumed
      ensures CompletedAt(start, size, passed) && (more <==> ring.consumed > ring.retired)
      ensures |ring.Pending()| < |old(ring.Pending())|
    {
      var frame := ring.Oldest();
      ghost var before := sockets;
      ghost var staged := FillTxCompletion(frame.client);
      EvolvesTwice(start, before, sockets);
      more := ring.HasCompleted();
    }

    /** Completes every frame the driver has passed. */
    method DatapathComplete()
      requires Valid()
      modifies this`sockets, ring`reserved, ring`retired, ring`consumerIndex, ring`consumed
      ensures Valid() && |sockets| == |old(sockets)| && EvolvesAll(old(sockets), sockets)
      ensures old(ring.consumed) <= ring.consumed == ring.retired
      ensures |ring.Pending()| <= |old(ring.Pending())|
    {
      ghost var start, size, passed := sockets, |ring.Pending()|, ring.consumed;
      var more := ring.HasCompleted();
      while more
        invariant CompletedAt(start, size, passed) && (more <==> ring.consumed > ring.retired)
        decreases |ring.Pending()|
      {
        more := CompleteNext(start, size, passed);
      }
    }

    /** Serves a client, which gets on if it is ready. */
    method ServeClient(i: nat, available: nat) returns (frameCount: nat)
      requires Valid() && i in clients && 0 < available == ring.size - |ring.Pending()|
      modifies this`sockets, ring`producerIndex, ring`produced, ring`consumerIndex, ring`consumed, ring.elements
      ensures Valid() && |ring.Pending()| == |old(ring.Pending())| + frameCount && frameCount <= available
      ensures Serves(old(sockets), sockets, Client(i))
    {
      ghost var start, count := sockets, 0;
      assert Balanced(sockets[i], ring.Pending(), i);
      frameCount, count := FillTx(i, available);
      ServedEvolves(start, sockets, i, available, count, frameCount);
    }

    /** Serves the client at the fill entry, if it is one, and moves on. */
    method FillEntry(available: nat) returns (frameCount: nat)
      requires Valid() && 0 < available == ring.size - |ring.Pending()|
      modifies this`sockets, this`fillEntry, ring`producerIndex, ring`produced, ring`consumerIndex, ring`consumed,
               ring.elements
      ensures Valid() && Serves(old(sockets), sockets, old(fillEntry))
      ensures |ring.Pending()| == |old(ring.Pending())| + frameCount && frameCount <= available
      ensures old(fillEntry).Head? ==> frameCount == 0
      ensures fillEntry == Flink(clients, old(fillEntry))
    {
      frameCount := 0;
      if fillEntry.Client? {
        frameCount := ServeClient(fillEntry.id, available);
      } else {
        DriftEvolves(sockets, sockets);
      }
      fillEntry := Flink(clients, fillEntry);
    }

    /** Part way round a circle of `n` links. */
    ghost predicate CirclingAt(
      start: seq<Socket>, first: Entry, m: nat, n: nat, visited: seq<nat>, available: nat, room: nat)
      reads this, ring, ring.elements
    {
      && m <= n == |clients| + 1
      && Valid() && available == ring.size - |ring.Pending()| && (visited == [] ==> available == room)
      && Circling(start, sockets, clients, first, m, fillEntry, visited)
    }

    /** Serves the fill entry and takes one link. */
    method WalkOn(available0: nat, first: Entry, ghost start: seq<Socket>, ghost m: nat, ghost n: nat,
                  ghost visited: seq<nat>, ghost room: nat)
      returns (available: nat, closed: bool, ghost next: seq<nat>)
      requires CirclingAt(start, first, m, n, visited, available0, room) && available0 > 0 && m < n
      modifies this`sockets, this`fillEntry, ring`producerIndex, ring`produced, ring`consumerIndex, ring`consumed,
               ring.elements
      ensures CirclingAt(start, first, m + 1, n, next, available, room) && (closed <==> m + 1 == n)
    {
      ghost var before, entry := sockets, fillEntry;
      var frameCount := FillEntry(available0);
      next := CirclingStep(start, before, sockets, clients, first, m, entry, visited);
      available, closed := available0 - frameCount, fillEntry == first;
    }

    method WalkRound(room: nat, ghost start: seq<Socket>, ghost n: nat)
      returns (available: nat, ghost m: nat, ghost visited: seq<nat>)
      requires CirclingAt(start, fillEntry, 0, n, [], room, room) && n > 0
      modifies this`sockets, this`fillEntry, ring`producerIndex, ring`produced, ring`consumerIndex, ring`consumed,
               ring.elements
      ensures CirclingAt(start, old(fillEntry), m, n, visited, available, room) && (m < n ==> available == 0)
    {
      var firstEntry, closed := fillEntry, false;
      available, m, visited := room, 0, [];
      while available > 0 && !closed
        invariant CirclingAt(start, firstEntry, m, n, visited, available, room) && m <= n && (closed <==> m == n)
        decreases n - m
      {
        available, closed, visited := WalkOn(available, firstEntry, start, m, n, visited, room);
        m := m + 1;
      }
    }

    /** Visits clients round the list, from where the last fill stopped, until the frame ring is full or
        the circle is closed. A visited client that was ready, and is active throughout, gets on. */
    method DatapathFill() returns (ghost m: nat, ghost visited: seq<nat>)
      requires Valid()
      modifies this`sockets, this`fillEntry, ring`producerIndex, ring`produced, ring`consumerIndex, ring`consumed,
               ring.elements
      ensures Valid() && |sockets| == |old(sockets)|
      ensures EvolvesAll(old(sockets), sockets) && WorkedAll(old(sockets), sockets, visited)
      ensures Walked(clients, old(fillEntry), m, fillEntry, visited)
      ensures m <= |clients| ==> |ring.Pending()| == ring.size
      ensures |old(ring.Pending())| < ring.size && clients != [] ==> m >= 1 && (old(fillEntry).Head? ==> m >= 2)
    {
      var available: nat := ring.Available();
      CirclingStart(sockets, clients, fillEntry);
      available, m, visited := WalkRound(available, sockets, |clients| + 1);
      CirclingMeans(old(sockets), sockets, clients, old(fillEntry), m, fillEntry, visited);
    }

    /** One pass of the data path: complete everything the driver had sent, then fill. */
    method FlushTransmit() returns (ghost m: nat, ghost visited: seq<nat>)
      requires Valid()
      modifies this`sockets, this`fillEntry, ring, ring.elements
      ensures Valid() && |sockets| == |old(sockets)| && ring.retired >= old(ring.consumed)
      ensures EvolvesAll(old(sockets), sockets) && WorkedAll(old(sockets), sockets, visited)
      ensures Walked(clients, old(fillEntry), m, fillEntry, visited)
      ensures |old(ring.Pending())| < ring.size && clients != [] ==> m >= 1 && (old(fillEntry).Head? ==> m >= 2)
    {
      ghost var start := sockets;
      DatapathComplete();
      ghost var completed := sockets;
      Interfere();
      DriftInv(completed, sockets, ring.Pending());
      DriftEvolves(completed, sockets);
      EvolvesTwice(start, completed, sockets);
      ghost var before := sockets;
      m, visited := DatapathFill();
      WorkedEarlier(start, before, sockets, visited);
    }

    /** A flush, and what others do after it. */
    method FlushOnce() returns (ghost m: nat, ghost passed: seq<nat>)
      requires Valid() && clients != [] && |ring.Pending()| < ring.size
      modifies this`sockets, this`fillEntry, ring, ring.elements
      ensures Valid() && Circling(old(sockets), sockets, clients, old(fillEntry), m, fillEntry, passed)
      ensures PassesSome(|clients|, Place(clients, old(fillEntry)), m)
    {
      ghost var start := sockets;
      m, passed := FlushTransmit();
      ghost var flushed := sockets;
      Interfere();
      DriftInv(flushed, sockets, ring.Pending());
      DriftEvolves(flushed, sockets);
      WorkedLater(start, flushed, sockets, passed);
    }

    /** Flushes up to `k` times with the client list left alone, stopping when the frame ring is full.
        If it is not, as many flushes as there are clients have served every client. */
    method FlushRepeatedly(k: nat) returns (done: nat, ghost fills: seq<nat>, ghost visited: seq<nat>)
      requires Valid() && clients != []
      modifies this`sockets, this`fillEntry, ring, ring.elements
      ensures Valid() && done <= k && |fills| == done && (done < k ==> |ring.Pending()| == ring.size)
      ensures Flushed(old(sockets), sockets, clients, old(fillEntry), fills, visited)
      ensures done >= |clients| ==> forall id :: id in clients ==> id in visited
      decreases k
    {
      ghost var start, first := sockets, fillEntry;
      var room: nat := ring.Available();
      if k == 0 || room == 0 {
        return 0, [], [];
      }
      ghost var m, passed := FlushOnce();
      ghost var between, middle := sockets, fillEntry;
      done, fills, visited := FlushRepeatedly(k - 1);
      FlushedAdd(start, between, sockets, clients, first, middle, m, fills, passed, visited);
      done, fills, visited := done + 1, [m] + fills, passed + visited;
      if done >= |clients| {
        VisitsAll(clients, Place(clients, first), fills, visited);
      }
    }

    /** A socket comes into being, with empty rings. */
    method CreateSocket(limits: Limits, txSize: nat, completionSize: nat) returns (i: nat)
      requires Valid() && ValidLimits(limits)
      modifies this`sockets
      ensures Valid() && i == |old(sockets)| && EvolvesAll(old(sockets), sockets)
      ensures sockets == old(sockets) + [Socket(limits, Created, [], 0, txSize, [], 0, completionSize, 0, 0, false)]
    {
      i := |sockets|;
      var s := Socket(limits, Created, [], 0, txSize, [], 0, completionSize, 0, 0, false);
      CreatedInv(sockets, ring.Pending(), s);
      sockets := sockets + [s];
    }

    /** Inserts a client at the tail of the list, in the data path's context. */
    method AddDatapathClient(i: nat)
      requires Valid() && i < |sockets| && i !in clients
      modifies this`clients
      ensures Valid() && clients == old(clients) + [i]
    {
      clients := clients + [i];
    }

    /** Looks at a closing socket in the data path's context. */
    method CompleteRundown(i: nat)
      requires Valid() && i < |sockets| && sockets[i].state == Closing
      modifies this`sockets
      ensures Valid() && EvolvesAll(old(sockets), sockets)
      ensures sockets == old(sockets)[i := old(sockets)[i].(flushComplete := sockets[i].flushComplete)]
      ensures sockets[i].outstanding == 0 ==> sockets[i].flushComplete
    {
      RunDownInv(sockets, ring.Pending(), i);
      sockets := sockets[i := RunDown(sockets[i])];
    }

    /** Takes a client whose flush is complete off the list. None of its frames is in the ring, and
        the fill entry moves on if it stood there. */
    method RemoveDatapathClient(i: nat)
      requires Valid() && i in clients && i < |sockets| && sockets[i].flushComplete
      modifies this`clients, this`fillEntry
      ensures Valid() && clients == Without(old(clients), i)
      ensures fillEntry == if old(fillEntry) == Client(i) then Flink(old(clients), old(fillEntry)) else old(fillEntry)
      ensures forall k :: 0 <= k < |ring.Pending()| ==> ring.Pending()[k].client != i
    {
      BalancedMeans(sockets[i], ring.Pending(), i);
      WithoutKeeps(clients, i);
      if fillEntry == Client(i) {
        FlinkLeaves(clients, i);
        fillEntry := Flink(clients, fillEntry);
      }
      clients := Without(clients, i);
    }
  }

  /** Something that happens to a TX queue. */
  datatype Event =
    | Create(limits: Limits, txSize: nat, completionSize: nat)
    | AddClient(i: nat)
    | Flush
    | Outside
    | Rundown(i: nat)
    | RemoveClient(i: nat)

  method TakeEvent(q: TxQueue, event: Event)
    requires q.Valid()
    modifies q, q.ring, q.ring.elements
    ensures q.Valid() && EvolvesAll(old(q.sockets), q.sockets)
  {
    match event {
      case Create(limits, txSize, completionSize) =>
        if 0 < limits.chunkSize && limits.totalSize < WORD {
          var i := q.CreateSocket(limits, txSize, completionSize);
        }
      case AddClient(i) =>
        if i < |q.sockets| && i !in q.clients {
          q.AddDatapathClient(i);
        }
      case Flush =>
        ghost var m, visited := q.FlushTransmit();
      case Outside =>
        ghost var before := q.sockets;
        assert q.Bounded();
        q.Interfere();
        DriftInv(before, q.sockets, q.ring.Pending());
        DriftEvolves(before, q.sockets);
      case Rundown(i) =>
        if i < |q.sockets| && q.sockets[i].state == Closing {
          q.CompleteRundown(i);
        }
      case RemoveClient(i) =>
        if i in q.clients && q.sockets[i].flushComplete {
          q.RemoveDatapathClient(i);
        }
    }
  }

  /** Over every run, with an owner that removes a socket only after its flush-complete event: the
      sockets' completions are their accepted addresses in posting order, what was taken is invalid,
      completed or outstanding, the outstanding counts fit the ring, each socket has a completion
      slot for every frame outstanding, and an event once set stays true. */
  method Run(q: TxQueue, events: seq<Event>)
    requires q.Valid()
    modifies q, q.ring, q.ring.elements
    ensures q.Valid() && EvolvesAll(old(q.sockets), q.sockets)
    ensures forall i :: 0 <= i < |q.sockets| ==> Accounted(q.sockets[i])
    ensures TotalOutstanding(q.sockets, |q.sockets|) <= q.ring.size
  {
    ghost var start := q.sockets;
    for n := 0 to |events|
      invariant q.Valid() && EvolvesAll(start, q.sockets)
    {
      ghost var before := q.sockets;
      TakeEvent(q, events[n]);
      EvolvesTwice(start, before, q.sockets);
    }
    OutstandingTotal(q.sockets, q.ring.Pending());
    AllAccounted(q.sockets, q.ring.Pending());
  }
}
