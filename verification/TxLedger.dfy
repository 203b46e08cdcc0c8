/**
 The books a TX queue keeps over its sockets. Each AF_XDP socket posts descriptors and gets their
 base addresses back through its completion ring; in between, accepted ones sit as frames in one
 frame ring shared by all sockets. Rings are seen here as streams with free-running counters,
 which is what the ring operations amount to.
 */
module TxLedger {
  import opened Words
  import opened Umem
  import opened ClientList

  /** A posted TX descriptor: 48-bit base address, 16-bit offset and 32-bit length. */
  datatype Descriptor = Descriptor(base: nat, offset: nat, length: nat)

  datatype Limits = Limits(totalSize: nat, chunkSize: nat, bouncing: bool, maxBuffer: nat, maxFrame: nat)

  ghost predicate ValidLimits(l: Limits) {
    0 < l.chunkSize && l.totalSize < WORD
  }

  /** What the kernel accepts for transmission; with bouncing on, a buffer must not leave its chunk. */
  predicate Accepts(l: Limits, d: Descriptor)
    requires ValidLimits(l)
  {
    && d.base + d.length + d.offset <= l.totalSize
    && d.length != 0
    && d.length <= Min(l.maxBuffer, l.maxFrame)
    && (l.bouncing ==> ChunkOf(l.chunkSize, d.base) == ChunkOf(l.chunkSize, d.base + (d.offset + d.length) - 1))
  }

  datatype State = Created | Active | Closing

  predicate Follows(before: State, after: State) {
    before == after || after == Closing || before == Created
  }

  /** A socket's TX side. `posted` and `completions` are everything its two rings ever carried;
      `taken` and `reaped` are their consumer counters. */
  datatype Socket = Socket(
    limits: Limits,
    state: State,
    posted: seq<Descriptor>, taken: nat, txSize: nat,
    completions: seq<nat>, reaped: nat, completionSize: nat,
    outstanding: nat,
    invalid: nat,
    flushComplete: bool)

  /** A frame in the shared ring: the socket it completes to and the posted base address. */
  datatype TxFrame = TxFrame(client: nat, base: nat)

  /** The base addresses accepted among the first `n` posted descriptors, in posting order. */
  ghost function Accepted(l: Limits, posted: seq<Descriptor>, n: nat): (bases: seq<nat>)
    requires ValidLimits(l) && n <= |posted|
    ensures |bases| <= n
    decreases n
  {
    if n == 0 then []
    else if Accepts(l, posted[n - 1]) then Accepted(l, posted, n - 1) + [posted[n - 1].base]
    else Accepted(l, posted, n - 1)
  }

  lemma {:induction false} AcceptedPrefix(l: Limits, posted: seq<Descriptor>, more: seq<Descriptor>, n: nat)
    requires ValidLimits(l) && n <= |posted| && posted <= more
    ensures Accepted(l, more, n) == Accepted(l, posted, n)
    decreases n
  {
    if n > 0 {
      AcceptedPrefix(l, posted, more, n - 1);
    }
  }

  /** The base addresses of one socket's frames, oldest first. */
  ghost function Tagged(pending: seq<TxFrame>, client: nat): (bases: seq<nat>)
    ensures |bases| <= |pending|
  {
    if pending == [] then []
    else
      (if pending[0].client == client then [pending[0].base] else []) + Tagged(pending[1..], client)
  }

  /** The frames that carry these base addresses for one socket. */
  ghost function FramesOf(client: nat, bases: seq<nat>): (frames: seq<TxFrame>)
    ensures |frames| == |bases|
  {
    if bases == [] then [] else FramesOf(client, bases[..|bases| - 1]) + [TxFrame(client, bases[|bases| - 1])]
  }

  lemma {:induction false} FramesOfMore(frames: seq<TxFrame>, client: nat, bases: seq<nat>, rest: seq<TxFrame>)
    requires frames == FramesOf(client, bases) + rest && rest != [] && rest[0].client == client
    ensures frames == FramesOf(client, bases + [rest[0].base]) + rest[1..]
  {
    var more := bases + [rest[0].base];
    assert more[..|more| - 1] == bases;
    assert rest == [rest[0]] + rest[1..];
  }

  lemma {:induction false} TaggedAppend(pending: seq<TxFrame>, frame: TxFrame, client: nat)
    ensures Tagged(pending + [frame], client)
         == Tagged(pending, client) + if frame.client == client then [frame.base] else []
    decreases |pending|
  {
    if pending == [] {
      assert [frame][1..] == [];
    } else {
      TaggedAppend(pending[1..], frame, client);
      assert (pending + [frame])[1..] == pending[1..] + [frame];
    }
  }

  lemma {:induction false} UntaggedAbsent(pending: seq<TxFrame>, client: nat, k: nat)
    requires Tagged(pending, client) == [] && k < |pending|
    ensures pending[k].client != client
    decreases |pending|
  {
    if k > 0 {
      UntaggedAbsent(pending[1..], client, k - 1);
    }
  }

  // ---- The invariant ----

  /** One socket's books balance against the frames in the ring. */
  ghost predicate Balanced(s: Socket, pending: seq<TxFrame>, i: nat) {
    && ValidLimits(s.limits)
    && s.taken <= |s.posted| <= s.taken + s.txSize
    && s.reaped <= |s.completions|
    && |s.completions| - s.reaped + s.outstanding <= s.completionSize
    && Accepted(s.limits, s.posted, s.taken) == s.completions + Tagged(pending, i)
    && s.outstanding == |Tagged(pending, i)|
    && s.taken == s.invalid + |Accepted(s.limits, s.posted, s.taken)|
    && (s.flushComplete ==> s.state == Closing && s.outstanding == 0)
  }

  ghost predicate Inv(sockets: seq<Socket>, pending: seq<TxFrame>) {
    && (forall i :: 0 <= i < |sockets| ==> Balanced(sockets[i], pending, i))
    && (forall k :: 0 <= k < |pending| ==> pending[k].client < |sockets|)
  }

  /** The books in the reader's terms: completions are the accepted addresses in posting order,
      short of the ones still in the ring, and every consumed descriptor is accounted for. */
  lemma {:induction false} BalancedMeans(s: Socket, pending: seq<TxFrame>, i: nat)
    requires Balanced(s, pending, i)
    ensures s.completions <= Accepted(s.limits, s.posted, s.taken)
    ensures s.outstanding == 0 ==> s.completions == Accepted(s.limits, s.posted, s.taken)
    ensures s.taken == s.invalid + |s.completions| + s.outstanding
    ensures s.completionSize - (|s.completions| - s.reaped) >= s.outstanding
    ensures s.flushComplete ==> forall k :: 0 <= k < |pending| ==> pending[k].client != i
  {
    if s.flushComplete {
      forall k | 0 <= k < |pending|
        ensures pending[k].client != i
      {
        UntaggedAbsent(pending, i, k);
      }
    }
  }

  /** The same for a socket by itself. */
  ghost predicate Accounted(s: Socket) {
    && ValidLimits(s.limits) && s.taken <= |s.posted| && s.reaped <= |s.completions|
    && s.completions <= Accepted(s.limits, s.posted, s.taken)
    && (s.outstanding == 0 ==> s.completions == Accepted(s.limits, s.posted, s.taken))
    && s.taken == s.invalid + |s.completions| + s.outstanding
    && s.completionSize - (|s.completions| - s.reaped) >= s.outstanding
    && (s.flushComplete ==> s.outstanding == 0)
  }

  lemma {:induction false} AllAccounted(sockets: seq<Socket>, pending: seq<TxFrame>)
    requires Inv(sockets, pending)
    ensures forall i :: 0 <= i < |sockets| ==> Accounted(sockets[i])
  {
    forall i | 0 <= i < |sockets|
      ensures Accounted(sockets[i])
    {
      assert Balanced(sockets[i], pending, i);
      BalancedMeans(sockets[i], pending, i);
    }
  }

  ghost function TotalOutstanding(sockets: seq<Socket>, n: nat): nat
    requires n <= |sockets|
  {
    if n == 0 then 0 else TotalOutstanding(sockets, n - 1) + sockets[n - 1].outstanding
  }

  ghost function CountBelow(pending: seq<TxFrame>, n: nat): nat
    decreases |pending|
  {
    if pending == [] then 0 else (if pending[0].client < n then 1 else 0) + CountBelow(pending[1..], n)
  }

  lemma {:induction false} CountStep(pending: seq<TxFrame>, n: nat)
    ensures CountBelow(pending, n + 1) == CountBelow(pending, n) + |Tagged(pending, n)|
    decreases |pending|
  {
    if pending != [] {
      CountStep(pending[1..], n);
    }
  }

  lemma {:induction false} CountAll(pending: seq<TxFrame>, n: nat)
    requires forall k :: 0 <= k < |pending| ==> pending[k].client < n
    ensures CountBelow(pending, n) == |pending|
    decreases |pending|
  {
    if pending != [] {
      CountAll(pending[1..], n);
    }
  }

  lemma {:induction false} CountNone(pending: seq<TxFrame>)
    ensures CountBelow(pending, 0) == 0
    decreases |pending|
  {
    if pending != [] {
      CountNone(pending[1..]);
    }
  }

  lemma {:induction false} TotalIsCount(sockets: seq<Socket>, pending: seq<TxFrame>, n: nat)
    requires n <= |sockets|
    requires forall i :: 0 <= i < n ==> sockets[i].outstanding == |Tagged(pending, i)|
    ensures TotalOutstanding(sockets, n) == CountBelow(pending, n)
    decreases n
  {
    if n == 0 {
      CountNone(pending);
    } else {
      TotalIsCount(sockets, pending, n - 1);
      CountStep(pending, n - 1);
    }
  }

  /** The sockets' outstanding counts add up to the frames in the ring. */
  lemma {:induction false} OutstandingTotal(sockets: seq<Socket>, pending: seq<TxFrame>)
    requires Inv(sockets, pending)
    ensures TotalOutstanding(sockets, |sockets|) == |pending|
  {
    assert forall i :: 0 <= i < |sockets| ==> Balanced(sockets[i], pending, i);
    TotalIsCount(sockets, pending, |sockets|);
    CountAll(pending, |sockets|);
  }

  // ---- Steps, each on the books of one socket ----

  lemma {:induction false} TaggedNone(pending: seq<TxFrame>, i: nat)
    requires forall k :: 0 <= k < |pending| ==> pending[k].client < i
    ensures Tagged(pending, i) == []
  {
    if pending != [] {
      TaggedNone(pending[1..], i);
    }
  }

  lemma {:induction false} CreatedInv(sockets: seq<Socket>, pending: seq<TxFrame>, s: Socket)
    requires Inv(sockets, pending) && ValidLimits(s.limits)
    requires s == Socket(s.limits, Created, [], 0, s.txSize, [], 0, s.completionSize, 0, 0, false)
    ensures Inv(sockets + [s], pending)
  {
    TaggedNone(pending, |sockets|);
  }

  /** A descriptor turned into a frame at the ring's end. */
  lemma {:induction false} Enqueued(sockets: seq<Socket>, pending: seq<TxFrame>, i: nat)
    requires Inv(sockets, pending) && i < |sockets|
    requires sockets[i].taken < |sockets[i].posted| && !sockets[i].flushComplete
    requires Accepts(sockets[i].limits, sockets[i].posted[sockets[i].taken])
    requires |sockets[i].completions| - sockets[i].reaped + sockets[i].outstanding < sockets[i].completionSize
    ensures Inv(sockets[i := sockets[i].(taken := sockets[i].taken + 1, outstanding := sockets[i].outstanding + 1)],
                pending + [TxFrame(i, sockets[i].posted[sockets[i].taken].base)])
  {
    var frame := TxFrame(i, sockets[i].posted[sockets[i].taken].base);
    forall j | 0 <= j < |sockets|
      ensures Tagged(pending + [frame], j) == Tagged(pending, j) + if j == i then [frame.base] else []
    {
      TaggedAppend(pending, frame, j);
    }
  }

  /** A descriptor dropped as invalid. */
  lemma {:induction false} Rejected(sockets: seq<Socket>, pending: seq<TxFrame>, i: nat)
    requires Inv(sockets, pending) && i < |sockets|
    requires sockets[i].taken < |sockets[i].posted|
    requires !Accepts(sockets[i].limits, sockets[i].posted[sockets[i].taken])
    ensures Inv(sockets[i := sockets[i].(taken := sockets[i].taken + 1, invalid := sockets[i].invalid + 1)], pending)
  {
  }

  lemma {:induction false} CompletedOwn(s: Socket, pending: seq<TxFrame>, i: nat)
    requires Balanced(s, pending, i) && pending != [] && pending[0].client == i
    ensures s.outstanding > 0
    ensures Balanced(s.(completions := s.completions + [pending[0].base], outstanding := s.outstanding - 1),
            pending[1..], i)
  {
    var rest := Tagged(pending[1..], i);
    assert Tagged(pending, i) == [pending[0].base] + rest;
    assert s.completions + ([pending[0].base] + rest) == (s.completions + [pending[0].base]) + rest;
  }

  lemma {:induction false} CompletedOther(s: Socket, pending: seq<TxFrame>, j: nat)
    requires Balanced(s, pending, j) && pending != [] && pending[0].client != j
    ensures Balanced(s, pending[1..], j)
  {
    assert Tagged(pending, j) == Tagged(pending[1..], j);
  }

  /** The oldest frame turned into a completion of its socket. */
  lemma {:induction false} Completed(sockets: seq<Socket>, pending: seq<TxFrame>, i: nat)
    requires Inv(sockets, pending) && pending != [] && pending[0].client == i
    ensures i < |sockets| && sockets[i].outstanding > 0
    ensures Inv(sockets[i := sockets[i].(completions := sockets[i].completions + [pending[0].base],
                                         outstanding := sockets[i].outstanding - 1)],
                pending[1..])
  {
    CompletedOwn(sockets[i], pending, i);
    forall j | 0 <= j < |sockets| && j != i
      ensures Balanced(sockets[j], pending[1..], j)
    {
      CompletedOther(sockets[j], pending, j);
    }
  }

  // ---- Interference ----

  ghost predicate InBounds(s: Socket) {
    s.taken <= |s.posted| <= s.taken + s.txSize && s.reaped <= |s.completions|
  }

  /** What can happen to a socket while the queue works: its application posts and reaps within
      its rings' bounds, and its owner starts to close it. */
  ghost predicate Drifts(before: Socket, after: Socket) {
    && after == before.(posted := after.posted, reaped := after.reaped, state := after.state)
    && before.posted <= after.posted
    && before.reaped <= after.reaped
    && Follows(before.state, after.state)
    && InBounds(after)
  }

  ghost predicate DriftAll(before: seq<Socket>, after: seq<Socket>) {
    |before| == |after| && forall j :: 0 <= j < |before| ==> Drifts(before[j], after[j])
  }

  /** Whatever a socket's TX ring and completion ring have in flight inside the kernel, drift leaves
      the books balanced: `k` descriptors taken but not released, `f` of them accepted. */
  lemma {:induction false} DriftBalanced(before: Socket, after: Socket, k: nat, f: nat, pending: seq<TxFrame>, i: nat)
    requires Balanced(Filled(before, k, f), pending, i) && Drifts(before, after)
    ensures Balanced(Filled(after, k, f), pending, i)
  {
    AcceptedPrefix(before.limits, before.posted, after.posted, before.taken + k);
  }

  lemma {:induction false} DriftInv(before: seq<Socket>, after: seq<Socket>, pending: seq<TxFrame>)
    requires Inv(before, pending) && DriftAll(before, after)
    ensures Inv(after, pending)
  {
    forall j | 0 <= j < |after|
      ensures Balanced(after[j], pending, j)
    {
      assert Filled(before[j], 0, 0) == before[j] && Filled(after[j], 0, 0) == after[j];
      DriftBalanced(before[j], after[j], 0, 0, pending, j);
    }
  }

  /** A descriptor is posted and a completion slot is to spare. */
  ghost predicate Ready(s: Socket) {
    s.taken < |s.posted| && |s.completions| - s.reaped + s.outstanding < s.completionSize
  }

  /** What a socket can turn into while the queue runs: it does not go back in its life or its TX ring,
      its flush-complete event is not taken back, and while nothing is taken it stays ready. */
  ghost predicate Evolves(before: Socket, after: Socket) {
    && Follows(before.state, after.state) && before.taken <= after.taken && before.posted <= after.posted
    && (before.flushComplete ==> after.flushComplete)
    && (after.taken == before.taken && Ready(before) ==> Ready(after))
  }

  ghost predicate EvolvesAll(before: seq<Socket>, after: seq<Socket>) {
    |before| <= |after| && forall j :: 0 <= j < |before| ==> Evolves(before[j], after[j])
  }

  /** A socket that was ready and is active throughout has had descriptors taken. */
  ghost predicate Worked(before: Socket, after: Socket) {
    before.state == Active && after.state == Active && Ready(before) ==> after.taken > before.taken
  }

  ghost predicate WorkedAll(before: seq<Socket>, after: seq<Socket>, visited: seq<nat>) {
    forall id :: id in visited ==> id < |before| && id < |after| && Worked(before[id], after[id])
  }

  lemma {:induction false} EvolvesTwice(a: seq<Socket>, b: seq<Socket>, c: seq<Socket>)
    requires EvolvesAll(a, b) && EvolvesAll(b, c)
    ensures EvolvesAll(a, c)
  {
    forall j | 0 <= j < |a|
      ensures Evolves(a[j], c[j])
    {
      assert Evolves(a[j], b[j]) && Evolves(b[j], c[j]);
    }
  }

  lemma {:induction false} DriftEvolves(before: seq<Socket>, after: seq<Socket>)
    requires DriftAll(before, after)
    ensures EvolvesAll(before, after)
  {
    forall j | 0 <= j < |before|
      ensures Evolves(before[j], after[j])
    {
      assert Drifts(before[j], after[j]);
    }
  }

  /** Work done stays done, and work on what a socket has become is work on what it was. */
  lemma {:induction false} WorkedOn(a: seq<Socket>, b: seq<Socket>, c: seq<Socket>, visited: seq<nat>, id: nat)
    requires EvolvesAll(a, b) && EvolvesAll(b, c) && WorkedAll(a, b, visited)
    requires id < |a| && Worked(b[id], c[id])
    ensures EvolvesAll(a, c) && WorkedAll(a, c, visited + [id])
  {
    EvolvesTwice(a, b, c);
    forall x | x in visited + [id]
      ensures x < |a| && x < |c| && Worked(a[x], c[x])
    {
      if x in visited {
        assert Worked(a[x], b[x]) && Evolves(a[x], b[x]) && Evolves(b[x], c[x]);
      } else {
        assert Evolves(a[x], b[x]) && Evolves(b[x], c[x]);
      }
    }
  }

  lemma {:induction false} WorkedLater(a: seq<Socket>, b: seq<Socket>, c: seq<Socket>, visited: seq<nat>)
    requires EvolvesAll(a, b) && EvolvesAll(b, c) && WorkedAll(a, b, visited)
    ensures EvolvesAll(a, c) && WorkedAll(a, c, visited)
  {
    EvolvesTwice(a, b, c);
    forall x | x in visited
      ensures x < |a| && x < |c| && Worked(a[x], c[x])
    {
      assert Worked(a[x], b[x]) && Evolves(a[x], b[x]) && Evolves(b[x], c[x]);
    }
  }

  /** Work on what the sockets have become is work on what they were. */
  lemma {:induction false} WorkedEarlier(a: seq<Socket>, b: seq<Socket>, c: seq<Socket>, visited: seq<nat>)
    requires EvolvesAll(a, b) && EvolvesAll(b, c) && WorkedAll(b, c, visited) && |a| == |b|
    ensures EvolvesAll(a, c) && WorkedAll(a, c, visited)
  {
    EvolvesTwice(a, b, c);
    forall x | x in visited
      ensures x < |a| && x < |c| && Worked(a[x], c[x])
    {
      assert Worked(b[x], c[x]) && Evolves(a[x], b[x]) && Evolves(b[x], c[x]);
    }
  }

  lemma {:induction false} WorkedBoth(a: seq<Socket>, b: seq<Socket>, c: seq<Socket>, early: seq<nat>, late: seq<nat>)
    requires EvolvesAll(a, b) && EvolvesAll(b, c) && WorkedAll(a, b, early) && WorkedAll(b, c, late) && |a| == |b|
    ensures EvolvesAll(a, c) && WorkedAll(a, c, early + late)
  {
    WorkedLater(a, b, c, early);
    WorkedEarlier(a, b, c, late);
  }

  // ---- Filling: descriptors of one socket become frames ----

  /** A socket as it will be once `k` more descriptors are released, `f` of them accepted. */
  function Filled(s: Socket, k: nat, f: nat): Socket {
    s.(taken := s.taken + k, outstanding := s.outstanding + f)
  }

  /** What filling has made of the sockets, interference included. */
  ghost function Credited(start: seq<Socket>, i: nat, rejected: nat): seq<Socket>
    requires i < |start|
  {
    start[i := start[i].(invalid := start[i].invalid + rejected)]
  }

  /** Part way through filling from socket `i`: of `count` descriptors `k` are handled and `f`
      accepted, and each one left has its completion slot. */
  ghost predicate Filling(
    start: seq<Socket>, sockets: seq<Socket>, pending: seq<TxFrame>, i: nat, k: nat, f: nat, count: nat) {
    && i < |start| && f <= k <= count
    && DriftAll(Credited(start, i, k - f), sockets)
    && sockets[i].taken + count <= |sockets[i].posted|
    && |sockets[i].completions| - sockets[i].reaped + sockets[i].outstanding + f + (count - k)
       <= sockets[i].completionSize
    && !sockets[i].flushComplete
    && ValidLimits(sockets[i].limits)
    && Inv(sockets[i := Filled(sockets[i], k, f)], pending)
  }

  lemma {:induction false} FillingStart(sockets: seq<Socket>, pending: seq<TxFrame>, i: nat, count: nat)
    requires Inv(sockets, pending) && i < |sockets| && sockets[i].state == Active
    requires sockets[i].taken + count <= |sockets[i].posted|
    requires |sockets[i].completions| - sockets[i].reaped + sockets[i].outstanding + count <= sockets[i].completionSize
    ensures Filling(sockets, sockets, pending, i, 0, 0, count)
  {
    assert Balanced(sockets[i], pending, i);
    assert sockets[i := Filled(sockets[i], 0, 0)] == sockets == Credited(sockets, i, 0);
  }

  lemma {:induction false} FillingDrift(
    start: seq<Socket>, before: seq<Socket>, after: seq<Socket>, pending: seq<TxFrame>, i: nat, k: nat, f: nat,
      count: nat)
    requires Filling(start, before, pending, i, k, f, count) && DriftAll(before, after)
    ensures Filling(start, after, pending, i, k, f, count)
  {
    var filled, next := before[i := Filled(before[i], k, f)], after[i := Filled(after[i], k, f)];
    forall j | 0 <= j < |next|
      ensures Balanced(next[j], pending, j)
    {
      assert Balanced(filled[j], pending, j);
      if j == i {
        DriftBalanced(before[i], after[i], k, f, pending, i);
      } else {
        assert Filled(before[j], 0, 0) == before[j] && Filled(after[j], 0, 0) == after[j];
        DriftBalanced(before[j], after[j], 0, 0, pending, j);
      }
    }
  }

  lemma {:induction false} FillingAccept(
    start: seq<Socket>, sockets: seq<Socket>, pending: seq<TxFrame>, i: nat, k: nat, f: nat, count: nat)
    requires Filling(start, sockets, pending, i, k, f, count) && k < count
    requires Accepts(sockets[i].limits, sockets[i].posted[sockets[i].taken + k])
    ensures Filling(start, sockets, pending + [TxFrame(i, sockets[i].posted[sockets[i].taken + k].base)], i, k + 1,
            f + 1, count)
  {
    var filled := sockets[i := Filled(sockets[i], k, f)];
    Enqueued(filled, pending, i);
    assert filled[i := filled[i].(taken := filled[i].taken + 1, outstanding := filled[i].outstanding + 1)]
        == sockets[i := Filled(sockets[i], k + 1, f + 1)];
  }

  lemma {:induction false} FillingReject(
    start: seq<Socket>, sockets: seq<Socket>, pending: seq<TxFrame>, i: nat, k: nat, f: nat, count: nat)
    requires Filling(start, sockets, pending, i, k, f, count) && k < count
    requires !Accepts(sockets[i].limits, sockets[i].posted[sockets[i].taken + k])
    ensures Filling(start, sockets[i := sockets[i].(invalid := sockets[i].invalid + 1)], pending, i, k + 1, f, count)
  {
    var filled := sockets[i := Filled(sockets[i], k, f)];
    Rejected(filled, pending, i);
    var next := sockets[i := sockets[i].(invalid := sockets[i].invalid + 1)];
    assert filled[i := filled[i].(taken := filled[i].taken + 1, invalid := filled[i].invalid + 1)]
        == next[i := Filled(next[i], k + 1, f)];
    var now, later := Credited(start, i, k - f), Credited(start, i, k + 1 - f);
    assert forall j :: 0 <= j < |next| && j != i ==> later[j] == now[j];
  }

  /** The sockets after one of them was served, interference aside. */
  ghost function Served(start: seq<Socket>, i: nat, count: nat, accepted: nat): seq<Socket>
    requires i < |start| && accepted <= count
  {
    start[i := Filled(Credited(start, i, count - accepted)[i], count, accepted)]
  }

  lemma {:induction false} FillingDone(
    start: seq<Socket>, sockets: seq<Socket>, pending: seq<TxFrame>, i: nat, f: nat, count: nat)
    requires Filling(start, sockets, pending, i, count, f, count)
    ensures Inv(sockets[i := Filled(sockets[i], count, f)], pending)
    ensures DriftAll(Served(start, i, count, f), sockets[i := Filled(sockets[i], count, f)])
  {
    var served, next := Served(start, i, count, f), sockets[i := Filled(sockets[i], count, f)];
    forall j | 0 <= j < |next|
      ensures Drifts(served[j], next[j])
    {
      assert Drifts(Credited(start, i, count - f)[j], sockets[j]);
    }
  }

  /** How many descriptors one visit takes: none unless the socket is active, and otherwise as many
      as are posted, as fit the frame ring, and as have completion slots to spare. */
  ghost function FillCount(s: Socket, available: nat): nat
    requires InBounds(s) && |s.completions| - s.reaped + s.outstanding <= s.completionSize
  {
    if s.state != Active then 0
    else Min(Min(available, |s.posted| - s.taken), s.completionSize - (|s.completions| - s.reaped) - s.outstanding)
  }

  /** A visit with a free frame slot works for the socket, and all sockets evolve. */
  lemma {:induction false} ServedEvolves(
    start: seq<Socket>, sockets: seq<Socket>, i: nat, available: nat, count: nat, f: nat)
    requires i < |start| && f <= count && DriftAll(Served(start, i, count, f), sockets)
    requires InBounds(start[i])
    requires |start[i].completions| - start[i].reaped + start[i].outstanding <= start[i].completionSize
    requires count == FillCount(start[i], available)
    ensures EvolvesAll(start, sockets)
    ensures available > 0 ==> Worked(start[i], sockets[i])
  {
    var served := Served(start, i, count, f);
    forall j | 0 <= j < |start|
      ensures Evolves(start[j], sockets[j])
    {
      assert Drifts(served[j], sockets[j]);
    }
  }

  // ---- Draining: frames of one socket become completions ----

  /** A socket as it will be once its staged completions are submitted. */
  function Drained(s: Socket, staged: seq<nat>): Socket
    requires |staged| <= s.outstanding
  {
    s.(completions := s.completions + staged, outstanding := s.outstanding - |staged|)
  }

  ghost predicate Draining(start: seq<Socket>, sockets: seq<Socket>, pending: seq<TxFrame>, i: nat, staged: seq<nat>) {
    && i < |sockets| && |staged| <= sockets[i].outstanding
    && DriftAll(start, sockets)
    && Inv(sockets[i := Drained(sockets[i], staged)], pending)
  }

  lemma {:induction false} DrainingStart(sockets: seq<Socket>, pending: seq<TxFrame>, i: nat)
    requires Inv(sockets, pending) && i < |sockets|
    ensures Draining(sockets, sockets, pending, i, [])
  {
    assert sockets[i].completions + [] == sockets[i].completions;
    assert sockets[i := Drained(sockets[i], [])] == sockets;
    assert forall j :: 0 <= j < |sockets| ==> Balanced(sockets[j], pending, j);
  }

  lemma {:induction false} DrainingDrift(
    start: seq<Socket>, before: seq<Socket>, after: seq<Socket>, pending: seq<TxFrame>, i: nat, staged: seq<nat>)
    requires Draining(start, before, pending, i, staged) && DriftAll(before, after)
    ensures Draining(start, after, pending, i, staged)
  {
    var drained, next := before[i := Drained(before[i], staged)], after[i := Drained(after[i], staged)];
    assert DriftAll(drained, next);
    DriftInv(drained, next, pending);
  }

  lemma {:induction false} DrainingStep(
    start: seq<Socket>, sockets: seq<Socket>, pending: seq<TxFrame>, i: nat, staged: seq<nat>)
    requires Draining(start, sockets, pending, i, staged) && pending != [] && pending[0].client == i
    ensures Draining(start, sockets, pending[1..], i, staged + [pending[0].base])
  {
    var drained := sockets[i := Drained(sockets[i], staged)];
    Completed(drained, pending, i);
    var next := staged + [pending[0].base];
    assert sockets[i].completions + next == sockets[i].completions + staged + [pending[0].base];
    assert drained[i := drained[i].(completions := drained[i].completions + [pending[0].base],
                                    outstanding := drained[i].outstanding - 1)]
        == sockets[i := Drained(sockets[i], next)];
  }

  /** A socket after its completions are submitted and its rundown is looked at. */
  function Settled(s: Socket, staged: seq<nat>): Socket
    requires |staged| <= s.outstanding
  {
    RunDown(Drained(s, staged))
  }

  /** Signals a closing socket that nothing of it is outstanding. */
  function RunDown(s: Socket): Socket {
    if s.state == Closing && s.outstanding == 0 then s.(flushComplete := true) else s
  }

  lemma {:induction false} RunDownInv(sockets: seq<Socket>, pending: seq<TxFrame>, i: nat)
    requires Inv(sockets, pending) && i < |sockets|
    ensures Inv(sockets[i := RunDown(sockets[i])], pending)
  {
    assert Balanced(sockets[i], pending, i);
  }

  lemma {:induction false} DrainingDone(
    start: seq<Socket>, sockets: seq<Socket>, pending: seq<TxFrame>, i: nat, staged: seq<nat>)
    requires Draining(start, sockets, pending, i, staged)
    ensures Inv(sockets[i := Settled(sockets[i], staged)], pending)
    ensures |staged| <= sockets[i].completionSize - (|sockets[i].completions| - sockets[i].reaped)
  {
    var drained := sockets[i := Drained(sockets[i], staged)];
    assert Balanced(drained[i], pending, i);
    RunDownInv(drained, pending, i);
    assert drained[i := RunDown(drained[i])] == sockets[i := Settled(sockets[i], staged)];
  }

  lemma {:induction false} SettledEvolves(start: seq<Socket>, sockets: seq<Socket>, i: nat, staged: seq<nat>)
    requires i < |sockets| && |staged| <= sockets[i].outstanding && DriftAll(start, sockets)
    ensures EvolvesAll(start, sockets[i := Settled(sockets[i], staged)])
  {
    var after := sockets[i := Settled(sockets[i], staged)];
    forall j | 0 <= j < |start|
      ensures Evolves(start[j], after[j])
    {
      assert Drifts(start[j], sockets[j]);
    }
  }

  // ---- The client list ----

  /** The client list has no repeats, and every frame's client and the fill entry are on it. */
  ghost predicate Listed(clients: seq<nat>, fillEntry: Entry, socketCount: nat, pending: seq<TxFrame>) {
    && Distinct(clients)
    && (forall k :: 0 <= k < |clients| ==> clients[k] < socketCount)
    && OnList(clients, fillEntry)
    && (forall k :: 0 <= k < |pending| ==> pending[k].client in clients)
  }
}
