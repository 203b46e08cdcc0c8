/**
 A socket's bounce buffer beside the TX queue it shares with other sockets. The queue's ledger says which
 descriptors are in flight: those accepted among the ones taken, short of the ones completed. The bounce
 buffer holds exactly those, step by step through filling and completing, so its tracker counts the
 socket's own frames in the ring, and completing the ring's oldest frame lets go of the right chunk.
 */
module BounceQueue {
  import opened Words
  import opened Umem
  import opened TxLedger
  import opened Bounce
  import Q = TxQueue

  // ---- What the ledger has in flight ----

  /** The descriptors accepted among the first `n` posted, in posting order. */
  ghost function Descriptors(l: Limits, posted: seq<Descriptor>, n: nat): (ds: seq<Descriptor>)
    requires ValidLimits(l) && n <= |posted|
    ensures |ds| == |Accepted(l, posted, n)|
    ensures forall k :: 0 <= k < |ds| ==> ds[k].base == Accepted(l, posted, n)[k]
    decreases n
  {
    if n == 0 then []
    else if Accepts(l, posted[n - 1]) then Descriptors(l, posted, n - 1) + [posted[n - 1]]
    else Descriptors(l, posted, n - 1)
  }

  lemma {:induction false} DescriptorsPrefix(l: Limits, posted: seq<Descriptor>, more: seq<Descriptor>, n: nat)
    requires ValidLimits(l) && n <= |posted| && posted <= more
    ensures Descriptors(l, more, n) == Descriptors(l, posted, n)
    decreases n
  {
    if n > 0 {
      DescriptorsPrefix(l, posted, more, n - 1);
    }
  }

  /** These are in flight once `k` more descriptors are released and `n` more completions submitted. */
  ghost predicate Held(inFlight: seq<Descriptor>, s: Socket, k: nat, n: nat) {
    && ValidLimits(s.limits) && s.taken + k <= |s.posted|
    && var ds := Descriptors(s.limits, s.posted, s.taken + k);
    && |s.completions| + n <= |ds| && inFlight == ds[|s.completions| + n..]
  }

  lemma {:induction false} HeldDrift(inFlight: seq<Descriptor>, before: Socket, after: Socket, k: nat, n: nat)
    requires Held(inFlight, before, k, n) && Drifts(before, after)
    ensures Held(inFlight, after, k, n)
  {
    DescriptorsPrefix(before.limits, before.posted, after.posted, before.taken + k);
  }

  lemma {:induction false} HeldTake(inFlight: seq<Descriptor>, s: Socket, k: nat, n: nat)
    requires Held(inFlight, s, k, n) && s.taken + k < |s.posted|
    ensures var d := s.posted[s.taken + k];
            Held(if Accepts(s.limits, d) then inFlight + [d] else inFlight, s, k + 1, n)
  {
    var ds, d := Descriptors(s.limits, s.posted, s.taken + k), s.posted[s.taken + k];
    assert Descriptors(s.limits, s.posted, s.taken + (k + 1)) == if Accepts(s.limits, d) then ds + [d] else ds;
    TailMore(ds, d, |s.completions| + n);
  }

  lemma {:induction false} TailMore(ds: seq<Descriptor>, d: Descriptor, at: nat)
    requires at <= |ds|
    ensures (ds + [d])[at..] == ds[at..] + [d]
  {
  }

  lemma {:induction false} HeldCounted(inFlight: seq<Descriptor>, s: Socket, counted: Socket, k: nat)
    requires Held(inFlight, s, k, 0) && counted == s.(invalid := counted.invalid)
    ensures Held(inFlight, counted, k, 0)
  {
  }

  lemma {:induction false} HeldLetGo(inFlight: seq<Descriptor>, s: Socket, n: nat)
    requires Held(inFlight, s, 0, n) && inFlight != []
    ensures Held(inFlight[1..], s, 0, n + 1)
  {
    var ds, at := Descriptors(s.limits, s.posted, s.taken), |s.completions| + n;
    assert ds[at..][1..] == ds[at + 1..];
  }

  /** Against balanced books, what is held are the socket's frames in the ring, in ring order. */
  lemma {:induction false} HeldTagged(inFlight: seq<Descriptor>, s: Socket, pending: seq<TxFrame>, i: nat)
    requires Held(inFlight, s, 0, 0) && Balanced(s, pending, i)
    ensures |inFlight| == s.outstanding == |Tagged(pending, i)|
    ensures forall k :: 0 <= k < |inFlight| ==> inFlight[k].base == Tagged(pending, i)[k]
  {
    var all := Accepted(s.limits, s.posted, s.taken);
    assert all[|s.completions|..] == Tagged(pending, i);
  }

  lemma {:induction false} HeldFilled(inFlight: seq<Descriptor>, s: Socket, k: nat, f: nat)
    requires Held(inFlight, s, k, 0)
    ensures Held(inFlight, Filled(s, k, f), 0, 0)
  {
  }

  lemma {:induction false} HeldSettled(inFlight: seq<Descriptor>, s: Socket, staged: seq<nat>)
    requires Held(inFlight, s, 0, |staged|) && |staged| <= s.outstanding
    ensures Held(inFlight, Settled(s, staged), 0, 0)
  {
  }

  /** With some completions staged, the oldest descriptor held is that of the ring's oldest frame. */
  lemma {:induction false} HeldDrained(
    inFlight: seq<Descriptor>, start: seq<Socket>, sockets: seq<Socket>, staged: seq<nat>, pending: seq<TxFrame>,
    i: nat)
    requires Draining(start, sockets, pending, i, staged) && Held(inFlight, sockets[i], 0, |staged|)
    requires pending != [] && pending[0].client == i
    ensures inFlight != [] && inFlight[0].base == pending[0].base
  {
    var drained := sockets[i := Drained(sockets[i], staged)];
    assert Balanced(drained[i], pending, i);
    HeldTagged(inFlight, drained[i], pending, i);
    assert Tagged(pending, i)[0] == pending[0].base;
  }

  /** How many of a socket's frames in the ring are based in chunk `c`. */
  ghost function FramesInChunk(pending: seq<TxFrame>, i: nat, chunkSize: nat, c: nat): (n: nat)
    requires chunkSize > 0
    ensures n <= |pending|
  {
    if pending == [] then 0
    else
      (if pending[0].client == i && ChunkOf(chunkSize, pending[0].base) == c then 1 else 0)
      + FramesInChunk(pending[1..], i, chunkSize, c)
  }

  lemma {:induction false} TaggedCounts(
    inFlight: seq<Descriptor>, pending: seq<TxFrame>, i: nat, chunkSize: nat, c: nat)
    requires chunkSize > 0 && |inFlight| == |Tagged(pending, i)|
    requires forall k :: 0 <= k < |inFlight| ==> inFlight[k].base == Tagged(pending, i)[k]
    ensures InChunk(inFlight, chunkSize, c) == FramesInChunk(pending, i, chunkSize, c)
    decreases |pending|
  {
    if pending != [] {
      var rest := Tagged(pending[1..], i);
      if pending[0].client == i {
        assert Tagged(pending, i)[0] == pending[0].base && Tagged(pending, i)[1..] == rest;
        TaggedCounts(inFlight[1..], pending[1..], i, chunkSize, c);
      } else {
        assert Tagged(pending, i) == rest;
        TaggedCounts(inFlight, pending[1..], i, chunkSize, c);
      }
    }
  }

  // ---- The buffers in the frames ----

  /** The buffer was written for this descriptor: writing it again makes no difference. */
  ghost predicate Written(m: Mapping, e: Extensions, d: Descriptor, b: TxBuffer) {
    d.base < ADDRESS && b == Describe(m, e, d, b)
  }

  ghost predicate AllWritten(m: Mapping, e: Extensions, ds: seq<Descriptor>, bs: seq<TxBuffer>) {
    |ds| == |bs| && forall k :: 0 <= k < |ds| ==> Written(m, e, ds[k], bs[k])
  }

  lemma {:induction false} AllWrittenMore(
    m: Mapping, e: Extensions, ds: seq<Descriptor>, bs: seq<TxBuffer>, d: Descriptor, b: TxBuffer)
    requires AllWritten(m, e, ds, bs) && Written(m, e, d, b)
    ensures AllWritten(m, e, ds + [d], bs + [b])
  {
  }

  /** Socket `i` of a TX queue, with its bounce buffer and the buffers of its frames in the ring. */
  class Sender {
    const i: nat
    const queue: Q.TxQueue
    const bounce: TxBounce
    var buffers: seq<TxBuffer>

    /** The frames' buffers describe what the bounce buffer has in flight. */
    ghost predicate Described()
      reads this, bounce, bounce.bytes, bounce.tracker
    {
      bounce.Valid() && AllWritten(bounce.Mapping(), bounce.extensions, bounce.inFlight, buffers)
    }

    /** That is what the ledger has in flight. */
    ghost predicate Bounces(k: nat, n: nat)
      reads this, queue, bounce, bounce.bytes, bounce.tracker
    {
      && Described() && i < |queue.sockets| && bounce.limits == queue.sockets[i].limits
      && Held(bounce.inFlight, queue.sockets[i], k, n)
    }

    ghost predicate Valid()
      reads this, queue, queue.ring, queue.ring.elements, bounce, bounce.bytes, bounce.tracker
    {
      queue.Valid() && Bounces(0, 0)
    }

    constructor (i: nat, queue: Q.TxQueue, bounce: TxBounce)
      requires queue.Valid() && i < |queue.sockets| && queue.sockets[i].outstanding == 0
      requires bounce.Valid() && bounce.inFlight == [] && bounce.limits == queue.sockets[i].limits
      ensures Valid() && this.i == i && this.queue == queue && this.bounce == bounce
    {
      this.i, this.queue, this.bounce, buffers := i, queue, bounce, [];
      assert Balanced(queue.sockets[i], queue.ring.Pending(), i);
    }

    /** The tracker counts, by chunk, the socket's frames in the queue's ring; as many are in flight as the
        ledger has outstanding. */
    lemma TrackerCounts(c: nat)
      requires Valid()
      ensures |bounce.inFlight| == queue.sockets[i].outstanding == |Tagged(queue.ring.Pending(), i)|
      ensures bounce.limits.bouncing && c < bounce.tracker.Length ==>
                bounce.tracker[c] == FramesInChunk(queue.ring.Pending(), i, bounce.limits.chunkSize, c)
    {
      var pending := queue.ring.Pending();
      assert Balanced(queue.sockets[i], pending, i);
      HeldTagged(bounce.inFlight, queue.sockets[i], pending, i);
      TaggedCounts(bounce.inFlight, pending, i, bounce.limits.chunkSize, c);
    }

    /** The application writes to its memory. */
    method ApplicationWrites()
      requires bounce.Valid()
      modifies bounce`umem
      ensures bounce.Valid()
    {
      var contents: seq<Byte> := *;
      if |contents| == bounce.limits.totalSize {
        bounce.ApplicationWrites(contents);
      }
    }

    /** Bounces the bytes of the next descriptor and writes a frame's buffer for it. */
    method BounceOne(d: Descriptor, ghost s: Socket, ghost k: nat)
      requires Described() && bounce.limits == s.limits && Held(bounce.inFlight, s, k, 0)
      requires s.taken + k < |s.posted| && d == s.posted[s.taken + k]
      modifies this`buffers, bounce.bytes, bounce.tracker, bounce`inFlight, bounce`images
      ensures Described() && Held(bounce.inFlight, s, k + 1, 0)
    {
      ghost var inFlight := bounce.inFlight;
      HeldTake(inFlight, s, k, 0);
      var was: TxBuffer := *;
      var ok, b := bounce.Enqueue(d, was);
      if ok {
        AllWrittenMore(bounce.Mapping(), bounce.extensions, inFlight, buffers, d, b);
        buffers := buffers + [b];
      }
    }

    /** Part way through filling, with what is bounced in step with what is in the ring. */
    ghost predicate PostingAt(start: seq<Socket>, k: nat, f: nat, todo: nat, size0: nat)
      reads this, queue, queue.ring, queue.ring.elements, bounce, bounce.bytes, bounce.tracker
    {
      queue.FillingAt(start, i, k, f, todo, size0) && Bounces(k, 0)
    }

    /** One descriptor: bounced, and put into the ring if that goes well. */
    method PostOne(k: nat, todo: nat, ghost start: seq<Socket>, ghost f: nat, ghost size0: nat)
      returns (accepted: bool)
      requires PostingAt(start, k, f, todo, size0) && k < todo
      modifies queue`sockets, queue.ring`producerIndex, queue.ring`produced, queue.ring.elements,
               this`buffers, bounce.bytes, bounce.tracker, bounce`inFlight, bounce`images
      ensures PostingAt(start, k + 1, if accepted then f + 1 else f, todo, size0)
    {
      ghost var s := queue.sockets[i];
      BounceOne(queue.sockets[i].posted[queue.sockets[i].taken + k], s, k);
      accepted := queue.FillOne(i, k, todo, start, f, size0);
      HeldCounted(bounce.inFlight, s, queue.sockets[i], k + 1);
    }

    /** Others get on meanwhile: the driver, the applications, the owners. */
    method InterfereFilling(ghost start: seq<Socket>, ghost k: nat, ghost f: nat, ghost todo: nat, ghost size0: nat)
      requires PostingAt(start, k, f, todo, size0)
      modifies queue`sockets, queue.ring`consumerIndex, queue.ring`consumed, bounce`umem
      ensures PostingAt(start, k, f, todo, size0)
    {
      ghost var s := queue.sockets[i];
      queue.InterfereFilling(start, i, k, f, todo, size0);
      HeldDrift(bounce.inFlight, s, queue.sockets[i], k, 0);
      ApplicationWrites();
    }

    method PostLoop(todo: nat, ghost start: seq<Socket>, ghost size0: nat) returns (frameCount: nat)
      requires PostingAt(start, 0, 0, todo, size0)
      modifies queue`sockets, queue.ring`producerIndex, queue.ring`produced, queue.ring`consumerIndex,
               queue.ring`consumed, queue.ring.elements,
               this`buffers, bounce.bytes, bounce.tracker, bounce`umem, bounce`inFlight, bounce`images
      ensures PostingAt(start, todo, frameCount, todo, size0)
    {
      var k := 0;
      frameCount := 0;
      while k < todo
        invariant k <= todo && PostingAt(start, k, frameCount, todo, size0)
      {
        InterfereFilling(start, k, frameCount, todo, size0);
        var accepted := PostOne(k, todo, start, frameCount, size0);
        k, frameCount := k + 1, if accepted then frameCount + 1 else frameCount;
      }
    }

    /** The socket's turn in a fill: descriptors are bounced and go into the ring, as many as the rings have
        room for. */
    method FillTx(available: nat) returns (frameCount: nat, ghost count: nat)
      requires Valid() && i in queue.clients && available <= queue.ring.size - |queue.ring.Pending()|
      modifies queue`sockets, queue.ring`producerIndex, queue.ring`produced, queue.ring`consumerIndex,
               queue.ring`consumed, queue.ring.elements,
               this`buffers, bounce.bytes, bounce.tracker, bounce`umem, bounce`inFlight, bounce`images
      ensures Valid() && |queue.ring.Pending()| == |old(queue.ring.Pending())| + frameCount
      ensures i < |old(queue.sockets)| && frameCount <= count == FillCount(old(queue.sockets)[i], available)
      ensures DriftAll(Served(old(queue.sockets), i, count, frameCount), queue.sockets)
    {
      ghost var start, size0 := queue.sockets, |queue.ring.Pending()|;
      frameCount, count := 0, 0;
      if queue.sockets[i].state != Active {
        assert Balanced(queue.sockets[i], queue.ring.Pending(), i);
        assert Served(start, i, 0, 0) == start;
        return;
      }
      var todo := queue.BeginFill(i, available);
      count := todo;
      frameCount := PostLoop(todo, start, size0);
      HeldFilled(bounce.inFlight, queue.sockets[i], todo, frameCount);
      queue.EndFill(i, todo, frameCount, start, size0);
    }

    /** Part way through completing, with what is let go in step with what is staged. */
    ghost predicate CompletingAt(start: seq<Socket>, staged: seq<nat>, frames: seq<TxFrame>)
      reads this, queue, queue.ring, queue.ring.elements, bounce, bounce.bytes, bounce.tracker
    {
      queue.DrainingAt(start, i, staged, frames) && Bounces(0, |staged|)
    }

    /** Lets go of the oldest descriptor in flight; its address comes back from the frame's buffer. */
    method LetGo(ghost s: Socket, ghost n: nat, ghost base: nat) returns (relativeAddress: u64)
      requires Described() && Held(bounce.inFlight, s, 0, n)
      requires bounce.inFlight != [] && bounce.inFlight[0].base == base
      modifies this`buffers, bounce.tracker, bounce`umem, bounce`inFlight, bounce`images
      ensures Described() && Held(bounce.inFlight, s, 0, n + 1) && relativeAddress == base
    {
      ApplicationWrites();
      HeldLetGo(bounce.inFlight, s, n);
      assert Drop(bounce.inFlight, 0) == bounce.inFlight[1..];
      relativeAddress := bounce.Complete(buffers[0], 0, buffers[0]);
      buffers := buffers[1..];
    }

    /** One frame of the socket that the driver has passed: the address recovered from its buffer is the one
        that was posted. */
    method CompleteOne(staged: seq<nat>, ghost start: seq<Socket>, ghost frames: seq<TxFrame>)
      returns (more: bool, next: seq<nat>, relativeAddress: u64)
      requires CompletingAt(start, staged, frames)
      requires queue.ring.consumed > queue.ring.retired && queue.ring.Pending()[0].client == i
      modifies queue`sockets, queue.ring`reserved, queue.ring`retired, queue.ring`consumerIndex, queue.ring`consumed,
               this`buffers, bounce.tracker, bounce`umem, bounce`inFlight, bounce`images
      ensures CompletingAt(start, next, frames) && next == staged + [relativeAddress]
      ensures |queue.ring.Pending()| < |old(queue.ring.Pending())|
      ensures more ==> queue.ring.consumed > queue.ring.retired
    {
      ghost var s := queue.sockets[i];
      HeldDrained(bounce.inFlight, start, queue.sockets, staged, queue.ring.Pending(), i);
      relativeAddress := LetGo(s, |staged|, queue.ring.Pending()[0].base);
      more, next := queue.DrainOne(i, staged, start, frames);
      HeldDrift(bounce.inFlight, s, queue.sockets[i], 0, |next|);
    }

    method CompleteLoop(ghost start: seq<Socket>, ghost frames: seq<TxFrame>) returns (staged: seq<nat>)
      requires CompletingAt(start, [], frames)
      requires queue.ring.consumed > queue.ring.retired && queue.ring.Pending()[0].client == i
      modifies queue`sockets, queue.ring`reserved, queue.ring`retired, queue.ring`consumerIndex, queue.ring`consumed,
               this`buffers, bounce.tracker, bounce`umem, bounce`inFlight, bounce`images
      ensures CompletingAt(start, staged, frames) && staged != []
    {
      staged := [];
      var more := true;
      while more
        invariant CompletingAt(start, staged, frames)
        invariant more ==> queue.ring.consumed > queue.ring.retired
        invariant staged == [] ==> more && queue.ring.Pending()[0].client == i
        decreases |queue.ring.Pending()|, more
      {
        var frame := queue.ring.Oldest();
        if frame.client != i {
          more := false;
        } else {
          var relativeAddress;
          more, staged, relativeAddress := CompleteOne(staged, start, frames);
        }
      }
    }

    /** The run of the socket's frames at the ring's front completes: their chunks are let go, and the addresses
        recovered from their buffers, the posted ones, are its next completions. */
    method FillTxCompletion() returns (recovered: seq<nat>)
      requires Valid() && queue.ring.consumed > queue.ring.retired && queue.ring.Pending()[0].client == i
      modifies queue`sockets, queue.ring`reserved, queue.ring`retired, queue.ring`consumerIndex, queue.ring`consumed,
               this`buffers, bounce.tracker, bounce`umem, bounce`inFlight, bounce`images
      ensures Valid() && recovered != []
      ensures old(queue.ring.Pending()) == FramesOf(i, recovered) + queue.ring.Pending()
      ensures queue.sockets[i].completions == old(queue.sockets)[i].completions + recovered
    {
      ghost var start, frames := queue.sockets, queue.ring.Pending();
      queue.BeginDrain(i);
      recovered := CompleteLoop(start, frames);
      HeldSettled(bounce.inFlight, queue.sockets[i], recovered);
      queue.EndDrain(i, recovered, start, frames);
    }

    /** Another socket is served. */
    method OtherFills(j: nat, available: nat)
      requires Valid() && j != i && j in queue.clients && available <= queue.ring.size - |queue.ring.Pending()|
      modifies queue`sockets, queue.ring`producerIndex, queue.ring`produced, queue.ring`consumerIndex,
               queue.ring`consumed, queue.ring.elements
      ensures Valid() && bounce.inFlight == old(bounce.inFlight)
    {
      ghost var start, count := queue.sockets, 0;
      var frameCount;
      frameCount, count := queue.FillTx(j, available);
      assert Served(start, j, count, frameCount)[i] == start[i];
      HeldDrift(bounce.inFlight, start[i], queue.sockets[i], 0, 0);
    }

    /** Another socket's frames complete. */
    method OtherCompletes(j: nat)
      requires Valid() && j != i && queue.ring.consumed > queue.ring.retired && queue.ring.Pending()[0].client == j
      modifies queue`sockets, queue.ring`reserved, queue.ring`retired, queue.ring`consumerIndex, queue.ring`consumed
      ensures Valid() && bounce.inFlight == old(bounce.inFlight)
    {
      ghost var s := queue.sockets[i];
      ghost var staged := queue.FillTxCompletion(j);
      HeldDrift(bounce.inFlight, s, queue.sockets[i], 0, 0);
    }

    /** The driver, the applications and the owners get on. */
    method Outside()
      requires Valid()
      modifies queue`sockets, queue.ring`consumerIndex, queue.ring`consumed, bounce`umem
      ensures Valid() && bounce.inFlight == old(bounce.inFlight)
    {
      ghost var start := queue.sockets;
      assert forall j :: 0 <= j < |start| ==> Balanced(start[j], queue.ring.Pending(), j);
      queue.Interfere();
      DriftInv(start, queue.sockets, queue.ring.Pending());
      HeldDrift(bounce.inFlight, start[i], queue.sockets[i], 0, 0);
      ApplicationWrites();
    }

    /** A client on the list is served. */
    method ServeClient(j: nat)
      requires Valid() && j in queue.clients
      modifies queue, queue.ring, queue.ring.elements, this, bounce, bounce.bytes, bounce.tracker
      ensures Valid()
    {
      var available: nat := queue.ring.Available();
      if j == i {
        var frameCount;
        ghost var count;
        frameCount, count := FillTx(available);
      } else {
        OtherFills(j, available);
      }
    }

    /** The run of frames at the ring's front completes, if the driver has passed any. */
    method CompleteFirst()
      requires Valid()
      modifies queue, queue.ring, queue.ring.elements, this, bounce, bounce.bytes, bounce.tracker
      ensures Valid()
    {
      var any := queue.ring.HasCompleted();
      if any {
        var frame := queue.ring.Oldest();
        if frame.client == i {
          var recovered := FillTxCompletion();
        } else {
          OtherCompletes(frame.client);
        }
      }
    }

    /** Sockets come into being, and clients join, run down and leave. */
    method Manage(step: Step)
      requires Valid()
      modifies queue`sockets, queue`clients, queue`fillEntry
      ensures Valid()
    {
      ghost var s := queue.sockets[i];
      match step {
        case Create(limits, txSize, completionSize) =>
          if 0 < limits.chunkSize && limits.totalSize < WORD {
            var j := queue.CreateSocket(limits, txSize, completionSize);
          }
        case AddClient(j) =>
          if j < |queue.sockets| && j !in queue.clients {
            queue.AddDatapathClient(j);
          }
        case Rundown(j) =>
          if j < |queue.sockets| && queue.sockets[j].state == Closing {
            queue.CompleteRundown(j);
          }
        case RemoveClient(j) =>
          if j in queue.clients && queue.sockets[j].flushComplete {
            queue.RemoveDatapathClient(j);
          }
        case _ =>
      }
      assert queue.sockets[i] == s.(flushComplete := queue.sockets[i].flushComplete);
    }

    method TakeStep(step: Step)
      requires Valid()
      modifies queue, queue.ring, queue.ring.elements, this, bounce, bounce.bytes, bounce.tracker
      ensures Valid()
    {
      match step {
        case Outside => Outside();
        case CompleteFront => CompleteFirst();
        case Serve(j) =>
          if j in queue.clients {
            ServeClient(j);
          }
        case _ => Manage(step);
      }
    }

    /** Over every run of the queue: the tracker counts, by chunk, exactly the socket's frames in the ring. */
    method Run(steps: seq<Step>)
      requires Valid()
      modifies queue, queue.ring, queue.ring.elements, this, bounce, bounce.bytes, bounce.tracker
      ensures Valid() && |bounce.inFlight| == queue.sockets[i].outstanding
      ensures forall c :: 0 <= c < bounce.tracker.Length && bounce.limits.bouncing ==>
                bounce.tracker[c] == FramesInChunk(queue.ring.Pending(), i, bounce.limits.chunkSize, c)
    {
      for n := 0 to |steps|
        invariant Valid()
      {
        TakeStep(steps[n]);
      }
      TrackerCounts(0);
      forall c | 0 <= c < bounce.tracker.Length && bounce.limits.bouncing
        ensures bounce.tracker[c] == FramesInChunk(queue.ring.Pending(), i, bounce.limits.chunkSize, c)
      {
        TrackerCounts(c);
      }
    }
  }

  /** Something that happens to a socket's queue. */
  datatype Step =
    | Serve(j: nat)
    | CompleteFront
    | Outside
    | Create(limits: Limits, txSize: nat, completionSize: nat)
    | AddClient(j: nat)
    | Rundown(j: nat)
    | RemoveClient(j: nat)
}
