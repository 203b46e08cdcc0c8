/**
 The receive data path itself: frames and their fragments sit in rings with free-running consumer
 indexes, and one socket takes them, either as an exclusive batch or through redirect batches.
 */
module RxPath {
  import opened Options
  import opened Words
  import opened Frames
  import opened Umem
  import opened Rules
  import opened Receive
  import opened Batches
  import I = Inspect
  import FrameCache

  /** A frame ring element: the first buffer and the number of fragments. */
  datatype RxFrame = RxFrame(buffer: Bytes, count: nat)

  /** What the driver puts in its rings; a queue without a fragment ring has no fragments. */
  ghost predicate ValidElement(e: RxFrame, fragments: Option<seq<Bytes>>) {
    if fragments.None? then e.count == 0 else RingSize(|fragments.value|) && e.count <= |fragments.value|
  }

  /** The frame with its fragments from a ring index on, masked before or not. */
  function FrameOf(e: RxFrame, fragments: Option<seq<Bytes>>, fragmentIndex: u32): (f: Frame)
    requires ValidElement(e, fragments)
    ensures ValidFrame(f) && f.buffer == e.buffer
    ensures fragments.Some? ==> HasFragments(f, fragments.value, fragmentIndex, e.count)
    ensures fragments.None? ==> f.ring == None
  {
    if fragments.None? then Frame(e.buffer, None)
    else
      RingSizeBounds(|fragments.value|);
      MaskAdd(|fragments.value|, fragmentIndex, 0);
      Frame(e.buffer, Some(FragmentRing(fragments.value, BitAnd(fragmentIndex, |fragments.value| - 1), e.count)))
  }

  /** Masking an index first makes no difference to the frame. */
  lemma {:induction false} FrameOfMasked(e: RxFrame, fragments: seq<Bytes>, fragmentIndex: u32)
    requires ValidElement(e, Some(fragments))
    ensures BitAnd(fragmentIndex, |fragments| - 1) < WORD
    ensures FrameOf(e, Some(fragments), BitAnd(fragmentIndex, |fragments| - 1))
            == FrameOf(e, Some(fragments), fragmentIndex)
  {
    var size := |fragments|;
    RingSizeBounds(size);
    MaskAdd(size, fragmentIndex, 0);
    var m := BitAnd(fragmentIndex, size - 1);
    MaskWord(m, size);
    ModUnique(m, size, 0, m);
  }

  /** Adding to a fragment index and masking finds the frame's fragments, wherever the index was
      masked before. */
  lemma {:induction false} FragmentAt(fragments: seq<Bytes>, fragmentIndex: u32, count: nat, i: u32)
    requires RingSize(|fragments|) && i < |fragments|
    ensures BitAnd(fragmentIndex, |fragments| - 1) < |fragments| < WORD
    ensures BitAnd(Add(fragmentIndex, i), |fragments| - 1)
         == FragmentSlot(FragmentRing(fragments, BitAnd(fragmentIndex, |fragments| - 1), count), i)
  {
    var size := |fragments|;
    RingSizeBounds(size);
    MaskAdd(size, fragmentIndex, i);
  }

  /** The frame's fragments are these ring elements, from this index on. */
  ghost predicate HasFragments(f: Frame, fragments: seq<Bytes>, fragmentIndex: u32, count: nat) {
    && ValidFrame(f) && f.ring.Some? && f.ring.value.elements == fragments && f.ring.value.count == count
    && f.ring.value.index == BitAnd(fragmentIndex, |fragments| - 1)
  }

  lemma {:induction false} FragmentFound(f: Frame, fragments: seq<Bytes>, fragmentIndex: u32, count: nat, i: nat)
    requires HasFragments(f, fragments, fragmentIndex, count) && i < count
    ensures i < WORD && BitAnd(Add(fragmentIndex, i), |fragments| - 1) < |fragments|
    ensures fragments[BitAnd(Add(fragmentIndex, i), |fragments| - 1)] == Pieces(f)[i + 1]
  {
    RingSizeBounds(|fragments|);
    FragmentAt(fragments, fragmentIndex, count, i);
    assert Pieces(f)[i + 1] == fragments[FragmentSlot(f.ring.value, i)];
  }

  /** Part way through a frame: `done` bytes of its front are stored. */
  ghost predicate Stored(f: Frame, before: Bytes, now: Bytes, at: nat, done: nat) {
    && ValidFrame(f)
    && done <= |Flat(f)| && at + done <= |before|
    && now == Store(before, at, Flat(f)[..done])
  }

  lemma {:induction false} PrefixMore(flat: Bytes, done: nat, piece: Bytes, n: nat)
    requires done + |piece| <= |flat| && flat[done..done + |piece|] == piece && n <= |piece|
    ensures flat[..done] + piece[..n] == flat[..done + n]
  {
    assert piece[..n] == flat[done..done + |piece|][..n] == flat[done..done + n];
  }

  lemma {:induction false} StoreTwice(memory: Bytes, at: nat, a: Bytes, b: Bytes)
    requires at + |a| + |b| <= |memory|
    ensures Store(Store(memory, at, a), at + |a|, b) == Store(memory, at, a + b)
  {
    var once, both := Store(Store(memory, at, a), at + |a|, b), Store(memory, at, a + b);
    assert forall i :: 0 <= i < |memory| ==> once[i] == both[i];
  }

  lemma {:induction false} StoreMore(f: Frame, before: Bytes, now: Bytes, at: nat, k: nat, n: nat)
    requires ValidFrame(f) && k < |Pieces(f)|
    requires Stored(f, before, now, at, Before(Pieces(f), k)) && n <= |Pieces(f)[k]|
    requires at + Before(Pieces(f), k) + n <= |before|
    ensures Stored(f, before, Store(now, at + Before(Pieces(f), k), Pieces(f)[k][..n]), at, Before(Pieces(f), k) + n)
  {
    var done, piece := Before(Pieces(f), k), Pieces(f)[k];
    PieceInFlat(Pieces(f), k);
    PrefixMore(Flat(f), done, piece, n);
    StoreTwice(before, at, Flat(f)[..done], piece[..n]);
  }

  class RxSocket {
    const region: Region
    const umem: array<byte>
    var attached: bool
    var queue: nat
    var fills: seq<nat>
    var ring: seq<RxDescriptor>
    var room: nat
    var invalid: nat
    var truncated: nat
    var dropped: nat

    ghost predicate Valid()
      reads this
    {
      ValidRegion(region) && umem.Length == region.totalSize
    }

    ghost function State(): (rx: Rx)
      requires Valid()
      reads this, umem
      ensures ValidRx(region, rx)
    {
      Rx(umem[..], fills, ring, room, invalid, truncated, dropped)
    }

    constructor (region: Region, umem: array<byte>, queue: nat, fills: seq<nat>, room: nat)
      requires ValidRegion(region) && umem.Length == region.totalSize
      ensures Valid() && this.region == region && this.umem == umem && attached && this.queue == queue
      ensures State() == Rx(umem[..], fills, [], room, 0, 0, 0)
    {
      this.region, this.umem, this.queue, attached := region, umem, queue, true;
      this.fills, ring, this.room := fills, [], room;
      invalid, truncated, dropped := 0, 0, 0;
    }

    method CopyIn(at: nat, data: Bytes)
      requires at + |data| <= umem.Length
      modifies umem
      ensures umem[..] == Store(old(umem[..]), at, data)
    {
      var i := 0;
      while i < |data|
        invariant 0 <= i <= |data|
        invariant forall j :: 0 <= j < umem.Length ==>
                  umem[j] == if at <= j < at + i then data[j - at] else old(umem[j])
      {
        umem[at + i] := data[i];
        i := i + 1;
      }
    }

    /** Copies what fits of one more buffer of a frame. */
    method CopyBuffer(buffer: Bytes, at: nat, done: nat, ghost f: Frame, ghost before: Bytes, ghost k: nat)
      returns (n: nat)
      requires Valid() && ValidFrame(f) && k < |Pieces(f)| && buffer == Pieces(f)[k] && done == Before(Pieces(f), k)
      requires done <= Capacity(region) && at + Capacity(region) <= umem.Length == |before|
      requires Stored(f, before, umem[..], at, done)
      modifies umem
      ensures n == Min(|buffer|, Capacity(region) - done)
      ensures Stored(f, before, umem[..], at, done + n)
    {
      n := Min(|buffer|, Capacity(region) - done);
      ghost var now, piece := umem[..], buffer[..n];
      StoreMore(f, before, now, at, k, n);
      CopyIn(at + done, buffer[..n]);
      assert umem[..] == Store(now, at + done, piece);
    }

    /** The first `k` buffers of a frame are stored, or as much of them as the chunk holds. */
    ghost predicate CopiedAt(f: Frame, before: Bytes, at: nat, k: nat, done: nat, cut: bool)
      requires ValidRegion(region)
      reads umem
    {
      && ValidFrame(f) && k <= |Pieces(f)| && Stored(f, before, umem[..], at, done)
      && if cut then done == Capacity(region) < Before(Pieces(f), k) <= |Flat(f)|
         else done == Before(Pieces(f), k) <= Capacity(region)
    }

    /** Copies a frame's fragments behind its first buffer, as far as the chunk goes. */
    method CopyFragments(
      fragments: seq<Bytes>, fragmentIndex: u32, count: nat, at: nat, first: nat, ghost f: Frame, ghost before: Bytes)
      returns (done: nat, cut: bool)
      requires Valid() && HasFragments(f, fragments, fragmentIndex, count)
      requires first == |f.buffer| <= Capacity(region) && at + Capacity(region) <= umem.Length == |before|
      requires Stored(f, before, umem[..], at, first)
      modifies umem
      ensures Stored(f, before, umem[..], at, done)
      ensures done == Min(|Flat(f)|, Capacity(region))
      ensures cut <==> |Flat(f)| > Capacity(region)
    {
      done, cut := first, false;
      var i: nat := 0;
      while i < count && !cut
        invariant i <= count && CopiedAt(f, before, at, i + 1, done, cut)
      {
        FragmentFound(f, fragments, fragmentIndex, count, i);
        var buffer := fragments[BitAnd(Add(fragmentIndex, i), |fragments| - 1)];
        var n := CopyBuffer(buffer, at, done, f, before, i + 1);
        PieceInFlat(Pieces(f), i + 1);
        done, cut, i := done + n, n < |buffer|, i + 1;
      }
      PieceInFlat(Pieces(f), count);
    }

    /** Copies what fits of a frame, buffer by buffer. */
    method CopyFrame(e: RxFrame, fragments: Option<seq<Bytes>>, fragmentIndex: u32, at: nat, ghost f: Frame)
      returns (done: nat, cut: bool)
      requires Valid() && ValidElement(e, fragments) && f == FrameOf(e, fragments, fragmentIndex)
      requires at + Capacity(region) <= umem.Length
      modifies umem
      ensures done == Min(|Flat(f)|, Capacity(region)) && (cut <==> |Flat(f)| > Capacity(region))
      ensures umem[..] == Store(old(umem[..]), at, Flat(f)[..done])
    {
      ghost var before := umem[..];
      assert Before(Pieces(f), 0) == 0 && Store(before, at, Flat(f)[..0]) == before;
      done := CopyBuffer(e.buffer, at, 0, f, before, 0);
      cut := done < |e.buffer|;
      assert Before(Pieces(f), 1) == |e.buffer|;
      PieceInFlat(Pieces(f), 0);
      if !cut && fragments.Some? {
        done, cut := CopyFragments(fragments.value, fragmentIndex, e.count, at, done, f, before);
      }
    }

    /** Takes one frame into the chunk of one fill descriptor. */
    method ReceiveSingleFrame(e: RxFrame, fragments: Option<seq<Bytes>>, fragmentIndex: u32, address: nat)
      requires Valid() && ValidElement(e, fragments)
      modifies umem, this`ring, this`invalid, this`truncated
      ensures State() == Land(region, old(State()), Flat(FrameOf(e, fragments, fragmentIndex)), address)
    {
      if address > region.totalSize - region.chunkSize {
        invalid := invalid + 1;
        return;
      }
      ghost var f := FrameOf(e, fragments, fragmentIndex);
      var done, cut := CopyFrame(e, fragments, fragmentIndex, address + region.headroom, f);
      if cut {
        truncated := truncated + 1;
      }
      ring := ring + [RxDescriptor(address, region.headroom, done)];
    }

    /** Publishes a batch whose fills are placed: counts the frames that were dropped, and moves both
        rings. Every frame is then delivered or dropped, every delivery has an RX slot, and every fill
        taken is in an RX descriptor or counted as invalid. */
    method ReceiveSubmitBatch(batchCount: nat, fillConsumed: nat, produced: nat, ghost before: Rx)
      requires Valid() && fills == before.fills && room == before.room && dropped == before.dropped
      requires fillConsumed <= |fills| && fillConsumed <= Min(room, batchCount)
      requires Placed(region, before, State(), fills[..fillConsumed]) && |before.ring| + produced == |ring|
      modifies this`fills, this`room, this`dropped
      ensures produced <= fillConsumed && State() == SubmitBatch(before, old(State()), batchCount, fillConsumed)
      ensures Conserves(region, before, State(), batchCount)
    {
      SubmitConserves(region, before, State(), batchCount, fillConsumed);
      if produced < batchCount {
        dropped := dropped + (batchCount - produced);
      }
      fills := fills[fillConsumed..];
      room := room - produced;
    }
  }

  // ---- The queue ----

  ghost predicate ValidRing(frames: seq<RxFrame>, fragments: Option<seq<Bytes>>) {
    && RingSize(|frames|)
    && forall k :: 0 <= k < |frames| ==> ValidElement(frames[k], fragments)
  }

  function ElementAt(frames: seq<RxFrame>, index: u32): (e: RxFrame)
    requires RingSize(|frames|)
    ensures e in frames
  {
    frames[MaskOf(|frames|, index)]
  }

  /** The actions of `n` frames from an index on are all DROP. */
  ghost predicate Dropped(actions: seq<RxAction>, index: u32, n: u32)
    requires RingSize(|actions|)
  {
    forall k: u32 :: k < n ==> actions[MaskOf(|actions|, Add(index, k))] == RxDrop
  }

  function MaskOf(size: nat, index: u32): (slot: nat)
    requires RingSize(size)
    ensures slot < size
  {
    RingSizeBounds(size);
    MaskAdd(size, index, 0);
    BitAnd(index, size - 1)
  }

  /** The next `n` frames as flat bytes, from a frame index and a fragment index on. */
  ghost function Flats(
    frames: seq<RxFrame>, fragments: Option<seq<Bytes>>, index: u32, fragmentIndex: u32, n: nat): (flats: seq<Bytes>)
    requires ValidRing(frames, fragments)
    ensures |flats| == n
    decreases n
  {
    if n == 0 then []
    else
      var e := ElementAt(frames, index);
      [Flat(FrameOf(e, fragments, fragmentIndex))]
      + Flats(frames, fragments, Add(index, 1), NextFragment(e, fragments, fragmentIndex), n - 1)
  }

  function NextFragment(e: RxFrame, fragments: Option<seq<Bytes>>, fragmentIndex: u32): u32
    requires ValidElement(e, fragments)
  {
    if fragments.None? then fragmentIndex
    else
      RingSizeBounds(|fragments.value|);
      Add(fragmentIndex, e.count)
  }

  lemma {:induction false} PairwiseRest(r: Region, rx: Rx, flats: seq<Bytes>, fills: seq<nat>, k: nat, n: nat)
    requires ValidRx(r, rx) && k < n <= |flats| && n <= |fills|
    ensures Pairwise(r, rx, flats[k..n], fills[k..n])
         == Pairwise(r, Land(r, rx, flats[k], fills[k]), flats[k + 1..n], fills[k + 1..n])
  {
    assert flats[k..n][1..] == flats[k + 1..n] && fills[k..n][1..] == fills[k + 1..n];
  }

  lemma {:induction false} RetryingRest(
    r: Region, rx: Rx, flats: seq<Bytes>, fills: seq<nat>, k: nat, n: nat, produced: nat)
    requires ValidRx(r, rx) && k < n <= |fills| && produced + (n - k) <= |flats|
    ensures Retrying(r, rx, flats, fills[k..n], produced)
         == Retrying(r, Land(r, rx, flats[produced], fills[k]), flats, fills[k + 1..n],
                     if ValidFill(r, fills[k]) then produced + 1 else produced)
  {
    assert fills[k..n][1..] == fills[k + 1..n];
  }

  /** Part way through an exclusive batch: what is still to land leads to the whole batch's outcome. */
  ghost predicate Taking(r: Region, before: Rx, now: Rx, flats: seq<Bytes>, fills: seq<nat>, k: nat, n: nat) {
    && ValidRx(r, before) && ValidRx(r, now) && n <= |flats| && n <= |fills|
    && Pairwise(r, before, flats[..n], fills[..n])
    == if k < n then Pairwise(r, now, flats[k..n], fills[k..n]) else now
  }

  lemma {:induction false} TakingStart(r: Region, rx: Rx, flats: seq<Bytes>, fills: seq<nat>, n: nat)
    requires ValidRx(r, rx) && n <= |flats| && n <= |fills|
    ensures Taking(r, rx, rx, flats, fills, 0, n)
  {
    assert flats[0..n] == flats[..n] && fills[0..n] == fills[..n];
  }

  lemma {:induction false} TakingStep(
    r: Region, before: Rx, now: Rx, flats: seq<Bytes>, fills: seq<nat>, k: nat, n: nat)
    requires Taking(r, before, now, flats, fills, k, n) && k < |flats|
    ensures k < n ==> Taking(r, before, Land(r, now, flats[k], fills[k]), flats, fills, k + 1, n)
    ensures k >= n ==> Taking(r, before, now, flats, fills, k + 1, n)
  {
    if k < n {
      PairwiseRest(r, now, flats, fills, k, n);
    }
  }

  /** A full batch that is flushed when the next frame comes is the first of the batches. */
  lemma {:induction false} BatchesPend(r: Region, rx: Rx, pended: seq<Bytes>, flat: Bytes, rest: seq<Bytes>)
    requires ValidRx(r, rx) && |pended| <= BATCH
    ensures |pended| == BATCH ==>
              InBatches(r, rx, pended + ([flat] + rest))
                == InBatches(r, Redirected(r, rx, pended), ([] + [flat]) + rest)
    ensures (pended + [flat]) + rest == pended + ([flat] + rest)
  {
    var all := pended + ([flat] + rest);
    if |pended| == BATCH {
      assert all[..BATCH] == pended && all[BATCH..] == ([] + [flat]) + rest;
    }
  }

  lemma {:induction false} DroppedMore(actions: seq<RxAction>, index: u32, k: u32)
    requires RingSize(|actions|) && Dropped(actions, index, k) && k + 1 < WORD
    ensures Dropped(actions[MaskOf(|actions|, Add(index, k)) := RxDrop], index, k + 1)
  {
  }

  /** An RX queue with one socket as the target of its program. */
  class RxQueue {
    const id: nat
    const frames: seq<RxFrame>
    const fragments: Option<seq<Bytes>>
    const actions: array<RxAction>
    const socket: RxSocket
    var frameConsumer: u32
    var frameProducer: u32
    var fragmentConsumer: u32
    var batch: seq<(u32, u32)>
    ghost var pended: seq<Bytes>

    ghost predicate Valid()
      reads this, socket
    {
      && ValidRing(frames, fragments) && actions.Length == |frames|
      && socket.Valid()
      && Sub(frameProducer, frameConsumer) <= |frames|
      && |pended| == |batch| <= BATCH
      && (forall k :: 0 <= k < |batch| ==>
            batch[k].0 < |frames| && pended[k] == Flat(FrameOf(frames[batch[k].0], fragments, batch[k].1)))
    }

    constructor (
      id: nat, frames: seq<RxFrame>, fragments: Option<seq<Bytes>>, actions: array<RxAction>, socket: RxSocket,
      frameConsumer: u32, frameProducer: u32, fragmentConsumer: u32)
      requires ValidRing(frames, fragments) && actions.Length == |frames| && socket.Valid()
      requires Sub(frameProducer, frameConsumer) <= |frames|
      ensures Valid() && pended == []
      ensures this.id == id && this.frames == frames && this.fragments == fragments
      ensures this.socket == socket && this.actions == actions
    {
      this.id := id;
      this.frames, this.fragments, this.actions, this.socket := frames, fragments, actions, socket;
      this.frameConsumer, this.frameProducer, this.fragmentConsumer := frameConsumer, frameProducer, fragmentConsumer;
      batch, pended := [], [];
    }

    /** The socket takes what this queue redirects to it. */
    predicate Delivers()
      reads this, socket
    {
      socket.attached && socket.queue == id
    }

    /** The frames on the ring, as flat bytes. */
    ghost function Waiting(): seq<Bytes>
      requires Valid()
      reads this, socket
    {
      Flats(frames, fragments, frameConsumer, fragmentConsumer, Sub(frameProducer, frameConsumer))
    }

    /** Part way through an exclusive batch of `n` frames, with `k` of them behind. */
    ghost predicate TakingAt(start: u32, k: nat, n: nat, reserved: nat, flats: seq<Bytes>, before: Rx)
      reads this, socket, socket.umem, actions
    {
      && Valid() && k <= n < WORD && |flats| == n && Sub(frameProducer, frameConsumer) == n - k
      && frameConsumer == Add(start, k) && flats[k..] == Waiting()
      && socket.fills == before.fills && Taking(socket.region, before, socket.State(), flats, before.fills, k, reserved)
      && Dropped(actions[..], start, k)
    }

    method TakeNext(k: u32, reserved: nat, ghost start: u32, ghost n: nat, ghost flats: seq<Bytes>, ghost before: Rx)
      requires TakingAt(start, k, n, reserved, flats, before) && k < n
      modifies this`frameConsumer, this`fragmentConsumer, actions, socket`ring, socket`invalid, socket`truncated,
               socket.umem
      ensures TakingAt(start, k + 1, n, reserved, flats, before)
    {
      ghost var now, was := socket.State(), actions[..];
      TakeOne(k < reserved, if k < reserved then socket.fills[k] else 0, flats[k..]);
      TakingStep(socket.region, before, now, flats, before.fills, k, reserved);
      DroppedMore(was, start, k);
    }

    /** Fills the socket from the ring's frames, the first `reserved` of them, and empties the ring. */
    method TakeAll(batchCount: u32, reserved: nat, ghost flats: seq<Bytes>, ghost before: Rx)
      requires Valid() && batchCount == Sub(frameProducer, frameConsumer) && flats == Waiting()
      requires before == socket.State() && reserved <= batchCount && reserved <= |socket.fills|
      modifies this`frameConsumer, this`fragmentConsumer, actions, socket`ring, socket`invalid, socket`truncated,
               socket.umem
      ensures Valid() && frameConsumer == frameProducer
      ensures socket.State() == Pairwise(socket.region, before, flats[..reserved], before.fills[..reserved])
      ensures Dropped(actions[..], old(frameConsumer), batchCount)
    {
      ghost var start := frameConsumer;
      var k: u32 := 0;
      TakingStart(socket.region, before, flats, before.fills, reserved);
      while k < batchCount
        invariant k <= batchCount && TakingAt(start, k, batchCount, reserved, flats, before)
      {
        TakeNext(k, reserved, start, batchCount, flats, before);
        k := k + 1;
      }
    }

    /** One step of the exclusive batch. */
    method TakeOne(deliver: bool, address: nat, ghost flats: seq<Bytes>)
      requires Valid() && frameProducer != frameConsumer && flats == Waiting()
      modifies this`frameConsumer, this`fragmentConsumer, actions, socket`ring, socket`invalid, socket`truncated,
               socket.umem
      ensures Valid() && flats != []
      ensures Waiting() == flats[1..] && frameConsumer == Add(old(frameConsumer), 1)
      ensures socket.State()
           == if deliver then Land(socket.region, old(socket.State()), flats[0], address) else old(socket.State())
      ensures actions[..] == old(actions[..])[MaskOf(|frames|, old(frameConsumer)) := RxDrop]
    {
      var e := ElementAt(frames, frameConsumer);
      var frameIndex := MaskOf(|frames|, frameConsumer);
      actions[frameIndex] := RxDrop;
      if deliver {
        socket.ReceiveSingleFrame(e, fragments, fragmentConsumer, address);
      }
      frameConsumer := Add(frameConsumer, 1);
      fragmentConsumer := NextFragment(e, fragments, fragmentConsumer);
    }

    /** The exclusive path: the socket takes the whole ring, or declines. It is taken only for a socket
        that is bound to this queue or detached for good. */
    method ReceiveBatchedExclusive() returns (taken: bool)
      requires Valid() && (socket.attached ==> socket.queue == id)
      modifies this`frameConsumer, this`fragmentConsumer, actions, socket`ring, socket`invalid, socket`truncated,
               socket`fills, socket`room, socket`dropped, socket.umem
      ensures Valid() && taken == socket.attached
      ensures taken ==> socket.State() == Exclusive(socket.region, old(socket.State()), old(Waiting()))
      ensures taken ==> frameConsumer == frameProducer
      ensures taken ==> Dropped(actions[..], old(frameConsumer), Sub(frameProducer, old(frameConsumer)))
      ensures !taken ==> socket.State() == old(socket.State()) && Waiting() == old(Waiting())
      ensures !taken ==> frameConsumer == old(frameConsumer)
    {
      taken := socket.attached;
      if !taken {
        return;
      }
      var batchCount := Sub(frameProducer, frameConsumer);
      ghost var before, flats := socket.State(), Waiting();
      var produced := |socket.ring|;
      var reserved := Min(Min(batchCount, socket.room), |socket.fills|);
      TakeAll(batchCount, reserved, flats, before);
      PairwiseCounts(socket.region, before, flats[..reserved], before.fills[..reserved]);
      socket.ReceiveSubmitBatch(batchCount, reserved, |socket.ring| - produced, before);
    }

    /** Part way through a redirect batch, with `i` fills used and `rxCount` frames produced. */
    ghost predicate RetryingAt(i: nat, rxCount: nat, n: nat, before: Rx)
      reads this, socket, socket.umem
    {
      && Valid() && rxCount <= i <= n <= |batch| && n <= |before.fills| && ValidRx(socket.region, before)
      && socket.fills == before.fills && |socket.ring| == |before.ring| + rxCount
      && Retrying(socket.region, before, pended, before.fills[..n], 0)
      == Retrying(socket.region, socket.State(), pended, before.fills[i..n], rxCount)
    }

    method ReceiveNextFill(i: nat, rxCount: nat, ghost n: nat, ghost before: Rx)
      requires RetryingAt(i, rxCount, n, before) && i < n
      modifies socket`ring, socket`invalid, socket`truncated, socket.umem
      ensures |before.ring| <= |socket.ring| && RetryingAt(i + 1, |socket.ring| - |before.ring|, n, before)
    {
      RetryingRest(socket.region, socket.State(), pended, before.fills, i, n, rxCount);
      socket.ReceiveSingleFrame(frames[batch[rxCount].0], fragments, batch[rxCount].1, socket.fills[i]);
    }

    /** Fill after fill, each for the first frame of the batch that has not been produced. */
    method ReceiveEach(reserved: nat, ghost before: Rx) returns (rxCount: nat)
      requires Valid() && before == socket.State() && reserved <= |batch| && reserved <= |socket.fills|
      modifies socket`ring, socket`invalid, socket`truncated, socket.umem
      ensures Valid() && socket.State() == Retrying(socket.region, before, pended, before.fills[..reserved], 0)
      ensures |socket.ring| == |before.ring| + rxCount && rxCount <= reserved
    {
      var produced := |socket.ring|;
      var i := 0;
      rxCount := 0;
      assert before.fills[0..reserved] == before.fills[..reserved];
      while i < reserved
        invariant 0 <= i <= reserved && RetryingAt(i, rxCount, reserved, before)
      {
        ReceiveNextFill(i, rxCount, reserved, before);
        rxCount := |socket.ring| - produced;
        i := i + 1;
      }
    }

    /** A redirect batch arrives at its socket. */
    method XskReceive()
      requires Valid()
      modifies socket`ring, socket`invalid, socket`truncated, socket`fills, socket`room, socket`dropped, socket.umem
      ensures Valid()
      ensures socket.State()
           == if Delivers() then Redirected(socket.region, old(socket.State()), pended) else old(socket.State())
    {
      if !Delivers() {
        return;
      }
      ghost var before := socket.State();
      var reserved := Min(Min(|batch|, socket.room), |socket.fills|);
      RetryingCounts(socket.region, before, pended, before.fills[..reserved], 0);
      var rxCount := ReceiveEach(reserved, before);
      socket.ReceiveSubmitBatch(|batch|, reserved, rxCount, before);
    }

    method FlushRedirectBatch()
      requires Valid()
      modifies this`batch, this`pended,
               socket`ring, socket`invalid, socket`truncated, socket`fills, socket`room, socket`dropped, socket.umem
      ensures Valid() && pended == [] && Delivers() == old(Delivers())
      ensures socket.State()
           == if Delivers() then Redirected(socket.region, old(socket.State()), old(pended)) else old(socket.State())
    {
      XskReceive();
      batch, pended := [], [];
    }

    /** Pends a frame for the socket, flushing a full batch first. */
    method Redirect(frameIndex: u32, fragmentIndex: u32, ghost flat: Bytes, ghost rest: seq<Bytes>)
      requires Valid() && frameIndex < |frames| && flat == Flat(FrameOf(frames[frameIndex], fragments, fragmentIndex))
      modifies this`batch, this`pended,
               socket`ring, socket`invalid, socket`truncated, socket`fills, socket`room, socket`dropped, socket.umem
      ensures Valid() && Delivers() == old(Delivers())
      ensures Delivers() ==>
                InBatches(socket.region, socket.State(), pended + rest)
                == InBatches(socket.region, old(socket.State()), old(pended) + ([flat] + rest))
      ensures !Delivers() ==> socket.State() == old(socket.State())
    {
      ghost var state, before := socket.State(), pended;
      if |batch| == BATCH {
        FlushRedirectBatch();
      }
      batch, pended := batch + [(frameIndex, fragmentIndex)], pended + [flat];
      if Delivers() {
        BatchesPend(socket.region, state, before, flat, rest);
      }
    }

    /** Inspects a frame; the program redirects every frame to the socket. */
    method InspectOne(e: RxFrame, frameIndex: u32, fragmentIndex: u32, ghost flat: Bytes, ghost rest: seq<Bytes>)
      returns (action: RxAction)
      requires Valid() && frameIndex < |frames| && e == frames[frameIndex]
      requires flat == Flat(FrameOf(e, fragments, fragmentIndex))
      modifies this`batch, this`pended,
               socket`ring, socket`invalid, socket`truncated, socket`fills, socket`room, socket`dropped, socket.umem
      ensures Valid() && Delivers() == old(Delivers()) && action == RxDrop
      ensures Delivers() ==>
                InBatches(socket.region, socket.State(), pended + rest)
                == InBatches(socket.region, old(socket.State()), old(pended) + ([flat] + rest))
      ensures !Delivers() ==> socket.State() == old(socket.State())
    {
      var outcome := InspectForSocket(FrameOf(e, fragments, fragmentIndex));
      action := outcome.action;
      if outcome.redirect.Some? {
        Redirect(frameIndex, fragmentIndex, flat, rest);
      }
    }

    /** Marks the frame and consumes it with its fragments. */
    method MoveOn(e: RxFrame, action: RxAction, ghost flats: seq<Bytes>)
      requires Valid() && frameProducer != frameConsumer && flats == Waiting() && e == ElementAt(frames, frameConsumer)
      modifies this`frameConsumer, this`fragmentConsumer, actions
      ensures Valid() && flats != [] && Waiting() == flats[1..] && frameConsumer == Add(old(frameConsumer), 1)
      ensures actions[..] == old(actions[..])[MaskOf(|frames|, old(frameConsumer)) := action]
    {
      actions[MaskOf(|frames|, frameConsumer)] := action;
      frameConsumer := Add(frameConsumer, 1);
      fragmentConsumer := NextFragment(e, fragments, fragmentConsumer);
    }

    /** The masked index of the frame's first fragment. */
    method FragmentIndex(e: RxFrame) returns (fragmentIndex: u32)
      requires ValidElement(e, fragments)
      ensures FrameOf(e, fragments, fragmentIndex) == FrameOf(e, fragments, fragmentConsumer)
    {
      fragmentIndex := 0;
      if fragments.Some? {
        FrameOfMasked(e, fragments.value, fragmentConsumer);
        fragmentIndex := BitAnd(fragmentConsumer, |fragments.value| - 1);
      }
    }

    /** Inspects the next frame and moves on. */
    method ReceiveOne(ghost flats: seq<Bytes>)
      requires Valid() && frameProducer != frameConsumer && flats == Waiting()
      modifies this`batch, this`pended, this`frameConsumer, this`fragmentConsumer, actions,
               socket`ring, socket`invalid, socket`truncated, socket`fills, socket`room, socket`dropped, socket.umem
      ensures Valid() && flats != [] && Delivers() == old(Delivers())
      ensures Waiting() == flats[1..] && frameConsumer == Add(old(frameConsumer), 1)
      ensures Delivers() ==>
                InBatches(socket.region, socket.State(), pended + flats[1..])
                == InBatches(socket.region, old(socket.State()), old(pended) + flats)
      ensures !Delivers() ==> socket.State() == old(socket.State())
      ensures actions[..] == old(actions[..])[MaskOf(|frames|, old(frameConsumer)) := RxDrop]
    {
      var e, frameIndex := ElementAt(frames, frameConsumer), MaskOf(|frames|, frameConsumer);
      RingSizeBounds(|frames|);
      var fragmentIndex := FragmentIndex(e);
      assert [flats[0]] + flats[1..] == flats;
      var action := InspectOne(e, frameIndex, fragmentIndex, flats[0], flats[1..]);
      MoveOn(e, action, flats);
    }

    /** Part way through the common path, with `k` frames inspected: what is pended and what is still on
        the ring lead to the outcome of the whole. */
    ghost predicate ReceivingAt(start: u32, k: nat, flats: seq<Bytes>, before: Rx)
      reads this, socket, socket.umem, actions
    {
      && Valid() && ValidRx(socket.region, before) && k <= |flats| < WORD
         && Sub(frameProducer, frameConsumer) == |flats| - k
      && frameConsumer == Add(start, k) && flats[k..] == Waiting()
      && (if Delivers() then
            InBatches(socket.region, socket.State(), pended + flats[k..]) == InBatches(socket.region, before, flats)
          else socket.State() == before)
      && Dropped(actions[..], start, k)
    }

    method ReceiveNext(ghost start: u32, ghost k: nat, ghost flats: seq<Bytes>, ghost before: Rx)
      requires ReceivingAt(start, k, flats, before) && frameProducer != frameConsumer
      modifies this`batch, this`pended, this`frameConsumer, this`fragmentConsumer, actions,
               socket`ring, socket`invalid, socket`truncated, socket`fills, socket`room, socket`dropped, socket.umem
      ensures ReceivingAt(start, k + 1, flats, before) && Delivers() == old(Delivers())
    {
      ghost var was := actions[..];
      ReceiveOne(flats[k..]);
      DroppedMore(was, start, k);
    }

    /** The common path: inspect every frame on the ring, then flush what is pended. */
    method ReceiveBatch()
      requires Valid() && pended == []
      modifies this`batch, this`pended, this`frameConsumer, this`fragmentConsumer, actions,
               socket`ring, socket`invalid, socket`truncated, socket`fills, socket`room, socket`dropped, socket.umem
      ensures Valid() && pended == [] && frameConsumer == frameProducer && Delivers() == old(Delivers())
      ensures socket.State()
           == if Delivers() then InBatches(socket.region, old(socket.State()), old(Waiting())) else old(socket.State())
      ensures Dropped(actions[..], old(frameConsumer), Sub(frameProducer, old(frameConsumer)))
    {
      ghost var start, before, flats, k := frameConsumer, socket.State(), Waiting(), 0;
      assert pended + flats == flats;
      while Sub(frameProducer, frameConsumer) > 0
        invariant ReceivingAt(start, k, flats, before) && Delivers() == old(Delivers())
        decreases Sub(frameProducer, frameConsumer)
      {
        ReceiveNext(start, k, flats, before);
        k := k + 1;
      }
      assert pended + flats[k..] == pended;
      FlushRedirect();
      frameConsumer := frameProducer;
    }

    method FlushRedirect()
      requires Valid()
      modifies this`batch, this`pended,
               socket`ring, socket`invalid, socket`truncated, socket`fills, socket`room, socket`dropped, socket.umem
      ensures Valid() && pended == [] && Delivers() == old(Delivers())
      ensures socket.State()
           == if Delivers() then InBatches(socket.region, old(socket.State()), old(pended)) else old(socket.State())
    {
      if |batch| > 0 {
        FlushRedirectBatch();
      } else {
        assert socket.fills[0..] == socket.fills;
      }
    }

    /** An exclusive queue's receive: the socket takes the batch or, detached, leaves it to the
        common path. With matched fills the outcome is that of the common path in either case. */
    method ReceiveXskExclusiveBatch()
      requires Valid() && pended == [] && (socket.attached ==> socket.queue == id)
      modifies this`batch, this`pended, this`frameConsumer, this`fragmentConsumer, actions,
               socket`ring, socket`invalid, socket`truncated, socket`fills, socket`room, socket`dropped, socket.umem
      ensures Valid() && pended == [] && frameConsumer == frameProducer
      ensures Dropped(actions[..], old(frameConsumer), Sub(frameProducer, old(frameConsumer)))
      ensures socket.State()
           == if old(socket.attached) then Exclusive(socket.region, old(socket.State()), old(Waiting()))
             else old(socket.State())
      ensures Matched(socket.region, old(socket.fills), old(socket.room), |old(Waiting())|) && old(Delivers()) ==>
                socket.State() == InBatches(socket.region, old(socket.State()), old(Waiting()))
    {
      ghost var before, flats := socket.State(), Waiting();
      var taken := ReceiveBatchedExclusive();
      if !taken {
        ReceiveBatch();
      } else if Matched(socket.region, before.fills, before.room, |flats|) {
        MatchedAgrees(socket.region, before, flats);
      }
    }
  }

  /** The program an exclusive socket runs on: every frame to the socket. */
  method InspectForSocket(f: Frame) returns (o: Outcome)
    requires ValidFrame(f)
    ensures o == Outcome(RxDrop, Some(0), InspectRedirected)
  {
    var program := [Rule(All, Action.Redirect(Xsk(0)))];
    var g;
    o, g := I.Inspect(f, program, Headers.MAX_CID);
    DecideFirst(program, FrameCache.SplitFacts(f, Headers.MAX_CID), 0);
  }
}
