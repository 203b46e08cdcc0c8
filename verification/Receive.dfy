/**
 Receiving into UMEM chunks. A frame's buffers are copied one after the other into the chunk of the
 next fill descriptor, truncated where the chunk ends, and announced on the RX ring. An exclusive
 socket takes whole batches straight off the frame ring; otherwise frames go through inspection and
 are handed over in redirect batches of 32. Either way frames, RX slots and fill descriptors are
 conserved.
 */
module Receive {
  import opened Words
  import opened Frames
  import opened Umem

  datatype RxDescriptor = RxDescriptor(base: nat, offset: nat, length: nat)

  /** A socket's RX side: memory, fill descriptors not yet consumed, RX descriptors produced, free
      RX slots, and statistics. */
  datatype Rx = Rx(
    umem: Bytes, fills: seq<nat>, ring: seq<RxDescriptor>, room: nat,
    invalid: nat, truncated: nat, dropped: nat)

  ghost predicate ValidRx(r: Region, rx: Rx) {
    ValidRegion(r) && |rx.umem| == r.totalSize
  }

  /** What a chunk can hold of a frame. */
  function Capacity(r: Region): nat
    requires r.headroom <= r.chunkSize
  {
    r.chunkSize - r.headroom
  }

  predicate ValidFill(r: Region, address: nat)
    requires r.chunkSize <= r.totalSize
  {
    address <= r.totalSize - r.chunkSize
  }

  function Store(memory: Bytes, at: nat, data: Bytes): (after: Bytes)
    requires at + |data| <= |memory|
    ensures |after| == |memory|
    ensures forall i :: 0 <= i < |memory| ==> after[i] == if at <= i < at + |data| then data[i - at] else memory[i]
  {
    memory[..at] + data + memory[at + |data|..]
  }

  /** One frame into one chunk: the longest prefix that fits, right behind the headroom. */
  function Land(r: Region, rx: Rx, flat: Bytes, address: nat): (after: Rx)
    requires ValidRx(r, rx)
    ensures ValidRx(r, after)
  {
    if !ValidFill(r, address) then rx.(invalid := rx.invalid + 1)
    else
      var n := Min(|flat|, Capacity(r));
      rx.(umem := Store(rx.umem, address + r.headroom, flat[..n]),
          ring := rx.ring + [RxDescriptor(address, r.headroom, n)],
          truncated := rx.truncated + if |flat| > Capacity(r) then 1 else 0)
  }

  /** Where a frame lands: inside its chunk past the headroom and nowhere else, as long a prefix as
      the chunk holds, its length announced, and a truncation counted exactly if something is lost. */
  lemma {:induction false} LandsInChunk(r: Region, rx: Rx, flat: Bytes, address: nat)
    requires ValidRx(r, rx)
    ensures var after := Land(r, rx, flat, address);
            && (!ValidFill(r, address) ==> after == rx.(invalid := rx.invalid + 1))
            && (ValidFill(r, address) ==>
                  && address + r.chunkSize <= |rx.umem|
                  && |after.ring| == |rx.ring| + 1
                  && var d := after.ring[|rx.ring|];
                  && after.ring[..|rx.ring|] == rx.ring
                  && d.base == address && d.offset == r.headroom && d.offset + d.length <= r.chunkSize
                  && after.umem[d.base + d.offset..d.base + d.offset + d.length] == flat[..d.length]
                  && (d.length < |flat| <==> after.truncated == rx.truncated + 1)
                  && (d.length < |flat| ==> d.offset + d.length == r.chunkSize)
                  && (d.length == |flat| ==> after.truncated == rx.truncated)
                  && (forall i :: 0 <= i < |rx.umem| && !(address + r.headroom <= i < address + r.chunkSize) ==>
                        after.umem[i] == rx.umem[i]))
  {
    if ValidFill(r, address) {
      var n, at := Min(|flat|, Capacity(r)), address + r.headroom;
      assert Store(rx.umem, at, flat[..n])[at..at + n] == flat[..n];
    }
  }

  // ---- The two ways in ----

  /** Frame k into fill k; an invalid fill costs its frame. */
  function Pairwise(r: Region, rx: Rx, flats: seq<Bytes>, fills: seq<nat>): (after: Rx)
    requires ValidRx(r, rx) && |flats| == |fills|
    ensures ValidRx(r, after)
    decreases |flats|
  {
    if flats == [] then rx else Pairwise(r, Land(r, rx, flats[0], fills[0]), flats[1..], fills[1..])
  }

  /** The next frame is the first not yet produced; an invalid fill leaves it for the next fill. */
  function Retrying(r: Region, rx: Rx, flats: seq<Bytes>, fills: seq<nat>, produced: nat): (after: Rx)
    requires ValidRx(r, rx) && produced + |fills| <= |flats|
    ensures ValidRx(r, after)
    decreases |fills|
  {
    if fills == [] then rx
    else
      var next := Land(r, rx, flats[produced], fills[0]);
      Retrying(r, next, flats, fills[1..], if ValidFill(r, fills[0]) then produced + 1 else produced)
  }

  /** How many of `count` frames get an RX slot and a fill descriptor. */
  function Quota(count: nat, room: nat, queued: nat): (n: nat)
    ensures n <= count && n <= room && n <= queued
  {
    Min(Min(count, room), queued)
  }

  function Reserved(rx: Rx, count: nat): (n: nat)
    ensures n <= count && n <= |rx.fills| && n <= rx.room
  {
    Quota(count, rx.room, |rx.fills|)
  }

  /** Consumed fills are released, produced descriptors take RX slots, the other frames are dropped. */
  function SubmitBatch(before: Rx, after: Rx, batch: nat, consumed: nat): Rx
    requires consumed <= |after.fills| && |before.ring| <= |after.ring|
    requires |after.ring| - |before.ring| <= Min(before.room, batch)
  {
    var produced := |after.ring| - |before.ring|;
    after.(fills := after.fills[consumed..], room := before.room - produced,
      dropped := after.dropped + (batch - produced))
  }

  /** The valid ones of some fill descriptors. */
  function ValidOnes(r: Region, fills: seq<nat>): (valid: seq<nat>)
    requires r.chunkSize <= r.totalSize
    ensures |valid| <= |fills|
  {
    if fills == [] then []
    else (if ValidFill(r, fills[0]) then [fills[0]] else []) + ValidOnes(r, fills[1..])
  }

  function Bases(ring: seq<RxDescriptor>): (bases: seq<nat>)
    ensures |bases| == |ring|
  {
    seq(|ring|, i requires 0 <= i < |ring| => ring[i].base)
  }

  /** Each fill descriptor went into one RX descriptor, in order, or into the count of invalid ones. */
  ghost predicate Placed(r: Region, before: Rx, after: Rx, fills: seq<nat>)
    requires r.chunkSize <= r.totalSize
  {
    && before.ring <= after.ring && Bases(after.ring) == Bases(before.ring) + ValidOnes(r, fills)
    && after.invalid == before.invalid + |fills| - |ValidOnes(r, fills)|
  }

  lemma {:induction false} PlacedFirst(r: Region, before: Rx, flat: Bytes, after: Rx, fills: seq<nat>)
    requires ValidRx(r, before) && fills != []
    requires Placed(r, Land(r, before, flat, fills[0]), after, fills[1..])
    ensures Placed(r, before, after, fills)
  {
    var next := Land(r, before, flat, fills[0]);
    assert Bases(next.ring) == Bases(before.ring) + if ValidFill(r, fills[0]) then [fills[0]] else [];
    assert Bases(after.ring) == Bases(before.ring) + ValidOnes(r, fills);
  }

  lemma {:induction false} PairwiseCounts(r: Region, rx: Rx, flats: seq<Bytes>, fills: seq<nat>)
    requires ValidRx(r, rx) && |flats| == |fills|
    ensures var after := Pairwise(r, rx, flats, fills);
            && after.fills == rx.fills && after.room == rx.room && after.dropped == rx.dropped
            && Placed(r, rx, after, fills) && |after.ring| == |rx.ring| + |ValidOnes(r, fills)|
    decreases |flats|
  {
    if flats == [] {
      assert Bases(rx.ring) == Bases(rx.ring) + [];
    } else {
      PairwiseCounts(r, Land(r, rx, flats[0], fills[0]), flats[1..], fills[1..]);
      PlacedFirst(r, rx, flats[0], Pairwise(r, rx, flats, fills), fills);
      assert |Bases(Pairwise(r, rx, flats, fills).ring)| == |rx.ring| + |ValidOnes(r, fills)|;
    }
  }

  lemma {:induction false} RetryingCounts(r: Region, rx: Rx, flats: seq<Bytes>, fills: seq<nat>, produced: nat)
    requires ValidRx(r, rx) && produced + |fills| <= |flats|
    ensures var after := Retrying(r, rx, flats, fills, produced);
            && after.fills == rx.fills && after.room == rx.room && after.dropped == rx.dropped
            && Placed(r, rx, after, fills) && |after.ring| == |rx.ring| + |ValidOnes(r, fills)|
    decreases |fills|
  {
    if fills == [] {
      assert Bases(rx.ring) == Bases(rx.ring) + [];
    } else {
      RetryingCounts(r, Land(r, rx, flats[produced], fills[0]), flats, fills[1..],
                     if ValidFill(r, fills[0]) then produced + 1 else produced);
      PlacedFirst(r, rx, flats[produced], Retrying(r, rx, flats, fills, produced), fills);
      assert |Bases(Retrying(r, rx, flats, fills, produced).ring)| == |rx.ring| + |ValidOnes(r, fills)|;
    }
  }

  /** A whole batch taken exclusively. */
  function Exclusive(r: Region, rx: Rx, flats: seq<Bytes>): (after: Rx)
    requires ValidRx(r, rx)
    ensures ValidRx(r, after)
  {
    var n := Reserved(rx, |flats|);
    PairwiseCounts(r, rx, flats[..n], rx.fills[..n]);
    SubmitBatch(rx, Pairwise(r, rx, flats[..n], rx.fills[..n]), |flats|, n)
  }

  /** One redirect batch. */
  function Redirected(r: Region, rx: Rx, flats: seq<Bytes>): (after: Rx)
    requires ValidRx(r, rx)
    ensures ValidRx(r, after)
  {
    var n := Reserved(rx, |flats|);
    RetryingCounts(r, rx, flats, rx.fills[..n], 0);
    SubmitBatch(rx, Retrying(r, rx, flats, rx.fills[..n], 0), |flats|, n)
  }

  const BATCH: nat := 32

  /** All frames, in redirect batches. */
  function InBatches(r: Region, rx: Rx, flats: seq<Bytes>): (after: Rx)
    requires ValidRx(r, rx)
    ensures ValidRx(r, after)
    decreases |flats|
  {
    if |flats| <= BATCH then Redirected(r, rx, flats)
    else InBatches(r, Redirected(r, rx, flats[..BATCH]), flats[BATCH..])
  }

  // ---- Frames, slots and fills are conserved ----

  /** `frames` frames are delivered or counted as dropped; each delivery has taken one RX slot; the fill
      descriptors taken are the first ones, and each of those is in one new RX descriptor, in order, or
      counted as invalid. */
  ghost predicate Conserves(r: Region, before: Rx, after: Rx, frames: nat)
    requires r.chunkSize <= r.totalSize
  {
    && |after.ring| - |before.ring| + after.dropped == before.dropped + frames
    && after.room + |after.ring| == before.room + |before.ring|
    && |after.fills| <= |before.fills|
    && var taken := |before.fills| - |after.fills|;
    && after.fills == before.fills[taken..] && taken <= frames
    && Placed(r, before, after, before.fills[..taken])
  }

  /** Submitting a batch whose fills were placed keeps the balance. */
  lemma {:induction false} SubmitConserves(r: Region, before: Rx, after: Rx, batch: nat, consumed: nat)
    requires r.chunkSize <= r.totalSize && consumed <= Min(before.room, batch) && consumed <= |before.fills|
    requires after.fills == before.fills && after.dropped == before.dropped
    requires Placed(r, before, after, before.fills[..consumed])
    ensures |after.ring| - |before.ring| <= consumed
    ensures Conserves(r, before, SubmitBatch(before, after, batch, consumed), batch)
  {
    assert |Bases(after.ring)| == |Bases(before.ring)| + |ValidOnes(r, before.fills[..consumed])|;
    assert before.fills[consumed..] == SubmitBatch(before, after, batch, consumed).fills;
  }

  lemma {:induction false} ExclusiveConserves(r: Region, rx: Rx, flats: seq<Bytes>)
    requires ValidRx(r, rx)
    ensures Conserves(r, rx, Exclusive(r, rx, flats), |flats|)
  {
    var n := Reserved(rx, |flats|);
    PairwiseCounts(r, rx, flats[..n], rx.fills[..n]);
    SubmitConserves(r, rx, Pairwise(r, rx, flats[..n], rx.fills[..n]), |flats|, n);
  }

  lemma {:induction false} RedirectedConserves(r: Region, rx: Rx, flats: seq<Bytes>)
    requires ValidRx(r, rx)
    ensures Conserves(r, rx, Redirected(r, rx, flats), |flats|)
  {
    var n := Reserved(rx, |flats|);
    RetryingCounts(r, rx, flats, rx.fills[..n], 0);
    SubmitConserves(r, rx, Retrying(r, rx, flats, rx.fills[..n], 0), |flats|, n);
  }

  lemma {:induction false} ValidOnesJoin(r: Region, a: seq<nat>, b: seq<nat>)
    requires r.chunkSize <= r.totalSize
    ensures ValidOnes(r, a + b) == ValidOnes(r, a) + ValidOnes(r, b)
  {
    if a == [] {
      assert a + b == b;
    } else {
      assert (a + b)[1..] == a[1..] + b;
      ValidOnesJoin(r, a[1..], b);
    }
  }

  lemma {:induction false} ConservesBoth(r: Region, a: Rx, b: Rx, c: Rx, first: nat, second: nat)
    requires r.chunkSize <= r.totalSize && Conserves(r, a, b, first) && Conserves(r, b, c, second)
    ensures Conserves(r, a, c, first + second)
  {
    var m, n := |a.fills| - |b.fills|, |b.fills| - |c.fills|;
    assert a.fills[m..][n..] == a.fills[m + n..];
    assert a.fills[..m + n] == a.fills[..m] + b.fills[..n];
    ValidOnesJoin(r, a.fills[..m], b.fills[..n]);
  }

  lemma {:induction false} InBatchesConserves(r: Region, rx: Rx, flats: seq<Bytes>)
    requires ValidRx(r, rx)
    ensures Conserves(r, rx, InBatches(r, rx, flats), |flats|)
    decreases |flats|
  {
    if |flats| <= BATCH {
      RedirectedConserves(r, rx, flats);
    } else {
      var next := Redirected(r, rx, flats[..BATCH]);
      RedirectedConserves(r, rx, flats[..BATCH]);
      InBatchesConserves(r, next, flats[BATCH..]);
      ConservesBoth(r, rx, next, InBatches(r, rx, flats), BATCH, |flats| - BATCH);
    }
  }

  // ---- Frame by frame ----

  ghost predicate AllValid(r: Region, fills: seq<nat>)
    requires r.chunkSize <= r.totalSize
  {
    forall k :: 0 <= k < |fills| ==> ValidFill(r, fills[k])
  }

  /** Frame by frame: deliver while there are slots and descriptors, then drop. */
  function OneByOne(r: Region, rx: Rx, flats: seq<Bytes>): (after: Rx)
    requires ValidRx(r, rx)
    ensures ValidRx(r, after)
    decreases |flats|
  {
    if flats == [] then rx
    else if rx.room == 0 || rx.fills == [] then OneByOne(r, rx.(dropped := rx.dropped + 1), flats[1..])
    else
      var next := Land(r, rx, flats[0], rx.fills[0]);
      OneByOne(r, next.(fills := rx.fills[1..], room := rx.room - 1), flats[1..])
  }

  lemma {:induction false} OneByOneJoin(r: Region, rx: Rx, a: seq<Bytes>, b: seq<Bytes>)
    requires ValidRx(r, rx)
    ensures OneByOne(r, rx, a + b) == OneByOne(r, OneByOne(r, rx, a), b)
    decreases |a|
  {
    if a == [] {
      assert a + b == b;
    } else {
      assert (a + b)[1..] == a[1..] + b;
      if rx.room == 0 || rx.fills == [] {
        OneByOneJoin(r, rx.(dropped := rx.dropped + 1), a[1..], b);
      } else {
        OneByOneJoin(r, Land(r, rx, a[0], rx.fills[0]).(fills := rx.fills[1..], room := rx.room - 1), a[1..], b);
      }
    }
  }

  /** Landing frames does not look at the queue of fills, the RX room or the drops. */
  lemma {:induction false} PairwiseFrame(
    r: Region, rx: Rx, flats: seq<Bytes>, fills: seq<nat>, queue: seq<nat>, room: nat, dropped: nat)
    requires ValidRx(r, rx) && |flats| == |fills|
    ensures Pairwise(r, rx.(fills := queue, room := room, dropped := dropped), flats, fills)
         == Pairwise(r, rx, flats, fills).(fills := queue, room := room, dropped := dropped)
    decreases |flats|
  {
    if flats != [] {
      PairwiseFrame(r, Land(r, rx, flats[0], fills[0]), flats[1..], fills[1..], queue, room, dropped);
    }
  }

  /** The socket after its first frame has gone in. */
  function AfterFirst(r: Region, rx: Rx, flat: Bytes): (after: Rx)
    requires ValidRx(r, rx) && rx.fills != [] && rx.room > 0
    ensures ValidRx(r, after)
  {
    Land(r, rx, flat, rx.fills[0]).(fills := rx.fills[1..], room := rx.room - 1)
  }

  lemma {:induction false} ExclusiveStep(r: Region, rx: Rx, flats: seq<Bytes>)
    requires ValidRx(r, rx) && flats != [] && rx.room > 0 && rx.fills != [] && ValidFill(r, rx.fills[0])
    ensures Exclusive(r, rx, flats) == Exclusive(r, AfterFirst(r, rx, flats[0]), flats[1..])
  {
    var n := Reserved(rx, |flats|);
    var first, next := Land(r, rx, flats[0], rx.fills[0]), AfterFirst(r, rx, flats[0]);
    assert flats[..n][1..] == flats[1..][..n - 1];
    assert rx.fills[..n][1..] == rx.fills[1..][..n - 1];
    PairwiseFrame(r, first, flats[1..][..n - 1], rx.fills[1..][..n - 1], rx.fills[1..], rx.room - 1, rx.dropped);
    PairwiseCounts(r, first, flats[1..][..n - 1], rx.fills[1..][..n - 1]);
    PairwiseCounts(r, next, flats[1..][..n - 1], rx.fills[1..][..n - 1]);
    assert rx.fills[n..] == rx.fills[1..][n - 1..];
  }

  lemma {:induction false} AllDropped(r: Region, rx: Rx, flats: seq<Bytes>)
    requires ValidRx(r, rx) && (rx.room == 0 || rx.fills == [])
    ensures OneByOne(r, rx, flats) == rx.(dropped := rx.dropped + |flats|)
    decreases |flats|
  {
    if flats != [] {
      AllDropped(r, rx.(dropped := rx.dropped + 1), flats[1..]);
    }
  }

  lemma {:induction false} ExclusiveIsOneByOne(r: Region, rx: Rx, flats: seq<Bytes>)
    requires ValidRx(r, rx) && AllValid(r, rx.fills)
    ensures Exclusive(r, rx, flats) == OneByOne(r, rx, flats)
    decreases |flats|
  {
    assert rx.fills[0..] == rx.fills;
    if rx.room == 0 || rx.fills == [] {
      AllDropped(r, rx, flats);
    } else if flats != [] {
      ExclusiveStep(r, rx, flats);
      ExclusiveIsOneByOne(r, AfterFirst(r, rx, flats[0]), flats[1..]);
    }
  }
}
