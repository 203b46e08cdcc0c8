/**
 One exclusive batch against redirect batches of 32. The exclusive path pairs frame k with fill k, so an
 invalid fill costs the frame beside it; the redirect path offers that frame the next fill, and gives the
 RX slot that was saved to the next batch. Nobody can tell the two paths apart, whatever the frames,
 exactly if in each batch the invalid fills come last and no saved slot is put to use.
 */
module Batches {
  import opened Words
  import opened Frames
  import opened Umem
  import opened Receive

  /** No invalid fill precedes a valid one. */
  ghost predicate ValidFirst(r: Region, fills: seq<nat>)
    requires r.chunkSize <= r.totalSize
  {
    forall i, j :: 0 <= i < j < |fills| && ValidFill(r, fills[j]) ==> ValidFill(r, fills[i])
  }

  /** The fills of the next redirect batch of `count` frames. */
  function Head(fills: seq<nat>, room: nat, count: nat): seq<nat> {
    fills[..Quota(Min(count, BATCH), room, |fills|)]
  }

  function Rest(fills: seq<nat>, room: nat, count: nat): seq<nat> {
    fills[|Head(fills, room, count)|..]
  }

  /** The RX room the next redirect batch leaves. */
  function Left(r: Region, fills: seq<nat>, room: nat, count: nat): nat
    requires r.chunkSize <= r.totalSize
  {
    room - |ValidOnes(r, Head(fills, room, count))|
  }

  /** The guard, from the queued fills, the RX room and the number of frames: in every batch the invalid
      fills come last, and after a full batch the room that is left takes no more fills than it would
      have done had every fill been valid. */
  ghost predicate Matched(r: Region, fills: seq<nat>, room: nat, count: nat)
    requires r.chunkSize <= r.totalSize
    decreases count
  {
    && ValidFirst(r, Head(fills, room, count))
    && (count > BATCH ==>
          var left, rest := Left(r, fills, room, count), Rest(fills, room, count);
          && |fills| - |rest| + Quota(count - BATCH, left, |rest|) == Quota(count, room, |fills|)
          && Matched(r, rest, left, count - BATCH))
  }

  // ---- Matched fills: the paths agree ----

  lemma {:induction false} NoneValid(r: Region, rx: Rx, flats: seq<Bytes>, fills: seq<nat>)
    requires ValidRx(r, rx) && |flats| == |fills| && forall k :: 0 <= k < |fills| ==> !ValidFill(r, fills[k])
    ensures Pairwise(r, rx, flats, fills) == rx.(invalid := rx.invalid + |fills|)
    decreases |fills|
  {
    if fills != [] {
      NoneValid(r, rx.(invalid := rx.invalid + 1), flats[1..], fills[1..]);
    }
  }

  lemma {:induction false} NoneValidRetrying(r: Region, rx: Rx, flats: seq<Bytes>, fills: seq<nat>, produced: nat)
    requires ValidRx(r, rx) && produced + |fills| <= |flats|
    requires forall k :: 0 <= k < |fills| ==> !ValidFill(r, fills[k])
    ensures Retrying(r, rx, flats, fills, produced) == rx.(invalid := rx.invalid + |fills|)
    decreases |fills|
  {
    if fills != [] {
      NoneValidRetrying(r, rx.(invalid := rx.invalid + 1), flats, fills[1..], produced);
    }
  }

  lemma {:induction false} RetryingIsPairwise(r: Region, rx: Rx, flats: seq<Bytes>, fills: seq<nat>, produced: nat)
    requires ValidRx(r, rx) && produced + |fills| <= |flats| && ValidFirst(r, fills)
    ensures Retrying(r, rx, flats, fills, produced) == Pairwise(r, rx, flats[produced..produced + |fills|], fills)
    decreases |fills|
  {
    if fills != [] {
      if ValidFill(r, fills[0]) {
        RetryingIsPairwise(r, Land(r, rx, flats[produced], fills[0]), flats, fills[1..], produced + 1);
        assert flats[produced..produced + |fills|][1..] == flats[produced + 1..produced + 1 + |fills[1..]|];
      } else {
        NoneValid(r, rx, flats[produced..produced + |fills|], fills);
        NoneValidRetrying(r, rx, flats, fills, produced);
      }
    }
  }

  lemma {:induction false} RedirectedIsExclusive(r: Region, rx: Rx, flats: seq<Bytes>)
    requires ValidRx(r, rx) && ValidFirst(r, rx.fills[..Reserved(rx, |flats|)])
    ensures Redirected(r, rx, flats) == Exclusive(r, rx, flats)
  {
    var n := Reserved(rx, |flats|);
    RetryingIsPairwise(r, rx, flats, rx.fills[..n], 0);
    assert flats[0..0 + |rx.fills[..n]|] == flats[..n];
  }

  lemma {:induction false} PairwiseJoin(
    r: Region, rx: Rx, a: seq<Bytes>, b: seq<Bytes>, f: seq<nat>, g: seq<nat>)
    requires ValidRx(r, rx) && |a| == |f| && |b| == |g|
    ensures Pairwise(r, rx, a + b, f + g) == Pairwise(r, Pairwise(r, rx, a, f), b, g)
    decreases |a|
  {
    if a == [] {
      assert a + b == b && f + g == g;
    } else {
      assert (a + b)[1..] == a[1..] + b && (f + g)[1..] == f[1..] + g;
      PairwiseJoin(r, Land(r, rx, a[0], f[0]), a[1..], b, f[1..], g);
    }
  }

  /** The first `n` fills are used up, and every valid one has taken a slot and saved a drop. */
  function Taken(r: Region, rx: Rx, landed: Rx, n: nat, count: nat): Rx
    requires r.chunkSize <= r.totalSize && n <= |rx.fills| && n <= rx.room && n <= count
  {
    var v := |ValidOnes(r, rx.fills[..n])|;
    landed.(fills := rx.fills[n..], room := rx.room - v, dropped := rx.dropped + count - v)
  }

  lemma {:induction false} ExclusiveIs(r: Region, rx: Rx, flats: seq<Bytes>, n: nat)
    requires ValidRx(r, rx) && n == Reserved(rx, |flats|)
    ensures Exclusive(r, rx, flats)
         == Taken(r, rx, Pairwise(r, rx, flats[..n], rx.fills[..n]), n, |flats|)
  {
    PairwiseCounts(r, rx, flats[..n], rx.fills[..n]);
  }

  lemma {:induction false} TakenTwice(r: Region, rx: Rx, mid: Rx, landed: Rx, m: nat, k: nat, a: nat, b: nat)
    requires r.chunkSize <= r.totalSize && m + k <= |rx.fills| && m + k <= rx.room && m <= a && k <= b
    requires k <= mid.room && mid == Taken(r, rx, mid, m, a)
    ensures Taken(r, mid, landed, k, b) == Taken(r, rx, landed, m + k, a + b)
  {
    assert rx.fills[..m + k] == rx.fills[..m] + rx.fills[m..][..k] && rx.fills[m..][k..] == rx.fills[m + k..];
    ValidOnesJoin(r, rx.fills[..m], rx.fills[m..][..k]);
  }

  lemma {:induction false} TakenJoin(r: Region, rx: Rx, mid: Rx, a: seq<Bytes>, b: seq<Bytes>, m: nat, k: nat)
    requires ValidRx(r, rx) && ValidRx(r, mid) && m + k <= |rx.fills| && m + k <= rx.room
    requires m <= |a| && k <= |b| && k <= mid.room && (m < |a| ==> k == 0)
    requires mid == Taken(r, rx, Pairwise(r, rx, a[..m], rx.fills[..m]), m, |a|)
    ensures Taken(r, mid, Pairwise(r, mid, b[..k], mid.fills[..k]), k, |b|)
         == Taken(r, rx, Pairwise(r, rx, (a + b)[..m + k], rx.fills[..m + k]), m + k, |a + b|)
  {
    var f, g, first := rx.fills[..m], rx.fills[m..][..k], Pairwise(r, rx, a[..m], rx.fills[..m]);
    PairwiseFrame(r, first, b[..k], g, mid.fills, mid.room, mid.dropped);
    ExclusiveParts(rx.fills, a, b, m, k);
    PairwiseJoin(r, rx, a[..m], b[..k], f, g);
    TakenTwice(r, rx, mid, Pairwise(r, first, b[..k], g), m, k, |a|, |b|);
  }

  /** Two exclusive batches are one if the second takes up the fills where the first left off. */
  lemma {:induction false} ExclusiveJoin(r: Region, rx: Rx, a: seq<Bytes>, b: seq<Bytes>)
    requires ValidRx(r, rx)
    requires Reserved(rx, |a|) + Reserved(Exclusive(r, rx, a), |b|) == Reserved(rx, |a| + |b|)
    ensures Exclusive(r, Exclusive(r, rx, a), b) == Exclusive(r, rx, a + b)
  {
    var mid, m, k := Exclusive(r, rx, a), Reserved(rx, |a|), Reserved(Exclusive(r, rx, a), |b|);
    ExclusiveIs(r, rx, a, m);
    ExclusiveIs(r, mid, b, k);
    ExclusiveIs(r, rx, a + b, m + k);
    TakenJoin(r, rx, mid, a, b, m, k);
  }

  lemma {:induction false} ExclusiveParts(fills: seq<nat>, a: seq<Bytes>, b: seq<Bytes>, m: nat, k: nat)
    requires m <= |a| && k <= |b| && m + k <= |fills| && (m < |a| ==> k == 0)
    ensures (a + b)[..m + k] == a[..m] + b[..k]
    ensures fills[..m + k] == fills[..m] + fills[m..][..k] && fills[m..][k..] == fills[m + k..]
  {
  }

  /** What one redirect batch leaves. */
  lemma {:induction false} AfterBatch(r: Region, rx: Rx, flats: seq<Bytes>, count: nat)
    requires ValidRx(r, rx) && |flats| == Min(count, BATCH)
    ensures var next := Redirected(r, rx, flats);
            && Head(rx.fills, rx.room, count) == rx.fills[..Reserved(rx, |flats|)]
            && next.fills == Rest(rx.fills, rx.room, count) && next.room == Left(r, rx.fills, rx.room, count)
  {
    RetryingCounts(r, rx, flats, rx.fills[..Reserved(rx, |flats|)], 0);
  }

  lemma {:induction false} MatchedStep(r: Region, rx: Rx, a: seq<Bytes>, b: seq<Bytes>)
    requires ValidRx(r, rx) && |a| == BATCH && b != [] && Matched(r, rx.fills, rx.room, |a| + |b|)
    ensures var next := Redirected(r, rx, a);
            && Matched(r, next.fills, next.room, |b|)
            && Exclusive(r, next, b) == Exclusive(r, rx, a + b)
  {
    AfterBatch(r, rx, a, |a| + |b|);
    RedirectedIsExclusive(r, rx, a);
    ExclusiveJoin(r, rx, a, b);
  }

  lemma {:induction false} MatchedAgrees(r: Region, rx: Rx, flats: seq<Bytes>)
    requires ValidRx(r, rx) && Matched(r, rx.fills, rx.room, |flats|)
    ensures InBatches(r, rx, flats) == Exclusive(r, rx, flats)
    decreases |flats|
  {
    if |flats| <= BATCH {
      AfterBatch(r, rx, flats, |flats|);
      RedirectedIsExclusive(r, rx, flats);
    } else {
      var a, b := flats[..BATCH], flats[BATCH..];
      assert flats == a + b;
      MatchedStep(r, rx, a, b);
      MatchedAgrees(r, Redirected(r, rx, a), b);
    }
  }

  /** With valid fills alone the guard holds, whatever the room. */
  lemma {:induction false} ValidMatched(r: Region, fills: seq<nat>, room: nat, count: nat)
    requires r.chunkSize <= r.totalSize && AllValid(r, fills)
    ensures Matched(r, fills, room, count)
    decreases count
  {
    if count > BATCH {
      AllOnesValid(r, Head(fills, room, count));
      ValidMatched(r, Rest(fills, room, count), Left(r, fills, room, count), count - BATCH);
    }
  }

  lemma {:induction false} AllOnesValid(r: Region, fills: seq<nat>)
    requires r.chunkSize <= r.totalSize && AllValid(r, fills)
    ensures |ValidOnes(r, fills)| == |fills|
  {
    if fills != [] {
      AllOnesValid(r, fills[1..]);
    }
  }

  // ---- Unmatched fills: some frames tell ----

  /** How many fills the redirect batches take. */
  ghost function Consumed(r: Region, fills: seq<nat>, room: nat, count: nat): (n: nat)
    requires r.chunkSize <= r.totalSize
    ensures Quota(count, room, |fills|) <= n <= |fills|
    decreases count
  {
    var taken := |Head(fills, room, count)|;
    if count <= BATCH then taken
    else taken + Consumed(r, Rest(fills, room, count), Left(r, fills, room, count), count - BATCH)
  }

  lemma {:induction false} InBatchesConsumes(r: Region, rx: Rx, flats: seq<Bytes>)
    requires ValidRx(r, rx)
    ensures |InBatches(r, rx, flats).fills| == |rx.fills| - Consumed(r, rx.fills, rx.room, |flats|)
    decreases |flats|
  {
    if |flats| <= BATCH {
      AfterBatch(r, rx, flats, |flats|);
    } else {
      AfterBatch(r, rx, flats[..BATCH], |flats|);
      InBatchesConsumes(r, Redirected(r, rx, flats[..BATCH]), flats[BATCH..]);
    }
  }

  /** The redirect batches do not deliver frame `q`: it is not among the first of its batch. */
  ghost predicate Misses(r: Region, fills: seq<nat>, room: nat, count: nat, q: nat)
    requires r.chunkSize <= r.totalSize
    decreases count
  {
    if count <= BATCH || q < BATCH then |ValidOnes(r, Head(fills, room, count))| <= q
    else Misses(r, Rest(fills, room, count), Left(r, fills, room, count), count - BATCH, q - BATCH)
  }

  lemma {:induction false} FewerOnes(r: Region, fills: seq<nat>, bad: nat, last: nat)
    requires r.chunkSize <= r.totalSize && bad < last < |fills| && !ValidFill(r, fills[bad])
    requires forall k :: last < k < |fills| ==> !ValidFill(r, fills[k])
    ensures |ValidOnes(r, fills)| <= last
    decreases |fills|
  {
    if bad > 0 {
      FewerOnes(r, fills[1..], bad - 1, last - 1);
    } else {
      OnesUpTo(r, fills[1..], last);
    }
  }

  lemma {:induction false} OnesUpTo(r: Region, fills: seq<nat>, n: nat)
    requires r.chunkSize <= r.totalSize && n <= |fills|
    requires forall k :: n <= k < |fills| ==> !ValidFill(r, fills[k])
    ensures |ValidOnes(r, fills)| <= n
    decreases |fills|
  {
    if fills != [] {
      OnesUpTo(r, fills[1..], if n > 0 then n - 1 else 0);
    }
  }

  /** The last valid fill of a block with an invalid one before it. */
  lemma {:induction false} LastValid(r: Region, fills: seq<nat>) returns (last: nat)
    requires r.chunkSize <= r.totalSize && !ValidFirst(r, fills)
    ensures last < |fills| && ValidFill(r, fills[last]) && |ValidOnes(r, fills)| <= last
  {
    var i, j :| 0 <= i < j < |fills| && ValidFill(r, fills[j]) && !ValidFill(r, fills[i]);
    last := |fills| - 1;
    while !ValidFill(r, fills[last])
      invariant j <= last < |fills|
      invariant forall k :: last < k < |fills| ==> !ValidFill(r, fills[k])
      decreases last
    {
      last := last - 1;
    }
    FewerOnes(r, fills, i, last);
  }

  /** No saved slot is put to use. */
  ghost predicate Fits(r: Region, fills: seq<nat>, room: nat, count: nat)
    requires r.chunkSize <= r.totalSize
    decreases count
  {
    count > BATCH ==>
      var left, rest := Left(r, fills, room, count), Rest(fills, room, count);
      && |fills| - |rest| + Quota(count - BATCH, left, |rest|) == Quota(count, room, |fills|)
      && Fits(r, rest, left, count - BATCH)
  }

  lemma {:induction false} ConsumedFits(r: Region, fills: seq<nat>, room: nat, count: nat)
    requires r.chunkSize <= r.totalSize && Consumed(r, fills, room, count) == Quota(count, room, |fills|)
    ensures Fits(r, fills, room, count)
    decreases count
  {
    if count > BATCH {
      ConsumedFits(r, Rest(fills, room, count), Left(r, fills, room, count), count - BATCH);
    }
  }

  lemma {:induction false} MissesLater(r: Region, fills: seq<nat>, room: nat, count: nat, later: nat)
    requires r.chunkSize <= r.totalSize && count > BATCH
    requires var left, rest := Left(r, fills, room, count), Rest(fills, room, count);
             && |fills| - |rest| == BATCH && later < |rest| && ValidFill(r, rest[later])
             && Misses(r, rest, left, count - BATCH, later)
    ensures ValidFill(r, fills[later + BATCH]) && Misses(r, fills, room, count, later + BATCH)
  {
    var q := later + BATCH;
    assert q - BATCH == later && q >= BATCH;
    assert fills[BATCH..][later] == fills[q];
  }

  /** If the fills are unmatched for all that, there is a frame that the exclusive path delivers and the
      batches miss. */
  lemma {:induction false} Missed(r: Region, fills: seq<nat>, room: nat, count: nat) returns (q: nat)
    requires r.chunkSize <= r.totalSize && !Matched(r, fills, room, count)
    requires Fits(r, fills, room, count)
    ensures q < Quota(count, room, |fills|) && ValidFill(r, fills[q]) && Misses(r, fills, room, count, q)
    decreases count
  {
    if !ValidFirst(r, Head(fills, room, count)) {
      q := LastValid(r, Head(fills, room, count));
    } else {
      var later := Missed(r, Rest(fills, room, count), Left(r, fills, room, count), count - BATCH);
      MissesLater(r, fills, room, count, later);
      q := later + BATCH;
    }
  }

  function LengthSum(ring: seq<RxDescriptor>): nat {
    if ring == [] then 0 else LengthSum(ring[..|ring| - 1]) + ring[|ring| - 1].length
  }

  /** Bytes announced and frames truncated. */
  function Load(rx: Rx): nat {
    LengthSum(rx.ring) + rx.truncated
  }

  /** An empty frame adds nothing to the load; a one-byte frame one, if its fill is valid, whether or
      not the chunk has room for it. */
  lemma {:induction false} LandLoad(r: Region, rx: Rx, flat: Bytes, address: nat)
    requires ValidRx(r, rx) && |flat| <= 1
    ensures Load(Land(r, rx, flat, address)) == Load(rx) + if ValidFill(r, address) then |flat| else 0
  {
    var after := Land(r, rx, flat, address);
    if ValidFill(r, address) {
      assert after.ring[..|after.ring| - 1] == rx.ring;
    }
  }

  ghost predicate AllEmpty(flats: seq<Bytes>) {
    forall k :: 0 <= k < |flats| ==> flats[k] == []
  }

  /** Empty frames but for a one-byte frame at `q`. */
  ghost predicate Spike(flats: seq<Bytes>, q: nat) {
    q < |flats| && |flats[q]| == 1 && forall k :: 0 <= k < |flats| && k != q ==> flats[k] == []
  }

  lemma {:induction false} PairwiseEmpty(r: Region, rx: Rx, flats: seq<Bytes>, fills: seq<nat>)
    requires ValidRx(r, rx) && |flats| == |fills| && AllEmpty(flats)
    ensures Load(Pairwise(r, rx, flats, fills)) == Load(rx)
    decreases |flats|
  {
    if flats != [] {
      LandLoad(r, rx, flats[0], fills[0]);
      PairwiseEmpty(r, Land(r, rx, flats[0], fills[0]), flats[1..], fills[1..]);
    }
  }

  lemma {:induction false} PairwiseSpike(r: Region, rx: Rx, flats: seq<Bytes>, fills: seq<nat>, q: nat)
    requires ValidRx(r, rx) && |flats| == |fills| && Spike(flats, q) && ValidFill(r, fills[q])
    ensures Load(Pairwise(r, rx, flats, fills)) == Load(rx) + 1
    decreases |flats|
  {
    LandLoad(r, rx, flats[0], fills[0]);
    var next := Land(r, rx, flats[0], fills[0]);
    if q == 0 {
      PairwiseEmpty(r, next, flats[1..], fills[1..]);
    } else {
      PairwiseSpike(r, next, flats[1..], fills[1..], q - 1);
    }
  }

  lemma {:induction false} RetryingEmpty(r: Region, rx: Rx, flats: seq<Bytes>, fills: seq<nat>, produced: nat)
    requires ValidRx(r, rx) && produced + |fills| <= |flats|
    requires forall k :: produced <= k < produced + |ValidOnes(r, fills)| ==> flats[k] == []
    ensures Load(Retrying(r, rx, flats, fills, produced)) == Load(rx)
    decreases |fills|
  {
    if fills != [] {
      var next := Land(r, rx, flats[produced], fills[0]);
      if ValidFill(r, fills[0]) {
        LandLoad(r, rx, flats[produced], fills[0]);
        RetryingEmpty(r, next, flats, fills[1..], produced + 1);
      } else {
        RetryingEmpty(r, next, flats, fills[1..], produced);
      }
    }
  }

  lemma {:induction false} RedirectedEmpty(r: Region, rx: Rx, flats: seq<Bytes>)
    requires ValidRx(r, rx)
    requires forall k :: 0 <= k < |ValidOnes(r, rx.fills[..Reserved(rx, |flats|)])| ==> flats[k] == []
    ensures Load(Redirected(r, rx, flats)) == Load(rx)
  {
    RetryingEmpty(r, rx, flats, rx.fills[..Reserved(rx, |flats|)], 0);
  }

  lemma {:induction false} InBatchesEmpty(r: Region, rx: Rx, flats: seq<Bytes>)
    requires ValidRx(r, rx) && AllEmpty(flats)
    ensures Load(InBatches(r, rx, flats)) == Load(rx)
    decreases |flats|
  {
    if |flats| <= BATCH {
      RedirectedEmpty(r, rx, flats);
    } else {
      RedirectedEmpty(r, rx, flats[..BATCH]);
      InBatchesEmpty(r, Redirected(r, rx, flats[..BATCH]), flats[BATCH..]);
    }
  }

  lemma {:induction false} InBatchesSpike(r: Region, rx: Rx, flats: seq<Bytes>, q: nat)
    requires ValidRx(r, rx) && Spike(flats, q) && Misses(r, rx.fills, rx.room, |flats|, q)
    ensures Load(InBatches(r, rx, flats)) == Load(rx)
    decreases |flats|
  {
    if |flats| <= BATCH {
      AfterBatch(r, rx, flats, |flats|);
      RedirectedEmpty(r, rx, flats);
    } else {
      var next := Redirected(r, rx, flats[..BATCH]);
      AfterBatch(r, rx, flats[..BATCH], |flats|);
      RedirectedEmpty(r, rx, flats[..BATCH]);
      if q < BATCH {
        InBatchesEmpty(r, next, flats[BATCH..]);
      } else {
        InBatchesSpike(r, next, flats[BATCH..], q - BATCH);
      }
    }
  }

  /** Frames on which the paths differ: any at all if the batches take other fills, or else a one-byte
      frame beside the last valid fill that stands behind an invalid one. */
  lemma {:induction false} UnmatchedTells(r: Region, rx: Rx, count: nat) returns (flats: seq<Bytes>)
    requires ValidRx(r, rx) && !Matched(r, rx.fills, rx.room, count)
    ensures |flats| == count && InBatches(r, rx, flats) != Exclusive(r, rx, flats)
  {
    var n := Reserved(rx, count);
    flats := seq(count, _ => []);
    if Consumed(r, rx.fills, rx.room, count) != n {
      InBatchesConsumes(r, rx, flats);
      PairwiseCounts(r, rx, flats[..n], rx.fills[..n]);
    } else {
      ConsumedFits(r, rx.fills, rx.room, count);
      var q := Missed(r, rx.fills, rx.room, count);
      flats := flats[q := [0]];
      InBatchesSpike(r, rx, flats, q);
      PairwiseSpike(r, rx, flats[..n], rx.fills[..n], q);
    }
  }

  /** For any socket and any number of frames: redirect batches of 32 and one exclusive batch leave the
      same memory, RX ring, fill ring and statistics for all frames, if and only if the fills match. */
  lemma {:induction false} BatchesAgreeExactly(r: Region, rx: Rx, count: nat)
    requires ValidRx(r, rx)
    ensures (forall flats: seq<Bytes> :: |flats| == count ==> InBatches(r, rx, flats) == Exclusive(r, rx, flats))
       <==> Matched(r, rx.fills, rx.room, count)
  {
    if Matched(r, rx.fills, rx.room, count) {
      forall flats: seq<Bytes> | |flats| == count
        ensures InBatches(r, rx, flats) == Exclusive(r, rx, flats)
      {
        MatchedAgrees(r, rx, flats);
      }
    } else {
      var flats := UnmatchedTells(r, rx, count);
    }
  }

  /** An invalid fill before a valid one: the exclusive path delivers the second of two frames, the
      redirect path the first, so they agree only if the two frames land alike. */
  lemma {:induction false} InvalidFillTells(r: Region, rx: Rx, a: Bytes, b: Bytes, bad: nat, good: nat)
    requires ValidRx(r, rx) && !ValidFill(r, bad) && ValidFill(r, good)
    requires rx.fills == [bad, good] && rx.room >= 2
    ensures Exclusive(r, rx, [a, b]).umem == Land(r, rx, b, good).umem
    ensures InBatches(r, rx, [a, b]).umem == Land(r, rx, a, good).umem
  {
    PairwiseTwo(r, rx, a, b, bad, good);
    RetryingSecond(r, rx, a, b, bad, good);
    assert rx.fills[..2] == [bad, good] && [a, b][..2] == [a, b];
  }

  /** Two one-byte frames and a one-byte region. */
  lemma {:induction false} InvalidFillExample()
    ensures exists r: Region, rx: Rx, flats: seq<Bytes> ::
              ValidRx(r, rx) && InBatches(r, rx, flats) != Exclusive(r, rx, flats)
  {
    var r, rx := Region(1, 1, 0), Rx([0], [1, 0], [], 2, 0, 0, 0);
    InvalidFillTells(r, rx, [7], [8], 1, 0);
    assert Land(r, rx, [7], 0).umem[0] == 7 && Land(r, rx, [8], 0).umem[0] == 8;
    assert InBatches(r, rx, [[7], [8]]) != Exclusive(r, rx, [[7], [8]]);
  }

  lemma {:induction false} PairwiseTwo(r: Region, rx: Rx, a: Bytes, b: Bytes, m: nat, n: nat)
    requires ValidRx(r, rx)
    ensures Pairwise(r, rx, [a, b], [m, n]) == Land(r, Land(r, rx, a, m), b, n)
  {
    assert [a, b][1..] == [b] && [m, n][1..] == [n] && [b][1..] == [] && [n][1..] == [];
    var next := Land(r, rx, a, m);
    assert Pairwise(r, next, [b], [n]) == Pairwise(r, Land(r, next, b, n), [b][1..], [n][1..]);
  }

  lemma {:induction false} RetryingSecond(r: Region, rx: Rx, a: Bytes, b: Bytes, m: nat, n: nat)
    requires ValidRx(r, rx) && !ValidFill(r, m)
    ensures Retrying(r, rx, [a, b], [m, n], 0) == Land(r, Land(r, rx, a, m), a, n)
  {
    assert [m, n][1..] == [n] && [n][1..] == [];
    var next := Land(r, rx, a, m);
    assert Retrying(r, rx, [a, b], [m, n], 0) == Retrying(r, next, [a, b], [n], 0);
    assert Retrying(r, next, [a, b], [n], 0)
        == Retrying(r, Land(r, next, a, n), [a, b], [n][1..], if ValidFill(r, n) then 1 else 0);
  }
}
