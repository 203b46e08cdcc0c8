/**
 TX bounce buffers. With bouncing on, a frame is transmitted from the socket's bounce copy of its
 chunk, which is refreshed only when nothing of the chunk is in flight, so that an application that
 goes on writing to its buffers cannot change a frame on its way.
 */
module Bounce {
  import opened Words
  import opened Umem
  import opened TxLedger

  type Byte = n: nat | n < 256

  const ADDRESS: nat := 0x1_0000_0000_0000_0000

  type u64 = n: nat | n < 0x1_0000_0000_0000_0000

  /** Where a copy of the region is mapped: its system address, and its DMA address as a 64-bit word. */
  datatype Mapping = Mapping(systemAddress: u64, dmaAddress: u64)

  /** The address extensions enabled on the frame ring. */
  datatype Extensions = Extensions(virtual: bool, logical: bool, mdl: bool)

  /** The buffer part of a TX frame: data offset and length, and the address extensions. */
  datatype TxBuffer = TxBuffer(dataOffset: nat, dataLength: nat, va: u64, la: u64, mdlOffset: u64)

  function Add64(a: u64, n: u64): u64 {
    if a + n < ADDRESS then a + n else a + n - ADDRESS
  }

  function Sub64(a: u64, b: u64): u64 {
    if b <= a then a - b else a - b + ADDRESS
  }

  /** The frame buffer written for a descriptor; extensions that are off keep what was there. */
  function Describe(m: Mapping, e: Extensions, d: Descriptor, was: TxBuffer): TxBuffer
    requires d.base < ADDRESS
  {
    TxBuffer(
      d.offset,
      d.length,
      if e.virtual then Add64(m.systemAddress, d.base) else was.va,
      if e.logical then Add64(m.dmaAddress, d.base) else was.la,
      if e.mdl then d.base else was.mdlOffset)
  }

  /** The relative address read back from a completed frame. */
  function Recover(m: Mapping, e: Extensions, b: TxBuffer): u64
    requires e.virtual || e.logical || e.mdl
  {
    if e.virtual then Sub64(b.va, m.systemAddress)
    else if e.logical then Sub64(b.la, m.dmaAddress)
    else b.mdlOffset
  }

  /** Completion recovers the posted base address, whatever address form is in use. */
  lemma {:induction false} RecoverDescribe(m: Mapping, e: Extensions, d: Descriptor, was: TxBuffer)
    requires d.base < ADDRESS && (e.virtual || e.logical || e.mdl)
    ensures Recover(m, e, Describe(m, e, d, was)) == d.base
  {
  }

  /** How many of these descriptors are based in chunk `c`. */
  ghost function InChunk(inFlight: seq<Descriptor>, chunkSize: nat, c: nat): (n: nat)
    requires chunkSize > 0
    ensures n <= |inFlight|
  {
    if inFlight == [] then 0
    else (if ChunkOf(chunkSize, inFlight[0].base) == c then 1 else 0) + InChunk(inFlight[1..], chunkSize, c)
  }

  lemma {:induction false} InChunkJoin(a: seq<Descriptor>, b: seq<Descriptor>, chunkSize: nat, c: nat)
    requires chunkSize > 0
    ensures InChunk(a + b, chunkSize, c) == InChunk(a, chunkSize, c) + InChunk(b, chunkSize, c)
  {
    if a == [] {
      assert a + b == b;
    } else {
      InChunkJoin(a[1..], b, chunkSize, c);
      assert (a + b)[1..] == a[1..] + b;
    }
  }

  lemma {:induction false} InChunkOne(d: Descriptor, chunkSize: nat, c: nat)
    requires chunkSize > 0
    ensures InChunk([d], chunkSize, c) == if ChunkOf(chunkSize, d.base) == c then 1 else 0
  {
    assert [d][1..] == [];
  }

  function Drop<T>(s: seq<T>, k: nat): seq<T>
    requires k < |s|
  {
    s[..k] + s[k + 1..]
  }

  lemma {:induction false} InChunkAdd(inFlight: seq<Descriptor>, d: Descriptor, chunkSize: nat, c: nat)
    requires chunkSize > 0
    ensures InChunk(inFlight + [d], chunkSize, c)
         == InChunk(inFlight, chunkSize, c) + if ChunkOf(chunkSize, d.base) == c then 1 else 0
  {
    InChunkJoin(inFlight, [d], chunkSize, c);
    InChunkOne(d, chunkSize, c);
  }

  lemma {:induction false} InChunkDrop(inFlight: seq<Descriptor>, k: nat, chunkSize: nat, c: nat)
    requires chunkSize > 0 && k < |inFlight|
    ensures InChunk(inFlight, chunkSize, c)
         == InChunk(Drop(inFlight, k), chunkSize, c) + if ChunkOf(chunkSize, inFlight[k].base) == c then 1 else 0
  {
    var a, d, b := inFlight[..k], inFlight[k], inFlight[k + 1..];
    assert inFlight == (a + [d]) + b;
    InChunkJoin(a + [d], b, chunkSize, c);
    InChunkAdd(a, d, chunkSize, c);
    InChunkJoin(a, b, chunkSize, c);
  }

  lemma {:induction false} IdleChunk(inFlight: seq<Descriptor>, chunkSize: nat, c: nat, k: nat)
    requires chunkSize > 0 && InChunk(inFlight, chunkSize, c) == 0 && k < |inFlight|
    ensures ChunkOf(chunkSize, inFlight[k].base) != c
  {
    InChunkDrop(inFlight, k, chunkSize, c);
  }

  /** Two images of the region agree throughout chunk `c`. */
  ghost predicate SameChunk(a: seq<Byte>, b: seq<Byte>, chunkSize: nat, c: nat)
    requires chunkSize > 0
  {
    |a| == |b| && forall i :: 0 <= i < |a| && ChunkOf(chunkSize, i) == c ==> a[i] == b[i]
  }

  /** A copy of a range within chunk `c` leaves every other chunk as it was. */
  lemma {:induction false} OtherChunk(
    before: seq<Byte>, after: seq<Byte>, chunkSize: nat, base: nat, from: nat, to: nat, c: nat)
    requires chunkSize > 0 && |before| == |after| && base <= from < to <= |before|
    requires ChunkOf(chunkSize, base) == ChunkOf(chunkSize, to - 1) != c
    requires forall i :: 0 <= i < |before| && !(from <= i < to) ==> after[i] == before[i]
    ensures SameChunk(before, after, chunkSize, c)
  {
    forall i | 0 <= i < |before| && ChunkOf(chunkSize, i) == c
      ensures before[i] == after[i]
    {
      if from <= i < to {
        ChunkBetween(chunkSize, base, i, to - 1);
      }
    }
  }

  /** The bytes a frame sends. */
  predicate InRange(d: Descriptor, i: nat) {
    d.base + d.offset <= i < d.base + d.offset + d.length
  }

  /** They are those of the application's memory. */
  ghost predicate Carries(bytes: seq<Byte>, umem: seq<Byte>, d: Descriptor) {
    && d.base + d.offset + d.length <= |bytes| == |umem|
    && forall i :: 0 <= i < |bytes| && InRange(d, i) ==> bytes[i] == umem[i]
  }

  /** The bounce copy after a frame is accepted: the frame's own range is refreshed from the application's
      memory if nothing of its chunk is in flight, and left alone otherwise. */
  function Refreshed(bytes: seq<Byte>, umem: seq<Byte>, d: Descriptor, idle: bool): (after: seq<Byte>)
    requires |bytes| == |umem| && d.base + d.offset + d.length <= |bytes|
    ensures |after| == |bytes|
  {
    seq(|bytes|, i requires 0 <= i < |bytes| => if idle && InRange(d, i) then umem[i] else bytes[i])
  }

  lemma {:induction false} IdleCarries(bytes: seq<Byte>, umem: seq<Byte>, d: Descriptor)
    requires |bytes| == |umem| && d.base + d.offset + d.length <= |bytes|
    ensures Carries(Refreshed(bytes, umem, d, true), umem, d)
  {
    var after := Refreshed(bytes, umem, d, true);
    assert forall i :: 0 <= i < |bytes| && InRange(d, i) ==> after[i] == umem[i];
  }

  lemma {:induction false} BusyLeaves(bytes: seq<Byte>, umem: seq<Byte>, d: Descriptor)
    requires |bytes| == |umem| && d.length > 0 && d.base + d.offset + d.length <= |bytes|
    ensures Refreshed(bytes, umem, d, false) == bytes
    ensures bytes[d.base + d.offset] != umem[d.base + d.offset] ==> !Carries(bytes, umem, d)
  {
    assert InRange(d, d.base + d.offset);
  }

  /** A byte other than this one. */
  function Other(x: Byte): (y: Byte)
    ensures y != x
  {
    if x == 0 then 1 else 0
  }

  /** Whatever the bounce copy holds: a frame carries the application's bytes for every content of the
      application's memory if and only if nothing of its chunk was in flight. */
  lemma {:induction false} CarriesExactly(bytes: seq<Byte>, d: Descriptor, idle: bool)
    requires d.length > 0 && d.base + d.offset + d.length <= |bytes|
    ensures (forall umem: seq<Byte> :: |umem| == |bytes| ==> Carries(Refreshed(bytes, umem, d, idle), umem, d))
       <==> idle
  {
    if idle {
      forall umem: seq<Byte> | |umem| == |bytes|
        ensures Carries(Refreshed(bytes, umem, d, idle), umem, d)
      {
        IdleCarries(bytes, umem, d);
      }
    } else {
      var umem := bytes[d.base + d.offset := Other(bytes[d.base + d.offset])];
      BusyLeaves(bytes, umem, d);
      assert !Carries(Refreshed(bytes, umem, d, idle), umem, d);
    }
  }

  /** A socket's bounce buffer and tracker; with bouncing off both are unused. */
  class TxBounce {
    const limits: Limits
    const extensions: Extensions
    const umemMapping: Mapping
    const bounceMapping: Mapping
    const bytes: array<Byte>
    const tracker: array<nat>
    var umem: seq<Byte>
    ghost var inFlight: seq<Descriptor>
    ghost var images: seq<seq<Byte>>

    ghost predicate ValidShape()
      reads this
    {
      && ValidLimits(limits) && ValidRegion(Region(limits.totalSize, limits.chunkSize, 0))
      && (extensions.virtual || extensions.logical || extensions.mdl)
      && |umem| == bytes.Length == limits.totalSize
      && tracker.Length == ChunkOf(limits.chunkSize, limits.totalSize)
      && |images| == |inFlight|
      && AllAccepted(limits, inFlight)
    }

    /** Each tracker entry counts the frames in flight based in its chunk, and each frame in flight
        still sees its chunk as it was when the frame was accepted. */
    ghost predicate Valid()
      reads this, bytes, tracker
    {
      && ValidShape()
      && (limits.bouncing ==> Tracks(tracker[..], inFlight, limits.chunkSize))
      && (limits.bouncing ==> Frozen(bytes[..], inFlight, images, limits.chunkSize))
    }

    constructor (limits: Limits, extensions: Extensions, umemMapping: Mapping, bounceMapping: Mapping, umem: seq<Byte>)
      requires ValidLimits(limits) && ValidRegion(Region(limits.totalSize, limits.chunkSize, 0))
               && |umem| == limits.totalSize
      requires extensions.virtual || extensions.logical || extensions.mdl
      ensures Valid() && inFlight == [] && this.limits == limits && this.umem == umem
      ensures fresh(bytes) && fresh(tracker) && forall i :: 0 <= i < bytes.Length ==> bytes[i] == 0
    {
      this.limits, this.extensions := limits, extensions;
      this.umemMapping, this.bounceMapping := umemMapping, bounceMapping;
      this.umem := umem;
      bytes := new Byte[limits.totalSize](_ => 0);
      tracker := new nat[ChunkOf(limits.chunkSize, limits.totalSize)](_ => 0);
      inFlight, images := [], [];
    }

    /** Nothing of the descriptor's chunk is in flight. */
    ghost predicate Idle(d: Descriptor)
      requires limits.chunkSize > 0
      reads this
    {
      InChunk(inFlight, limits.chunkSize, ChunkOf(limits.chunkSize, d.base)) == 0
    }

    function Mapping(): Mapping {
      if limits.bouncing then bounceMapping else umemMapping
    }

    /** The application writes to its memory, at any time and as it likes. */
    method ApplicationWrites(contents: seq<Byte>)
      requires Valid() && |contents| == limits.totalSize
      modifies this`umem
      ensures Valid() && umem == contents
    {
      umem := contents;
    }

    /** Counts one more frame of a chunk, refreshing the chunk's bytes if it is the first. */
    method Hold(chunkIndex: nat, d: Descriptor)
      requires Valid() && limits.bouncing && d.length > 0 && d.base + d.length + d.offset <= limits.totalSize
      requires chunkIndex == ChunkOf(limits.chunkSize, d.base)
               == ChunkOf(limits.chunkSize, d.base + (d.offset + d.length) - 1)
      requires chunkIndex < tracker.Length
      modifies bytes, tracker
      ensures Tracks(tracker[..], inFlight + [d], limits.chunkSize)
      ensures Frozen(bytes[..], inFlight + [d], images + [bytes[..]], limits.chunkSize)
      ensures bytes[..] == Refreshed(old(bytes[..]), umem, d, InChunk(inFlight, limits.chunkSize, chunkIndex) == 0)
    {
      ghost var before := bytes[..];
      ghost var counts := tracker[..];
      if tracker[chunkIndex] == 0 {
        CopyIn(d.base + d.offset, d.base + d.offset + d.length);
        FrozenCopy(before, bytes[..], inFlight, images, limits.chunkSize, d);
      }
      tracker[chunkIndex] := tracker[chunkIndex] + 1;
      assert tracker[..] == counts[chunkIndex := counts[chunkIndex] + 1];
      TracksAdd(counts, inFlight, limits.chunkSize, d);
      FrozenAdd(bytes[..], inFlight, images, limits.chunkSize, d);
    }

    /** Secures the bytes of a buffer that lies inside the region: only the first frame of a chunk is
        copied, and only its own range. */
    method BounceBuffer(d: Descriptor) returns (ok: bool)
      requires Valid() && d.length > 0 && d.base + d.length + d.offset <= limits.totalSize
      requires d.length <= Min(limits.maxBuffer, limits.maxFrame)
      modifies bytes, tracker, this`inFlight, this`images
      ensures Valid()
      ensures ok <==> Accepts(limits, d)
      ensures inFlight == if ok then old(inFlight) + [d] else old(inFlight)
      ensures images == if ok then old(images) + [bytes[..]] else old(images)
      ensures ok && limits.bouncing ==> bytes[..] == Refreshed(old(bytes[..]), umem, d, old(Idle(d)))
      ensures ok && limits.bouncing && old(Idle(d)) ==> Carries(bytes[..], umem, d)
    {
      ok := true;
      if limits.bouncing {
        ChunkInBounds(Region(limits.totalSize, limits.chunkSize, 0), d.base);
        var chunkIndex := ChunkOf(limits.chunkSize, d.base);
        if chunkIndex != ChunkOf(limits.chunkSize, d.base + (d.offset + d.length) - 1) {
          return false;
        }
        Hold(chunkIndex, d);
      }
      IdleCarries(old(bytes[..]), umem, d);
      Admit(d);
    }

    /** One more frame is in flight. */
    ghost method Admit(d: Descriptor)
      requires ValidShape() && Accepts(limits, d)
      requires limits.bouncing ==> Tracks(tracker[..], inFlight + [d], limits.chunkSize)
      requires limits.bouncing ==> Frozen(bytes[..], inFlight + [d], images + [bytes[..]], limits.chunkSize)
      modifies this`inFlight, this`images
      ensures Valid() && inFlight == old(inFlight) + [d] && images == old(images) + [bytes[..]]
    {
      assert AllAccepted(limits, inFlight + [d]);
      inFlight, images := inFlight + [d], images + [bytes[..]];
    }

    /** Lets go of a frame that was bounced from this address. */
    method ReleaseBounceBuffer(relativeAddress: nat, ghost k: nat)
      requires Valid() && k < |inFlight| && relativeAddress == inFlight[k].base
      modifies tracker, this`inFlight, this`images
      ensures Valid() && inFlight == Drop(old(inFlight), k) && images == Drop(old(images), k)
    {
      if limits.bouncing {
        ChunkInBounds(Region(limits.totalSize, limits.chunkSize, 0), relativeAddress);
        var chunkIndex := ChunkOf(limits.chunkSize, relativeAddress);
        ghost var counts := tracker[..];
        FrozenDrop(bytes[..], inFlight, images, limits.chunkSize, k);
        TracksDrop(counts, inFlight, limits.chunkSize, k);
        tracker[chunkIndex] := tracker[chunkIndex] - 1;
        assert tracker[..] == counts[chunkIndex := counts[chunkIndex] - 1];
      }
      assert AllAccepted(limits, Drop(inFlight, k));
      inFlight, images := Drop(inFlight, k), Drop(images, k);
    }

    /** One descriptor of the fill loop: checked, bounced, and written to a frame. */
    method Enqueue(d: Descriptor, was: TxBuffer) returns (ok: bool, b: TxBuffer)
      requires Valid()
      modifies bytes, tracker, this`inFlight, this`images
      ensures Valid()
      ensures ok <==> Accepts(limits, d)
      ensures inFlight == if ok then old(inFlight) + [d] else old(inFlight)
      ensures ok ==> b == Describe(Mapping(), extensions, d, was)
      ensures images == if ok then old(images) + [bytes[..]] else old(images)
      ensures ok && limits.bouncing ==> bytes[..] == Refreshed(old(bytes[..]), umem, d, old(Idle(d)))
      ensures ok && limits.bouncing && old(Idle(d)) ==> Carries(bytes[..], umem, d)
    {
      b := was;
      if d.base + d.length + d.offset > limits.totalSize || d.length == 0 {
        return false, b;
      }
      if d.length > Min(limits.maxBuffer, limits.maxFrame) {
        return false, b;
      }
      ok := BounceBuffer(d);
      if ok {
        b := Describe(Mapping(), extensions, d, was);
      }
    }

    /** The guard is exact: while anything of its chunk is in flight, an application that writes one byte of
        its buffer before it posts has a frame accepted that does not carry its bytes. */
    method BusyChunkTells(d: Descriptor, was: TxBuffer) returns (ok: bool)
      requires Valid() && limits.bouncing && Accepts(limits, d) && !Idle(d)
      modifies bytes, tracker, this`umem, this`inFlight, this`images
      ensures Valid() && ok && inFlight == old(inFlight) + [d]
      ensures umem == old(umem)[d.base + d.offset := umem[d.base + d.offset]]
      ensures !Carries(bytes[..], umem, d)
    {
      var i := d.base + d.offset;
      ApplicationWrites(umem[i := Other(bytes[i])]);
      BusyLeaves(bytes[..], umem, d);
      var b;
      ok, b := Enqueue(d, was);
    }

    /** Completes any frame in flight: its posted base address comes back and its chunk is let go. */
    method Complete(b: TxBuffer, ghost k: nat, ghost was: TxBuffer) returns (relativeAddress: u64)
      requires Valid() && k < |inFlight| && b == Describe(Mapping(), extensions, inFlight[k], was)
      modifies tracker, this`inFlight, this`images
      ensures Valid() && relativeAddress == old(inFlight)[k].base
      ensures inFlight == Drop(old(inFlight), k)
    {
      RecoverDescribe(Mapping(), extensions, inFlight[k], was);
      relativeAddress := Recover(Mapping(), extensions, b);
      ReleaseBounceBuffer(relativeAddress, k);
    }

    /** Refreshes a range of the bounce copy from the application's memory. */
    method CopyIn(from: nat, to: nat)
      requires from <= to <= bytes.Length == |umem|
      modifies bytes
      ensures forall i :: 0 <= i < bytes.Length ==> bytes[i] == if from <= i < to then umem[i] else old(bytes[i])
    {
      var i := from;
      while i < to
        invariant from <= i <= to
        invariant forall j :: 0 <= j < bytes.Length ==> bytes[j] == if from <= j < i then umem[j] else old(bytes[j])
      {
        bytes[i] := umem[i];
        i := i + 1;
      }
    }
  }

  /** A region of one two-byte chunk full of ones, with a one-byte frame in flight. */
  method FirstFrame(extensions: Extensions, mapping: Mapping, was: TxBuffer) returns (b: TxBounce)
    requires extensions.virtual || extensions.logical || extensions.mdl
    ensures fresh(b) && fresh(b.bytes) && fresh(b.tracker) && b.Valid() && b.limits == Limits(2, 2, true, 2, 2)
    ensures b.umem == [1, 1] && b.inFlight == [Descriptor(0, 0, 1)] && b.bytes[1] == 0
  {
    b := new TxBounce(Limits(2, 2, true, 2, 2), extensions, mapping, mapping, [1, 1]);
    assert !InRange(Descriptor(0, 0, 1), 1) && [] + [Descriptor(0, 0, 1)] == [Descriptor(0, 0, 1)];
    var ok, frame := b.Enqueue(Descriptor(0, 0, 1), was);
  }

  /** A run from the start: a second frame at another offset of the chunk is accepted, and sends a zero where the
      application has a one. */
  method SecondFrameLost(extensions: Extensions, mapping: Mapping, was: TxBuffer) returns (b: TxBounce, ok: bool)
    requires extensions.virtual || extensions.logical || extensions.mdl
    ensures fresh(b) && b.Valid() && ok && b.umem == [1, 1]
    ensures b.inFlight == [Descriptor(0, 0, 1), Descriptor(0, 1, 1)] && !Carries(b.bytes[..], b.umem, b.inFlight[1])
  {
    b := FirstFrame(extensions, mapping, was);
    InChunkOne(Descriptor(0, 0, 1), 2, 0);
    BusyLeaves(b.bytes[..], b.umem, Descriptor(0, 1, 1));
    var frame;
    ok, frame := b.Enqueue(Descriptor(0, 1, 1), was);
  }

  ghost predicate AllAccepted(limits: Limits, inFlight: seq<Descriptor>)
    requires ValidLimits(limits)
  {
    forall k :: 0 <= k < |inFlight| ==> Accepts(limits, inFlight[k])
  }

  ghost predicate Tracks(counts: seq<nat>, inFlight: seq<Descriptor>, chunkSize: nat)
    requires chunkSize > 0
  {
    forall c :: 0 <= c < |counts| ==> counts[c] == InChunk(inFlight, chunkSize, c)
  }

  ghost predicate Frozen(bytes: seq<Byte>, inFlight: seq<Descriptor>, images: seq<seq<Byte>>, chunkSize: nat)
    requires chunkSize > 0 && |images| == |inFlight|
  {
    forall k :: 0 <= k < |inFlight| ==> SameChunk(images[k], bytes, chunkSize, ChunkOf(chunkSize, inFlight[k].base))
  }

  lemma {:induction false} TracksAdd(counts: seq<nat>, inFlight: seq<Descriptor>, chunkSize: nat, d: Descriptor)
    requires chunkSize > 0 && Tracks(counts, inFlight, chunkSize) && ChunkOf(chunkSize, d.base) < |counts|
    ensures var c := ChunkOf(chunkSize, d.base); Tracks(counts[c := counts[c] + 1], inFlight + [d], chunkSize)
  {
    forall c | 0 <= c < |counts|
      ensures InChunk(inFlight + [d], chunkSize, c)
           == InChunk(inFlight, chunkSize, c) + if ChunkOf(chunkSize, d.base) == c then 1 else 0
    {
      InChunkAdd(inFlight, d, chunkSize, c);
    }
  }

  lemma {:induction false} TracksDrop(counts: seq<nat>, inFlight: seq<Descriptor>, chunkSize: nat, k: nat)
    requires chunkSize > 0 && Tracks(counts, inFlight, chunkSize) && k < |inFlight|
    requires ChunkOf(chunkSize, inFlight[k].base) < |counts|
    ensures var c := ChunkOf(chunkSize, inFlight[k].base);
            counts[c] > 0 && Tracks(counts[c := counts[c] - 1], Drop(inFlight, k), chunkSize)
  {
    forall c | 0 <= c < |counts|
      ensures InChunk(inFlight, chunkSize, c)
           == InChunk(Drop(inFlight, k), chunkSize, c) + if ChunkOf(chunkSize, inFlight[k].base) == c then 1 else 0
    {
      InChunkDrop(inFlight, k, chunkSize, c);
    }
  }

  lemma {:induction false} FrozenAdd(
    bytes: seq<Byte>, inFlight: seq<Descriptor>, images: seq<seq<Byte>>, chunkSize: nat, d: Descriptor)
    requires chunkSize > 0 && |images| == |inFlight| && Frozen(bytes, inFlight, images, chunkSize)
    ensures Frozen(bytes, inFlight + [d], images + [bytes], chunkSize)
  {
  }

  lemma {:induction false} FrozenDrop(
    bytes: seq<Byte>, inFlight: seq<Descriptor>, images: seq<seq<Byte>>, chunkSize: nat, k: nat)
    requires chunkSize > 0 && |images| == |inFlight| && Frozen(bytes, inFlight, images, chunkSize) && k < |inFlight|
    ensures Frozen(bytes, Drop(inFlight, k), Drop(images, k), chunkSize)
  {
  }

  lemma {:induction false} FrozenCopy(
    before: seq<Byte>, after: seq<Byte>, inFlight: seq<Descriptor>, images: seq<seq<Byte>>, chunkSize: nat,
      d: Descriptor)
    requires chunkSize > 0 && |images| == |inFlight| && |before| == |after|
    requires Frozen(before, inFlight, images, chunkSize)
    requires d.length > 0 && d.base + d.offset + d.length <= |before|
    requires ChunkOf(chunkSize, d.base) == ChunkOf(chunkSize, d.base + (d.offset + d.length) - 1)
    requires InChunk(inFlight, chunkSize, ChunkOf(chunkSize, d.base)) == 0
    requires forall i :: 0 <= i < |before| && !(d.base + d.offset <= i < d.base + d.offset + d.length) ==>
             after[i] == before[i]
    ensures Frozen(after, inFlight, images, chunkSize)
  {
    forall k | 0 <= k < |inFlight|
      ensures SameChunk(images[k], after, chunkSize, ChunkOf(chunkSize, inFlight[k].base))
    {
      IdleChunk(inFlight, chunkSize, ChunkOf(chunkSize, d.base), k);
      OtherChunk(before, after, chunkSize, d.base, d.base + d.offset, d.base + d.offset + d.length,
        ChunkOf(chunkSize, inFlight[k].base));
    }
  }
}
