/**
 Received frames: a first buffer in the frame ring, followed by the frame's buffers in the
 fragment ring. The reader below walks them with a cursor, copying a header to storage only when
 it straddles buffers; what it returns is stated on the flat bytes of the frame.
 */
module Frames {
  import opened Options
  import opened Words

  newtype byte = n: int | 0 <= n < 256

  type Bytes = seq<byte>

  /** The fragment ring, the masked index of the frame's first fragment, and its fragment count. */
  datatype FragmentRing = FragmentRing(elements: seq<Bytes>, index: u32, count: nat)

  datatype Frame = Frame(buffer: Bytes, ring: Option<FragmentRing>)

  ghost predicate ValidFrame(f: Frame) {
    f.ring.Some? ==>
      && RingSize(|f.ring.value.elements|)
      && f.ring.value.index < |f.ring.value.elements|
      && f.ring.value.count <= |f.ring.value.elements|
  }

  function Concat(pieces: seq<Bytes>): Bytes {
    if pieces == [] then [] else pieces[0] + Concat(pieces[1..])
  }

  /** The ring slot of fragment `i`: slots from the frame's index on, wrapping at the ring's end. */
  function FragmentSlot(r: FragmentRing, i: nat): (slot: nat)
    requires r.index < |r.elements| && i <= |r.elements|
    ensures slot < |r.elements|
  {
    if r.index + i < |r.elements| then r.index + i else r.index + i - |r.elements|
  }

  /** The slot after a fragment index: increment, then mask. */
  function NextSlot(size: nat, fragmentIndex: u32): (slot: nat)
    requires size > 0
  {
    BitAnd(Add(fragmentIndex, 1), size - 1)
  }

  /** The biased index of a frame leads to its first fragment. */
  lemma {:induction false} NextSlotAtStart(r: FragmentRing)
    requires RingSize(|r.elements|) && r.index < |r.elements|
    ensures NextSlot(|r.elements|, Sub(r.index, 1)) == FragmentSlot(r, 0)
  {
    assert Add(Sub(r.index, 1), 1) == r.index;
    MaskBelow(r.index, |r.elements|);
  }

  lemma {:induction false} NextSlotFollows(r: FragmentRing, k: nat)
    requires RingSize(|r.elements|) && r.index < |r.elements| && k < |r.elements|
    ensures |r.elements| < WORD
    ensures NextSlot(|r.elements|, FragmentSlot(r, k)) == FragmentSlot(r, k + 1)
  {
    RingSizeBounds(|r.elements|);
    var slot := FragmentSlot(r, k);
    MaskSum(slot, 1, |r.elements|);
    if slot + 1 == |r.elements| {
      ModUnique(slot + 1, |r.elements|, 1, 0);
    } else {
      ModUnique(slot + 1, |r.elements|, 0, slot + 1);
    }
  }

  /** `pieces` lists the frame's buffers in order. */
  ghost predicate ArePieces(f: Frame, pieces: seq<Bytes>)
    requires ValidFrame(f)
  {
    && |pieces| > 0
    && pieces[0] == f.buffer
    && (f.ring.None? ==> |pieces| == 1)
    && (f.ring.Some? ==>
          && |pieces| == 1 + f.ring.value.count
          && forall k :: 1 <= k < |pieces| ==>
               pieces[k] == f.ring.value.elements[FragmentSlot(f.ring.value, k - 1)])
  }

  lemma {:induction false} PiecesExist(f: Frame)
    requires ValidFrame(f)
    ensures exists pieces :: ArePieces(f, pieces)
  {
    if f.ring.None? {
      assert ArePieces(f, [f.buffer]);
    } else {
      var r := f.ring.value;
      RingSizeBounds(|r.elements|);
      assert ArePieces(f, [f.buffer] + seq(r.count, i requires 0 <= i < r.count => r.elements[FragmentSlot(r, i)]));
    }
  }

  /** The frame's buffers; the predicate leaves exactly one choice. */
  ghost function Pieces(f: Frame): (pieces: seq<Bytes>)
    requires ValidFrame(f)
    ensures ArePieces(f, pieces)
  {
    PiecesExist(f);
    var pieces :| ArePieces(f, pieces);
    pieces
  }

  /** The bytes of the frame, whatever buffers they are spread over. */
  ghost function Flat(f: Frame): Bytes
    requires ValidFrame(f)
  {
    Concat(Pieces(f))
  }

  /** The number of bytes before piece `k`. */
  ghost function Before(pieces: seq<Bytes>, k: nat): nat
    requires k <= |pieces|
  {
    if k == 0 then 0 else Before(pieces, k - 1) + |pieces[k - 1]|
  }

  lemma {:induction false} ConcatSplit(front: seq<Bytes>, back: seq<Bytes>)
    ensures Concat(front + back) == Concat(front) + Concat(back)
    decreases |front|
  {
    if front == [] {
      assert front + back == back;
    } else {
      ConcatSplit(front[1..], back);
      assert (front + back)[1..] == front[1..] + back;
    }
  }

  lemma {:induction false} ConcatTake(pieces: seq<Bytes>, k: nat)
    requires k <= |pieces|
    ensures |Concat(pieces[..k])| == Before(pieces, k)
    ensures Concat(pieces) == Concat(pieces[..k]) + Concat(pieces[k..])
    decreases k
  {
    assert pieces == pieces[..k] + pieces[k..];
    ConcatSplit(pieces[..k], pieces[k..]);
    if k > 0 {
      ConcatTake(pieces, k - 1);
      assert pieces[..k] == pieces[..k - 1] + [pieces[k - 1]];
      ConcatSplit(pieces[..k - 1], [pieces[k - 1]]);
      assert Concat([pieces[k - 1]]) == pieces[k - 1] + Concat([]);
    }
  }

  /** Piece `k` sits in the flat bytes behind the pieces before it. */
  lemma {:induction false} PieceInFlat(pieces: seq<Bytes>, k: nat)
    requires k < |pieces|
    ensures Before(pieces, k) + |pieces[k]| <= |Concat(pieces)|
    ensures Concat(pieces)[Before(pieces, k)..Before(pieces, k) + |pieces[k]|] == pieces[k]
    ensures k == |pieces| - 1 ==> Before(pieces, k) + |pieces[k]| == |Concat(pieces)|
  {
    ConcatTake(pieces, k);
    assert Concat(pieces[k..]) == pieces[k] + Concat(pieces[k..][1..]);
    if k == |pieces| - 1 {
      assert pieces[k..][1..] == [];
    }
  }

  /** Piece `k` holds byte `at - 1`; the first piece also counts as holding byte 0. */
  ghost predicate HoldsByteBefore(pieces: seq<Bytes>, k: nat, at: nat) {
    && k < |pieces|
    && (k > 0 ==> Before(pieces, k) < at)
    && at <= Before(pieces, k) + |pieces[k]|
  }

  lemma {:induction false} SomePieceHolds(pieces: seq<Bytes>, k: nat, at: nat)
    requires k < |pieces| && at <= Before(pieces, k) + |pieces[k]|
    ensures exists j: nat :: HoldsByteBefore(pieces, j, at)
    decreases k
  {
    if k == 0 || Before(pieces, k) < at {
      assert HoldsByteBefore(pieces, k, at);
    } else {
      SomePieceHolds(pieces, k - 1, at);
    }
  }

  lemma {:induction false} BeforeMonotone(pieces: seq<Bytes>, j: nat, k: nat)
    requires j < k < |pieces|
    ensures Before(pieces, j) + |pieces[j]| <= Before(pieces, k)
    decreases k
  {
    if j < k - 1 {
      BeforeMonotone(pieces, j, k - 1);
    }
  }

  /** Bytes left, from byte `at` on, in the buffer that holds byte `at - 1`. */
  ghost function RunFrom(f: Frame, at: nat): nat
    requires ValidFrame(f) && at <= |Flat(f)|
  {
    PieceInFlat(Pieces(f), |Pieces(f)| - 1);
    SomePieceHolds(Pieces(f), |Pieces(f)| - 1, at);
    var k: nat :| HoldsByteBefore(Pieces(f), k, at);
    Before(Pieces(f), k) + |Pieces(f)[k]| - at
  }

  lemma {:induction false} RunInPiece(f: Frame, k: nat, at: nat)
    requires ValidFrame(f) && at <= |Flat(f)| && HoldsByteBefore(Pieces(f), k, at)
    ensures RunFrom(f, at) == Before(Pieces(f), k) + |Pieces(f)[k]| - at
  {
    forall j: nat | HoldsByteBefore(Pieces(f), j, at)
      ensures j == k
    {
      if j < k {
        BeforeMonotone(Pieces(f), j, k);
      } else if k < j {
        BeforeMonotone(Pieces(f), k, j);
      }
    }
  }

  /** Where a reader stands: the last two fields count the fragments not yet entered. */
  datatype Cursor = Cursor(buffer: Bytes, offset: nat, fragmentIndex: u32, remaining: nat)

  /** A cursor in the frame's first buffer; its fragment index is biased so that the first
      increment yields the frame's first fragment. */
  function StartAt(f: Frame, offset: nat): (c: Cursor) {
    match f.ring
    case None => Cursor(f.buffer, offset, 0, 0)
    case Some(r) => Cursor(f.buffer, offset, Sub(r.index, 1), r.count)
  }

  /** The cursor stands at byte `at` of the frame. */
  ghost predicate StandsAt(f: Frame, c: Cursor, at: nat) {
    && ValidFrame(f)
    && c.remaining < |Pieces(f)|
    && var k := |Pieces(f)| - 1 - c.remaining;
    && c.buffer == Pieces(f)[k]
    && c.offset <= |c.buffer|
    && at == Before(Pieces(f), k) + c.offset
    && (f.ring.Some? ==>
          c.fragmentIndex ==
          if k == 0 then Sub(f.ring.value.index, 1) else FragmentSlot(f.ring.value, k - 1))
  }

  lemma {:induction false} StandsInFirstBuffer(f: Frame, at: nat)
    requires ValidFrame(f) && at <= |f.buffer|
    ensures StandsAt(f, StartAt(f, at), at)
    ensures |f.buffer| <= |Flat(f)| && f.buffer == Flat(f)[..|f.buffer|]
    ensures RunFrom(f, at) == |f.buffer| - at
  {
    PieceInFlat(Pieces(f), 0);
    RunInPiece(f, 0, at);
  }

  /** The bytes ahead of a cursor within its buffer are the frame's bytes at its position. */
  lemma {:induction false} AheadInBuffer(f: Frame, c: Cursor, at: nat)
    requires StandsAt(f, c, at)
    ensures at + (|c.buffer| - c.offset) <= |Flat(f)|
    ensures c.buffer[c.offset..] == Flat(f)[at..at + (|c.buffer| - c.offset)]
    ensures c.remaining == 0 ==> at + (|c.buffer| - c.offset) == |Flat(f)|
  {
    var k := |Pieces(f)| - 1 - c.remaining;
    PieceInFlat(Pieces(f), k);
    var b := Before(Pieces(f), k);
    assert Flat(f)[b..b + |c.buffer|][c.offset..] == Flat(f)[at..b + |c.buffer|];
  }

  lemma {:induction false} RunAhead(f: Frame, c: Cursor, at: nat)
    requires StandsAt(f, c, at)
    requires c.offset > 0
    requires at <= |Flat(f)|
    ensures RunFrom(f, at) == |c.buffer| - c.offset
  {
    RunInPiece(f, |Pieces(f)| - 1 - c.remaining, at);
  }

  /** The cursor after its depleted buffer is left for the next fragment. */
  function EnterFragment(elements: seq<Bytes>, c: Cursor): (next: Cursor)
    requires RingSize(|elements|) && c.remaining > 0
  {
    RingSizeBounds(|elements|);
    MaskRange(Add(c.fragmentIndex, 1), |elements|);
    var slot := NextSlot(|elements|, c.fragmentIndex);
    Cursor(elements[slot], 0, slot, c.remaining - 1)
  }

  lemma {:induction false} EnteredFragment(f: Frame, c: Cursor, at: nat)
    requires f.ring.Some? && StandsAt(f, c, at) && c.offset == |c.buffer| && c.remaining > 0
    ensures StandsAt(f, EnterFragment(f.ring.value.elements, c), at)
  {
    var r, k := f.ring.value, |Pieces(f)| - 1 - c.remaining;
    assert NextSlot(|r.elements|, c.fragmentIndex) == FragmentSlot(r, k) by {
      if k == 0 {
        NextSlotAtStart(r);
      } else {
        NextSlotFollows(r, k - 1);
      }
    }
  }

  /** Part way through a read at `at`: the bytes in storage are the frame's and the cursor is
      behind them. */
  ghost predicate Reading(f: Frame, at: nat, got: Bytes, c: Cursor) {
    && StandsAt(f, c, at + |got|)
    && at + |got| <= |Flat(f)|
    && got == Flat(f)[at..at + |got|]
  }

  lemma {:induction false} ReadingCopy(f: Frame, at: nat, got: Bytes, c: Cursor, k: nat)
    requires Reading(f, at, got, c)
    requires c.offset + k <= |c.buffer|
    ensures Reading(f, at, got + c.buffer[c.offset..c.offset + k], c.(offset := c.offset + k))
  {
    var mid := at + |got|;
    AheadInBuffer(f, c, mid);
    assert c.buffer[c.offset..][..k] == c.buffer[c.offset..c.offset + k];
    assert Flat(f)[mid..mid + (|c.buffer| - c.offset)][..k] == Flat(f)[mid..mid + k];
    assert Flat(f)[at..mid] + Flat(f)[mid..mid + k] == Flat(f)[at..mid + k];
  }

  lemma {:induction false} ReadingWhole(f: Frame, at: nat, c: Cursor, k: nat)
    requires Reading(f, at, [], c)
    requires c.offset + k <= |c.buffer|
    ensures Reading(f, at, c.buffer[c.offset..c.offset + k], c.(offset := c.offset + k))
  {
    ReadingCopy(f, at, [], c, k);
    assert [] + c.buffer[c.offset..c.offset + k] == c.buffer[c.offset..c.offset + k];
  }

  /** Copies what the cursor's buffer still has to storage, or enters the next fragment if it has nothing, unless
      the frame ends there. */
  method ReadOn(f: Frame, size: nat, storage0: Bytes, c0: Cursor, ghost at: nat)
    returns (more: bool, storage: Bytes, c: Cursor)
    requires f.ring.Some? && Reading(f, at, storage0, c0) && |storage0| < size
    ensures Reading(f, at, storage, c) && |storage0| <= |storage| <= size
    ensures |storage| == size ==> c.offset > 0
    ensures if more then c.remaining < c0.remaining || (c.remaining == c0.remaining && |storage0| < |storage|)
            else at + |storage| == |Flat(f)|
  {
    more, storage, c := true, storage0, c0;
    var copyLength := Min(size - |storage|, |c.buffer| - c.offset);
    if copyLength > 0 {
      ReadingCopy(f, at, storage, c, copyLength);
      storage := storage + c.buffer[c.offset..c.offset + copyLength];
      c := c.(offset := c.offset + copyLength);
    } else if c.remaining > 0 {
      EnteredFragment(f, c, at + |storage|);
      c := EnterFragment(f.ring.value.elements, c);
    } else {
      AheadInBuffer(f, c, at + |storage|);
      more := false;
    }
  }

  /**
   Returns up to `size` bytes from the cursor on, in place when one buffer holds them all and
   otherwise through storage. The result is the frame's flat bytes at the cursor, as many as there
   are, and the cursor is left right behind them, in the buffer that holds the last one.
   */
  method GetContiguousHeaderLength(f: Frame, start: Cursor, size: nat, ghost at: nat)
    returns (header: Bytes, end: Cursor)
    requires f.ring.Some? && StandsAt(f, start, at) && at <= |Flat(f)|
    ensures |header| == Min(size, |Flat(f)| - at)
    ensures header == Flat(f)[at..at + |header|]
    ensures StandsAt(f, end, at + |header|)
    ensures 0 < size == |header| ==> end.offset > 0
  {
    header, end := [], start;
    var more := true;
    while |header| < size && more
      invariant Reading(f, at, header, end) && |header| <= size
      invariant |header| == size > 0 ==> end.offset > 0
      invariant !more ==> at + |header| == |Flat(f)|
      decreases more, end.remaining, size - |header|
    {
      if header == [] && end.offset + size <= |end.buffer| {
        ReadingWhole(f, at, end, size);
        header := end.buffer[end.offset..end.offset + size];
        end := end.(offset := end.offset + size);
      } else {
        more, header, end := ReadOn(f, size, header, end, at);
      }
    }
  }

  /** Reads a whole header, or fails because the frame ends first. */
  method GetContiguousHeader(f: Frame, start: Cursor, size: nat, ghost at: nat)
    returns (ok: bool, header: Bytes, end: Cursor)
    requires size > 0
    requires f.ring.Some? && StandsAt(f, start, at) && at <= |Flat(f)|
    ensures ok <==> at + size <= |Flat(f)|
    ensures ok ==> header == Flat(f)[at..at + size]
    ensures ok ==> StandsAt(f, end, at + size)
    ensures ok ==> |end.buffer| - end.offset == RunFrom(f, at + size)
  {
    header, end := GetContiguousHeaderLength(f, start, size, at);
    ok := |header| == size;
    if ok {
      RunAhead(f, end, at + size);
    }
  }
}
