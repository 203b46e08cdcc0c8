/**
 Layer 2 forwarding swaps a frame's Ethernet addresses in place. When the header straddles buffers
 it is swapped in storage and written back piece by piece; either way the flat bytes change in the
 twelve address bytes and nowhere else.
 */
module Forward {
  import opened Options
  import opened Words
  import opened Frames
  import opened Headers

  /** The frame's bytes with source and destination address exchanged. */
  function Swapped(bytes: Bytes): (after: Bytes)
    requires |bytes| >= ETHERNET_SIZE
    ensures |after| == |bytes|
  {
    bytes[6..12] + bytes[..6] + bytes[12..]
  }

  lemma {:induction false} SwappedTwice(bytes: Bytes)
    requires |bytes| >= ETHERNET_SIZE
    ensures Swapped(Swapped(bytes)) == bytes
  {
  }

  lemma {:induction false} SwappedPrefix(bytes: Bytes, n: nat)
    requires ETHERNET_SIZE <= n <= |bytes|
    ensures Swapped(bytes) == Swapped(bytes[..n]) + bytes[n..]
  {
  }

  /** The frame with one of its buffers replaced: the first, or a fragment. */
  function SetPiece(f: Frame, k: nat, bytes: Bytes): Frame
    requires k == 0 || (f.ring.Some? && f.ring.value.index < |f.ring.value.elements|
             && k - 1 <= |f.ring.value.elements|)
  {
    if k == 0 then f.(buffer := bytes)
    else
      var r := f.ring.value;
      f.(ring := Some(r.(elements := r.elements[FragmentSlot(r, k - 1) := bytes])))
  }

  lemma {:induction false} SlotsApart(r: FragmentRing, i: nat, j: nat)
    requires r.index < |r.elements| && i < |r.elements| && j < |r.elements| && i != j
    ensures FragmentSlot(r, i) != FragmentSlot(r, j)
  {
  }

  /** The pieces of a frame are determined by it. */
  lemma {:induction false} PiecesUnique(f: Frame, a: seq<Bytes>, b: seq<Bytes>)
    requires ValidFrame(f) && ArePieces(f, a) && ArePieces(f, b)
    ensures a == b
  {
    assert |a| == |b|;
    forall k | 0 <= k < |a|
      ensures a[k] == b[k]
    {
    }
  }

  lemma {:induction false} SetPiecePieces(f: Frame, k: nat, bytes: Bytes)
    requires ValidFrame(f) && k < |Pieces(f)|
    ensures ValidFrame(SetPiece(f, k, bytes))
    ensures Pieces(SetPiece(f, k, bytes)) == Pieces(f)[k := bytes]
  {
    var g := SetPiece(f, k, bytes);
    var pieces := Pieces(f)[k := bytes];
    if f.ring.Some? {
      var r := f.ring.value;
      forall j | 1 <= j < |pieces|
        ensures pieces[j] == g.ring.value.elements[FragmentSlot(g.ring.value, j - 1)]
      {
        if k > 0 && j != k {
          SlotsApart(r, j - 1, k - 1);
        }
      }
    }
    assert ArePieces(g, pieces);
    PiecesUnique(g, pieces, Pieces(g));
  }

  /** Replacing a piece by one of the same length replaces that stretch of the flat bytes. */
  lemma {:induction false} ConcatSet(pieces: seq<Bytes>, k: nat, bytes: Bytes)
    requires k < |pieces| && |bytes| == |pieces[k]|
    ensures Before(pieces, k) + |bytes| <= |Concat(pieces)|
    ensures Concat(pieces[k := bytes])
         == Concat(pieces)[..Before(pieces, k)] + bytes + Concat(pieces)[Before(pieces, k) + |bytes|..]
  {
    var after, b := pieces[k := bytes], Before(pieces, k);
    ConcatTake(pieces, k);
    ConcatTake(after, k);
    assert after[..k] == pieces[..k];
    assert Concat(pieces[k..]) == pieces[k] + Concat(pieces[k..][1..]);
    assert Concat(after[k..]) == bytes + Concat(after[k..][1..]);
    assert after[k..][1..] == pieces[k + 1..] == pieces[k..][1..];
  }

  lemma {:induction false} BeforeSet(pieces: seq<Bytes>, k: nat, bytes: Bytes, j: nat)
    requires k < |pieces| && |bytes| == |pieces[k]| && j <= |pieces|
    ensures Before(pieces[k := bytes], j) == Before(pieces, j)
    decreases j
  {
    if j > 0 {
      BeforeSet(pieces, k, bytes, j - 1);
    }
  }

  /** Same buffers, in number, place and size. */
  ghost predicate SameShape(f: Frame, g: Frame) {
    && ValidFrame(f) && ValidFrame(g) && (f.ring.Some? <==> g.ring.Some?)
    && (f.ring.Some? ==> g.ring.value == f.ring.value.(elements := g.ring.value.elements)
                         && |g.ring.value.elements| == |f.ring.value.elements|)
    && |Pieces(f)| == |Pieces(g)|
    && forall k :: 0 <= k < |Pieces(f)| ==> |Pieces(f)[k]| == |Pieces(g)[k]|
  }

  lemma {:induction false} SetPieceShape(f: Frame, g: Frame, k: nat, bytes: Bytes)
    requires SameShape(f, g) && k < |Pieces(g)| && |bytes| == |Pieces(g)[k]|
    ensures SameShape(f, SetPiece(g, k, bytes)) && Pieces(SetPiece(g, k, bytes)) == Pieces(g)[k := bytes]
  {
    SetPiecePieces(g, k, bytes);
  }

  /** Part way through writing data to the front of a frame: `done` bytes are written and the writer is
      at `offset` in piece `k`, which it has either not begun or finished. */
  ghost predicate Writing(f: Frame, g: Frame, data: Bytes, done: nat, k: nat, offset: nat) {
    && SameShape(f, g) && k < |Pieces(g)|
    && done <= |data| <= |Flat(f)| && done == Before(Pieces(f), k) + offset
    && Flat(g) == data[..done] + Flat(f)[done..]
    && (offset == 0 || offset == |Pieces(g)[k]| || done == |data|)
  }

  lemma {:induction false} BeforeSame(a: seq<Bytes>, b: seq<Bytes>, k: nat)
    requires |a| == |b| && k <= |a| && forall j :: 0 <= j < |a| ==> |a[j]| == |b[j]|
    ensures Before(a, k) == Before(b, k)
    decreases k
  {
    if k > 0 {
      BeforeSame(a, b, k - 1);
    }
  }

  lemma {:induction false} WriteStart(f: Frame, data: Bytes)
    requires ValidFrame(f) && |data| <= |Flat(f)|
    ensures Writing(f, f, data, 0, 0, 0)
  {
    assert data[..0] + Flat(f)[0..] == Flat(f);
  }

  lemma {:induction false} WriteAdvance(f: Frame, g: Frame, data: Bytes, done: nat, k: nat, offset: nat)
    requires Writing(f, g, data, done, k, offset) && done < |data| && offset >= |Pieces(g)[k]|
    ensures k + 1 < |Pieces(g)| && Writing(f, g, data, done, k + 1, 0)
  {
    PieceInFlat(Pieces(f), k);
  }

  lemma {:induction false} WriteStep(f: Frame, g: Frame, data: Bytes, done: nat, k: nat, n: nat, piece: Bytes)
    requires Writing(f, g, data, done, k, 0) && piece == Pieces(g)[k]
    requires n == Min(|data| - done, |piece|)
    ensures var h := SetPiece(g, k, data[done..done + n] + piece[n..]);
            Writing(f, h, data, done + n, k, n)
  {
    var bytes := data[done..done + n] + piece[n..];
    SetPieceShape(f, g, k, bytes);
    BeforeSame(Pieces(f), Pieces(g), k);
    PieceInFlat(Pieces(g), k);
    ConcatSet(Pieces(g), k, bytes);
    WrittenBytes(Flat(f), Flat(g), data, done, piece, n);
  }

  lemma {:induction false} WrittenBytes(flat: Bytes, now: Bytes, data: Bytes, done: nat, piece: Bytes, n: nat)
    requires done + n <= |data| <= |flat| && n <= |piece| && done + |piece| <= |flat|
    requires now == data[..done] + flat[done..] && now[done..done + |piece|] == piece
    ensures now[..done] + (data[done..done + n] + piece[n..]) + now[done + |piece|..]
            == data[..done + n] + flat[done + n..]
  {
    var left := now[..done] + (data[done..done + n] + piece[n..]) + now[done + |piece|..];
    var right := data[..done + n] + flat[done + n..];
    assert |left| == |right|;
    forall i | 0 <= i < |left|
      ensures left[i] == right[i]
    {
      if done + n <= i < done + |piece| {
        assert left[i] == piece[i - done] == now[done..done + |piece|][i - done] == now[i];
      }
    }
  }

  /** The writer is in the frame's first buffer, or at a fragment index; before the first fragment that is one
      too low. */
  ghost predicate WriterAt(f: Frame, k: nat, inFrame: bool, fragmentIndex: u32)
    requires ValidFrame(f) && f.ring.Some? && k <= f.ring.value.count
  {
    && (inFrame <==> k == 0)
    && fragmentIndex == if k == 0 then Sub(f.ring.value.index, 1) else FragmentSlot(f.ring.value, k - 1)
  }

  function BufferAt(g: Frame, inFrame: bool, fragmentIndex: nat): Bytes
    requires inFrame || (g.ring.Some? && fragmentIndex < |g.ring.value.elements|)
  {
    if inFrame then g.buffer else g.ring.value.elements[fragmentIndex]
  }

  /** Copies what fits into the buffer the writer is in. */
  method WriteBuffer(g: Frame, data: Bytes, inFrame: bool, fragmentIndex: u32, done: nat, ghost f: Frame, ghost k: nat)
    returns (h: Frame, n: nat)
    requires Writing(f, g, data, done, k, 0) && f.ring.Some? && WriterAt(f, k, inFrame, fragmentIndex)
    requires inFrame || fragmentIndex < |g.ring.value.elements|
    requires BufferAt(g, inFrame, fragmentIndex) == Pieces(g)[k]
    ensures n == Min(|data| - done, |Pieces(g)[k]|) && Writing(f, h, data, done + n, k, n)
  {
    var buffer := BufferAt(g, inFrame, fragmentIndex);
    n := Min(|data| - done, |buffer|);
    WriteStep(f, g, data, done, k, n, buffer);
    var bytes := data[done..done + n] + buffer[n..];
    h := if inFrame then g.(buffer := bytes)
         else g.(ring := Some(g.ring.value.(elements := g.ring.value.elements[fragmentIndex := bytes])));
    assert h == SetPiece(g, k, bytes);
  }

  lemma {:induction false} WriterBuffer(
    f: Frame, g: Frame, data: Bytes, done: nat, k: nat, offset: nat, inFrame: bool, fragmentIndex: u32)
    requires Writing(f, g, data, done, k, offset) && f.ring.Some? && WriterAt(f, k, inFrame, fragmentIndex)
    ensures inFrame || fragmentIndex < |g.ring.value.elements|
    ensures BufferAt(g, inFrame, fragmentIndex) == Pieces(g)[k]
  {
  }

  /** Where the writer is and how much it has written. */
  datatype Writer = Writer(inFrame: bool, fragmentIndex: u32, offset: nat, done: nat)

  ghost predicate WritingAt(f: Frame, g: Frame, data: Bytes, k: nat, w: Writer) {
    && f.ring.Some? && Writing(f, g, data, w.done, k, w.offset) && WriterAt(f, k, w.inFrame, w.fragmentIndex)
  }

  /** Writes to the buffer the writer is in, or goes on to the next one. */
  method WriteOn(f: Frame, g0: Frame, data: Bytes, w0: Writer, ghost k0: nat)
    returns (g: Frame, w: Writer, ghost k: nat)
    requires WritingAt(f, g0, data, k0, w0) && w0.done < |data|
    ensures WritingAt(f, g, data, k, w) && k0 <= k < |Pieces(f)| && (k == k0 ==> w.done > w0.done)
  {
    g, w, k := g0, w0, k0;
    WriterBuffer(f, g, data, w.done, k, w.offset, w.inFrame, w.fragmentIndex);
    if w.offset >= |BufferAt(g, w.inFrame, w.fragmentIndex)| {
      WriteAdvance(f, g, data, w.done, k, w.offset);
      var next := NextFragmentIndex(f, w.fragmentIndex, k);
      w, k := Writer(false, next, 0, w.done), k + 1;
    } else {
      var n;
      g, n := WriteBuffer(g, data, w.inFrame, w.fragmentIndex, w.done, f, k);
      w := w.(offset := n, done := w.done + n);
    }
  }

  /** Writes data over the front of a frame, through its fragments. */
  method CopyMemoryToFrame(f: Frame, data: Bytes) returns (g: Frame)
    requires ValidFrame(f) && f.ring.Some? && |data| <= |Flat(f)|
    ensures SameShape(f, g) && Flat(g) == data + Flat(f)[|data|..]
  {
    g := f;
    var w := Writer(true, Sub(f.ring.value.index, 1), 0, 0);
    ghost var k: nat := 0;
    WriteStart(f, data);
    while w.done < |data|
      invariant WritingAt(f, g, data, k, w) && k <= |Pieces(f)|
      decreases |Pieces(f)| - k, |data| - w.done
    {
      g, w, k := WriteOn(f, g, data, w, k);
    }
    assert data[..w.done] == data;
  }

  /** The index after a fragment index, biased or not. */
  method NextFragmentIndex(f: Frame, fragmentIndex: u32, ghost k: nat) returns (next: u32)
    requires ValidFrame(f) && f.ring.Some? && k < f.ring.value.count
    requires fragmentIndex == if k == 0 then Sub(f.ring.value.index, 1) else FragmentSlot(f.ring.value, k - 1)
    ensures next == FragmentSlot(f.ring.value, k)
  {
    var r := f.ring.value;
    if k == 0 {
      NextSlotAtStart(r);
    } else {
      NextSlotFollows(r, k - 1);
    }
    RingSizeBounds(|r.elements|);
    next := NextSlot(|r.elements|, fragmentIndex);
  }

  /** Forwards a frame with a whole Ethernet header, read by the parser into `header`. */
  method SwapAddresses(f: Frame, header: Bytes) returns (g: Frame)
    requires ValidFrame(f) && |Flat(f)| >= ETHERNET_SIZE && header == Flat(f)[..ETHERNET_SIZE]
    ensures SameShape(f, g) && Flat(g) == Swapped(Flat(f))
  {
    SwappedPrefix(Flat(f), ETHERNET_SIZE);
    var swapped := Swapped(header);
    if |f.buffer| >= ETHERNET_SIZE {
      WriteStart(f, swapped);
      WriteStep(f, f, swapped, 0, 0, ETHERNET_SIZE, f.buffer);
      assert swapped[0..14] == swapped == swapped[..14];
      g := f.(buffer := swapped + f.buffer[ETHERNET_SIZE..]);
    } else {
      StraddlesOnlyFragments(f);
      g := CopyMemoryToFrame(f, swapped);
    }
  }

  lemma {:induction false} StraddlesOnlyFragments(f: Frame)
    requires ValidFrame(f) && |f.buffer| < |Flat(f)|
    ensures f.ring.Some?
  {
    PieceInFlat(Pieces(f), 0);
  }
}
