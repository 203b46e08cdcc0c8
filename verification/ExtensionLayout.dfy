/**
 Descriptor extension layout. Extensions are sorted by falling alignment and laid out behind the
 descriptor in two passes: first those that fit the alignment the offset happens to have, then
 the rest with padding. Offsets are computed in 32 bits and kept in 16.
 */
module ExtensionLayout {
  import opened Words

  const MAXUINT16: nat := 0xFFFF

  /** An alignment: a power of two in a byte. */
  ghost predicate IsAlignment(a: nat) {
    exists k: nat :: k <= 7 && a == Pow2(k)
  }

  datatype Entry = Entry(
    name: string, enabled: bool, registered: bool, internal: bool,
    size: nat, alignment: nat, placed: bool, offset: nat)

  /** Rounds up to a multiple, as masking off the low bits does. */
  function AlignUp(n: nat, a: nat): nat
    requires a > 0
  {
    n + a - 1 - (n + a - 1) % a
  }

  lemma {:induction false} AlignUpMeans(n: nat, a: nat)
    requires a > 0
    ensures n <= AlignUp(n, a) < n + a && AlignUp(n, a) % a == 0
  {
    var m := n + a - 1;
    var q := m / a;
    assert m - m % a == a * q;
    ModUnique(a * q, a, q, 0);
    ModRange(m, a);
  }

  lemma {:induction false} AlignmentBounds(a: nat)
    requires IsAlignment(a)
    ensures 1 <= a <= 128
  {
    var k: nat :| k <= 7 && a == Pow2(k);
    Pow2Monotone(k, 7);
    assert Pow2(7) == 128;
  }

  /** Of two alignments the smaller divides the larger. */
  lemma {:induction false} AlignmentDivides(n: nat, a: nat, b: nat)
    requires IsAlignment(a) && IsAlignment(b) && a <= b && n % b == 0
    ensures a > 0 && n % a == 0
  {
    AlignmentBounds(a);
    var j: nat :| j <= 7 && a == Pow2(j);
    var k: nat :| k <= 7 && b == Pow2(k);
    if j <= k {
      Pow2Split(j, k);
      ModMod(n, a, Pow2(k - j));
    } else {
      Pow2Monotone(k, j);
    }
  }

  lemma {:induction false} MultiplesAdd(m: nat, n: nat, a: nat)
    requires a > 0 && m % a == 0 && n % a == 0
    ensures (m + n) % a == 0
  {
    var p, q := m / a, n / a;
    assert m == a * p && n == a * q;
    assert a * (p + q) == a * p + a * q;
    ModUnique(m + n, a, p + q, 0);
  }

  /** The largest power of two that divides a positive offset. */
  function LowestBit(n: nat): (b: nat)
    requires n > 0
    ensures b > 0
    decreases n
  {
    if n % 2 == 1 then 1 else 2 * LowestBit(n / 2)
  }

  lemma {:induction false} LowestBitDivides(n: nat)
    requires n > 0
    ensures n % LowestBit(n) == 0
    ensures exists k: nat :: LowestBit(n) == Pow2(k)
    decreases n
  {
    if n % 2 == 1 {
      assert LowestBit(n) == Pow2(0);
    } else {
      LowestBitDivides(n / 2);
      var b := LowestBit(n / 2);
      var k: nat :| b == Pow2(k);
      assert LowestBit(n) == Pow2(k + 1);
      var q := (n / 2) / b;
      assert n / 2 == b * q;
      assert n == (2 * b) * q;
      ModUnique(n, 2 * b, q, 0);
    }
  }

  /** The alignment an offset starts out with, cut to eight bits; zero if it is 256 or more. */
  function InitialAlignment(offset: u32): (a: nat) {
    if offset == 0 then 0x80 else LowestBit(offset) % 256
  }

  lemma {:induction false} Pow2Byte(k: nat)
    ensures k <= 7 ==> Pow2(k) < 256
    ensures k > 7 ==> Pow2(k) % 256 == 0
  {
    assert Pow2(8) == 256;
    if k <= 7 {
      Pow2Monotone(k, 7);
    } else {
      Pow2Split(8, k);
      ModUnique(Pow2(k), 256, Pow2(k - 8), 0);
    }
  }

  lemma {:induction false} LargestAlignment()
    ensures IsAlignment(0x80)
  {
    assert Pow2(4) == 16;
    assert 0x80 == Pow2(7);
  }

  /** The cut leaves either no alignment, which holds nothing back but the first pass, or one the
      offset really has. */
  lemma {:induction false} InitialAlignmentHolds(offset: u32)
    ensures var a := InitialAlignment(offset); a == 0 || (IsAlignment(a) && offset % a == 0)
  {
    if offset == 0 {
      LargestAlignment();
    } else {
      LowestBitDivides(offset);
      var b := LowestBit(offset);
      var k: nat :| b == Pow2(k);
      Pow2Byte(k);
      if k <= 7 {
        assert b % 256 == b;
      }
    }
  }

  // ---- Sorting ----

  ghost predicate Falling(entries: seq<Entry>) {
    forall i, j :: 0 <= i < j < |entries| ==> entries[i].alignment >= entries[j].alignment
  }

  function InsertByAlignment(sorted: seq<Entry>, e: Entry): seq<Entry> {
    if sorted == [] || e.alignment > sorted[0].alignment then [e] + sorted
    else [sorted[0]] + InsertByAlignment(sorted[1..], e)
  }

  lemma {:induction false} InsertKeeps(sorted: seq<Entry>, e: Entry)
    ensures multiset(InsertByAlignment(sorted, e)) == multiset(sorted) + multiset{e}
    ensures |InsertByAlignment(sorted, e)| == |sorted| + 1
  {
    if sorted != [] && e.alignment <= sorted[0].alignment {
      InsertKeeps(sorted[1..], e);
      assert sorted == [sorted[0]] + sorted[1..];
    }
  }

  lemma {:induction false} InsertSorts(sorted: seq<Entry>, e: Entry)
    requires Falling(sorted)
    ensures Falling(InsertByAlignment(sorted, e))
    ensures forall x :: x in InsertByAlignment(sorted, e) ==> x == e || x in sorted
  {
    if sorted != [] && e.alignment <= sorted[0].alignment {
      InsertSorts(sorted[1..], e);
      var rest := InsertByAlignment(sorted[1..], e);
      forall k | 0 <= k < |rest|
        ensures rest[k].alignment <= sorted[0].alignment
      {
        assert rest[k] in rest;
      }
    }
  }

  /** Sorts by falling alignment; equal alignments in any order. */
  method SortByAlignment(entries: seq<Entry>) returns (sorted: seq<Entry>)
    ensures Falling(sorted) && multiset(sorted) == multiset(entries) && |sorted| == |entries|
  {
    sorted := [];
    var i := 0;
    while i < |entries|
      invariant 0 <= i <= |entries| && |sorted| == i && Falling(sorted)
      invariant multiset(sorted) == multiset(entries[..i])
    {
      InsertSorts(sorted, entries[i]);
      InsertKeeps(sorted, entries[i]);
      assert entries[..i + 1] == entries[..i] + [entries[i]];
      sorted := InsertByAlignment(sorted, entries[i]);
      i := i + 1;
    }
    assert entries[..|entries|] == entries;
  }

  // ---- Laying out ----

  ghost predicate ValidEntry(e: Entry) {
    IsAlignment(e.alignment) && e.size < 256
  }

  ghost predicate ValidEntries(entries: seq<Entry>) {
    forall i :: 0 <= i < |entries| ==> ValidEntry(entries[i])
  }

  /** A placed entry is enabled, aligned, not before the base, and ends by `end`. */
  ghost predicate Fits(e: Entry, base: nat, end: nat, max: nat) {
    e.placed ==>
      && e.enabled && e.alignment > 0 && e.offset % e.alignment == 0 && e.alignment <= max
      && base <= e.offset && e.offset + e.size <= end
  }

  ghost predicate Apart(a: Entry, b: Entry) {
    a.placed && b.placed ==> a.offset + a.size <= b.offset || b.offset + b.size <= a.offset
  }

  /** Part way through: what is placed fits below the offset, and the offset has the current alignment. */
  ghost predicate Laying(entries: seq<Entry>, base: nat, offset: nat, current: nat, max: nat) {
    && (forall i :: 0 <= i < |entries| ==> Fits(entries[i], base, offset, max))
    && (forall i, j :: 0 <= i < j < |entries| ==> Apart(entries[i], entries[j]))
    && base <= offset
    && (current == 0 || (IsAlignment(current) && current > 0 && offset % current == 0))
    && IsAlignment(max)
  }

  function Placed(e: Entry, offset: nat): Entry {
    e.(placed := true, offset := offset)
  }

  function Larger(a: nat, b: nat): nat {
    if a < b then b else a
  }

  lemma {:induction false} PlaceKeeps(entries: seq<Entry>, base: nat, offset: nat, current: nat, max: nat, i: nat)
    requires Laying(entries, base, offset, current, max) && i < |entries| && ValidEntry(entries[i])
    requires entries[i].enabled && !entries[i].placed && entries[i].alignment > 0 && offset % entries[i].alignment == 0
    ensures Laying(entries[i := Placed(entries[i], offset)], base,
            offset + AlignUp(entries[i].size, entries[i].alignment),
                   entries[i].alignment, Larger(max, entries[i].alignment))
  {
    var e := entries[i];
    AlignUpMeans(e.size, e.alignment);
    MultiplesAdd(offset, AlignUp(e.size, e.alignment), e.alignment);
    var next, end := entries[i := Placed(e, offset)], offset + AlignUp(e.size, e.alignment);
    forall j | 0 <= j < |next|
      ensures Fits(next[j], base, end, Larger(max, e.alignment))
    {
      assert Fits(entries[j], base, offset, max);
    }
    forall j, k | 0 <= j < k < |next|
      ensures Apart(next[j], next[k])
    {
      assert Apart(entries[j], entries[k]);
      assert Fits(entries[j], base, offset, max) && Fits(entries[k], base, offset, max);
    }
  }

  /** Padding moves the offset up to an alignment and leaves the rest alone. */
  lemma {:induction false} PadKeeps(entries: seq<Entry>, base: nat, offset: nat, current: nat, max: nat, a: nat)
    requires Laying(entries, base, offset, current, max) && IsAlignment(a) && a > 0
    ensures Laying(entries, base, AlignUp(offset, a), a, max)
    ensures AlignUp(offset, a) % a == 0
  {
    AlignUpMeans(offset, a);
    forall j | 0 <= j < |entries|
      ensures Fits(entries[j], base, AlignUp(offset, a), max)
    {
      assert Fits(entries[j], base, offset, max);
    }
  }

  // ---- Bounds ----

  ghost function CountPlaced(entries: seq<Entry>): (n: nat)
    ensures n <= |entries|
  {
    if entries == [] then 0 else (if entries[0].placed then 1 else 0) + CountPlaced(entries[1..])
  }

  lemma {:induction false} CountPlace(entries: seq<Entry>, i: nat, offset: nat)
    requires i < |entries| && !entries[i].placed
    ensures CountPlaced(entries[i := Placed(entries[i], offset)]) == CountPlaced(entries) + 1 <= |entries|
  {
    var next := entries[i := Placed(entries[i], offset)];
    if i == 0 {
      assert next[1..] == entries[1..];
    } else {
      CountPlace(entries[1..], i - 1, offset);
      assert next[1..] == entries[1..][i - 1 := Placed(entries[i], offset)];
    }
  }

  lemma {:induction false} CountNone(entries: seq<Entry>)
    requires forall i :: 0 <= i < |entries| ==> !entries[i].placed
    ensures CountPlaced(entries) == 0
  {
    if entries != [] {
      CountNone(entries[1..]);
    }
  }

  const ROOM: nat := 512

  /** Same extensions, apart from where they are placed. */
  ghost predicate SameButPlaced(a: seq<Entry>, b: seq<Entry>) {
    |a| == |b| && forall i :: 0 <= i < |a| ==> b[i] == a[i].(placed := b[i].placed, offset := b[i].offset)
  }

  /** What both passes keep, for any base; only a base that fits 16 bits keeps the layout sound. */
  ghost predicate Passing(sorted: seq<Entry>, entries: seq<Entry>, base: u32, offset: nat, current: nat, max: nat) {
    && ValidEntries(sorted) && SameButPlaced(sorted, entries) && IsAlignment(max) && offset < WORD
    && (forall i :: 0 <= i < |entries| && entries[i].placed ==> entries[i].enabled && entries[i].offset <= MAXUINT16)
    && (base <= MAXUINT16 ==>
          && Laying(entries, base, offset, current, max)
          && offset <= MAXUINT16 + 384
          && offset <= base + ROOM * CountPlaced(entries))
  }

  lemma {:induction false} PassingStart(entries: seq<Entry>, base: u32, max: nat)
    requires ValidEntries(entries) && IsAlignment(max) && forall i :: 0 <= i < |entries| ==> !entries[i].placed
    ensures Passing(entries, entries, base, base, InitialAlignment(base), max)
  {
    InitialAlignmentHolds(base);
    CountNone(entries);
  }

  lemma {:induction false} PassingPlace(
    sorted: seq<Entry>, entries: seq<Entry>, base: u32, offset: nat, current: nat, max: nat, i: nat, at: nat, mid: nat)
    requires Passing(sorted, entries, base, offset, current, max) && i < |entries|
    requires entries[i].enabled && !entries[i].placed && at <= MAXUINT16
    requires base <= MAXUINT16 ==>
               && at < offset + 128 && Laying(entries, base, at, mid, max)
               && entries[i].alignment > 0 && at % entries[i].alignment == 0
    ensures entries[i].alignment > 0
    ensures Passing(sorted, entries[i := Placed(entries[i], at)], base,
                    at + AlignUp(entries[i].size, entries[i].alignment), entries[i].alignment,
                    Larger(max, entries[i].alignment))
  {
    var e := entries[i];
    assert ValidEntry(sorted[i]);
    AlignmentBounds(e.alignment);
    AlignUpMeans(e.size, e.alignment);
    CountPlace(entries, i, at);
    if base <= MAXUINT16 {
      PlaceKeeps(entries, base, at, mid, max, i);
    }
  }

  /** Every enabled extension has its place, aligned, behind the base and inside the size, apart from
      the others, and the size suits every alignment. */
  ghost predicate LaidOut(entries: seq<Entry>, base: nat, size: nat) {
    && (forall i :: 0 <= i < |entries| && entries[i].enabled ==>
          && entries[i].placed && entries[i].alignment > 0 && entries[i].offset % entries[i].alignment == 0
          && base <= entries[i].offset && entries[i].offset + entries[i].size <= size
          && size % entries[i].alignment == 0)
    && (forall i, j :: 0 <= i < j < |entries| && entries[i].enabled && entries[j].enabled ==>
       Apart(entries[i], entries[j]))
  }

  ghost predicate NoneEnabled(entries: seq<Entry>) {
    forall i :: 0 <= i < |entries| ==> !entries[i].enabled
  }

  lemma {:induction false} LaidOutExactly(
    sorted: seq<Entry>, entries: seq<Entry>, base: u32, offset: nat, current: nat, max: nat)
    requires Passing(sorted, entries, base, offset, current, max)
    requires forall i :: 0 <= i < |entries| && entries[i].enabled ==> entries[i].placed
    ensures max > 0
    ensures LaidOut(entries, base, AlignUp(offset, max) % WORD) <==> base <= MAXUINT16 || NoneEnabled(entries)
  {
    AlignmentBounds(max);
    AlignUpMeans(offset, max);
    var size := AlignUp(offset, max);
    if base <= MAXUINT16 {
      assert size % WORD == size;
      forall i | 0 <= i < |entries| && entries[i].enabled
        ensures entries[i].alignment > 0 && size % entries[i].alignment == 0
        ensures entries[i].offset % entries[i].alignment == 0
        ensures base <= entries[i].offset && entries[i].offset + entries[i].size <= size
      {
        assert Fits(entries[i], base, offset, max);
        assert ValidEntry(sorted[i]);
        AlignmentDivides(size, entries[i].alignment, max);
      }
    } else if !NoneEnabled(entries) {
      var i :| 0 <= i < |entries| && entries[i].enabled;
      assert entries[i].offset <= MAXUINT16 < base;
    }
  }

  /** Whether an extension's turn has come, and the spot it gets, in 32-bit arithmetic. */
  predicate Turn(e: Entry, padded: bool, current: nat) {
    e.enabled && !e.placed && (padded || e.alignment <= current)
  }

  function Spot(e: Entry, padded: bool, offset: nat): nat
    requires padded ==> e.alignment > 0
  {
    if padded then AlignUp(offset, e.alignment) % WORD else offset
  }

  /** Where a pass stands, or that it ran out of room. */
  datatype Lay = Overflow | Lay(entries: seq<Entry>, offset: nat, current: nat, max: nat)

  ghost predicate Aligned(entries: seq<Entry>) {
    forall i :: 0 <= i < |entries| ==> entries[i].alignment > 0
  }

  ghost function LayStep(lay: Lay, i: nat, padded: bool): (next: Lay)
    requires lay.Lay? && i < |lay.entries| && Aligned(lay.entries)
    ensures next.Lay? ==> |next.entries| == |lay.entries| && Aligned(next.entries)
  {
    var e := lay.entries[i];
    if !Turn(e, padded, lay.current) then lay
    else
      var at := Spot(e, padded, lay.offset);
      if at > MAXUINT16 then Overflow
      else Lay(lay.entries[i := Placed(e, at)], at + AlignUp(e.size, e.alignment), e.alignment,
        Larger(lay.max, e.alignment))
  }

  /** The rest of a pass, from extension `i` on. */
  ghost function LayRest(lay: Lay, i: nat, padded: bool): (end: Lay)
    requires lay.Lay? ==> i <= |lay.entries| && Aligned(lay.entries)
    ensures end.Lay? ==> lay.Lay? && |end.entries| == |lay.entries| && Aligned(end.entries)
    decreases if lay.Lay? then |lay.entries| - i else 0
  {
    if lay.Overflow? || i == |lay.entries| then lay else LayRest(LayStep(lay, i, padded), i + 1, padded)
  }

  /** Both passes over sorted extensions. */
  ghost function Layout(sorted: seq<Entry>, base: u32, baseAlignment: nat): Lay
    requires Aligned(sorted)
  {
    LayRest(LayRest(Lay(sorted, base, InitialAlignment(base), baseAlignment), 0, false), 0, true)
  }

  lemma {:induction false} EntriesAligned(entries: seq<Entry>)
    requires ValidEntries(entries)
    ensures Aligned(entries)
  {
    forall i | 0 <= i < |entries|
      ensures entries[i].alignment > 0
    {
      assert ValidEntry(entries[i]);
      AlignmentBounds(entries[i].alignment);
    }
  }

  lemma {:induction false} SpotHolds(
    sorted: seq<Entry>, entries: seq<Entry>, base: u32, offset: nat, current: nat, max: nat, i: nat, padded: bool)
    requires Passing(sorted, entries, base, offset, current, max) && i < |entries| && Turn(entries[i], padded, current)
    ensures entries[i].alignment > 0
    ensures base <= MAXUINT16 ==>
              var at := Spot(entries[i], padded, offset);
              && at < offset + 128 && Laying(entries, base, at, if padded then entries[i].alignment else current, max)
              && at % entries[i].alignment == 0
  {
    var e := entries[i];
    assert ValidEntry(sorted[i]);
    AlignmentBounds(e.alignment);
    if base <= MAXUINT16 {
      if padded {
        AlignUpMeans(offset, e.alignment);
        NoWrap(offset, e.alignment);
        PadKeeps(entries, base, offset, current, max, e.alignment);
      } else {
        AlignmentDivides(offset, e.alignment, current);
      }
    }
  }

  lemma {:induction false} NoWrap(offset: nat, a: nat)
    requires 0 < a <= 128 && offset <= MAXUINT16 + 384
    ensures AlignUp(offset, a) % WORD == AlignUp(offset, a)
  {
    AlignUpMeans(offset, a);
  }

  class ExtensionSet {
    var entries: seq<Entry>
    var layoutAssigned: bool

    ghost predicate Valid()
      reads this
    {
      ValidEntries(entries) && (!layoutAssigned ==> forall i :: 0 <= i < |entries| ==> !entries[i].placed)
    }

    constructor (entries: seq<Entry>)
      requires ValidEntries(entries) && forall i :: 0 <= i < |entries| ==> !entries[i].placed
      ensures Valid() && this.entries == entries && !layoutAssigned
    {
      this.entries, layoutAssigned := entries, false;
    }

    /** The first entry of a name, or the end of the list. */
    method FindEntry(name: string) returns (k: nat)
      ensures k <= |entries| && (k < |entries| ==> entries[k].name == name)
      ensures forall j :: 0 <= j < k ==> entries[j].name != name
    {
      k := 0;
      while k < |entries| && entries[k].name != name
        invariant 0 <= k <= |entries|
        invariant forall j :: 0 <= j < k ==> entries[j].name != name
      {
        k := k + 1;
      }
    }

    /** The offset of an enabled extension, once the layout is assigned; with distinct names it is the
        offset that name was given, wherever sorting has moved its entry. */
    method GetExtension(name: string, ghost i: nat) returns (offset: nat)
      requires layoutAssigned && i < |entries| && entries[i].name == name
      requires forall j :: 0 <= j < |entries| && j != i ==> entries[j].name != name
      requires entries[i].enabled && entries[i].placed
      ensures offset == entries[i].offset
    {
      var k := FindEntry(name);
      offset := entries[k].offset;
    }

    method ResetLayout()
      modifies this
      ensures !layoutAssigned && SameButPlaced(old(entries), entries)
      ensures forall i :: 0 <= i < |entries| ==> !entries[i].placed
    {
      var i := 0;
      while i < |entries|
        invariant 0 <= i <= |entries| && SameButPlaced(old(entries), entries)
        invariant forall j :: 0 <= j < i ==> !entries[j].placed
      {
        entries := entries[i := entries[i].(placed := false)];
        i := i + 1;
      }
      layoutAssigned := false;
    }

    /** One extension in one pass: skipped, placed, or out of room. */
    method LayOne(i: nat, padded: bool, base: u32, offset0: nat, current0: nat, max0: nat, ghost sorted: seq<Entry>)
      returns (ok: bool, offset: nat, current: nat, max: nat)
      requires i < |entries| && Passing(sorted, entries, base, offset0, current0, max0) && Aligned(entries)
      modifies `entries
      ensures SameButPlaced(sorted, entries) && |entries| == |old(entries)|
      ensures ok ==> Passing(sorted, entries, base, offset, current, max)
      ensures ok && padded ==> entries[i].enabled ==> entries[i].placed
      ensures forall j :: 0 <= j < |entries| && j != i ==> entries[j] == old(entries)[j]
      ensures !ok ==> base + ROOM * |entries| > MAXUINT16
      ensures LayStep(Lay(old(entries), offset0, current0, max0), i, padded)
           == if ok then Lay(entries, offset, current, max) else Overflow
    {
      ok, offset, current, max := true, offset0, current0, max0;
      assert ValidEntry(sorted[i]);
      AlignmentBounds(entries[i].alignment);
      if Turn(entries[i], padded, current) {
        var at := Spot(entries[i], padded, offset);
        SpotHolds(sorted, entries, base, offset, current, max, i, padded);
        CountPlace(entries, i, at);
        if at > MAXUINT16 {
          ok := false;
          return;
        }
        PassingPlace(sorted, entries, base, offset0, current0, max0, i, at,
                     if padded then entries[i].alignment else current0);
        max := Larger(max, entries[i].alignment);
        offset := at + AlignUp(entries[i].size, entries[i].alignment);
        current := entries[i].alignment;
        entries := entries[i := Placed(entries[i], at)];
      }
    }

    /** One pass over all extensions. */
    method LayPass(padded: bool, base: u32, offset0: nat, current0: nat, max0: nat, ghost sorted: seq<Entry>)
      returns (ok: bool, offset: nat, current: nat, max: nat)
      requires Passing(sorted, entries, base, offset0, current0, max0) && Aligned(entries)
      modifies `entries
      ensures LayRest(Lay(old(entries), offset0, current0, max0), 0, padded)
           == if ok then Lay(entries, offset, current, max) else Overflow
      ensures ok ==> Passing(sorted, entries, base, offset, current, max)
      ensures ok && padded ==> forall j :: 0 <= j < |entries| && entries[j].enabled ==> entries[j].placed
      ensures SameButPlaced(sorted, entries)
      ensures !ok ==> base + ROOM * |entries| > MAXUINT16
    {
      ok, offset, current, max := true, offset0, current0, max0;
      var i := 0;
      while i < |entries|
        invariant 0 <= i <= |entries| && Passing(sorted, entries, base, offset, current, max)
        invariant padded ==> forall j :: 0 <= j < i && entries[j].enabled ==> entries[j].placed
        invariant Aligned(entries)
        invariant LayRest(Lay(old(entries), offset0, current0, max0), 0, padded)
               == LayRest(Lay(entries, offset, current, max), i, padded)
      {
        ok, offset, current, max := LayOne(i, padded, base, offset, current, max, sorted);
        if !ok {
          return;
        }
        i := i + 1;
      }
    }

    /** Lays the extensions out, or resets and reports an overflow. A success is sound exactly when
        the base fits 16 bits or there is nothing to lay out. */
    method AssignLayout(base: u32, baseAlignment: nat)
      returns (ok: bool, size: u32, alignment: nat, ghost sorted: seq<Entry>)
      requires Valid() && !layoutAssigned && IsAlignment(baseAlignment)
      requires forall i :: 0 <= i < |entries| && entries[i].enabled ==> entries[i].internal || entries[i].registered
      modifies this
      ensures Valid() && layoutAssigned == ok
      ensures Falling(sorted) && multiset(sorted) == multiset(old(entries)) && SameButPlaced(sorted, entries)
      ensures Aligned(sorted) && (ok <==> Layout(sorted, base, baseAlignment).Lay?)
      ensures ok ==> var end := Layout(sorted, base, baseAlignment);
                entries == end.entries && alignment == end.max && end.max > 0
                  && size == AlignUp(end.offset, end.max) % WORD
      ensures ok ==> (LaidOut(entries, base, size) <==> base <= MAXUINT16 || NoneEnabled(entries))
      ensures ok ==> alignment > 0 && IsAlignment(alignment)
      ensures base + ROOM * |entries| <= MAXUINT16 ==> ok
    {
      var unsorted := entries;
      var s := SortByAlignment(unsorted);
      SortedStays(unsorted, s);
      sorted, entries := s, s;
      var offset, current, max := base, InitialAlignment(base), baseAlignment;
      PassingStart(entries, base, max);
      EntriesAligned(entries);
      ok, offset, current, max := LayPass(false, base, offset, current, max, sorted);
      if ok {
        ok, offset, current, max := LayPass(true, base, offset, current, max, sorted);
      }
      if !ok {
        ResetLayout();
        return false, 0, 1, sorted;
      }
      LaidOutExactly(sorted, entries, base, offset, current, max);
      size := AlignUp(offset, max) % WORD;
      alignment := max;
      layoutAssigned := true;
    }
  }

  lemma {:induction false} SortedStays(entries: seq<Entry>, sorted: seq<Entry>)
    requires multiset(sorted) == multiset(entries)
    ensures ValidEntries(entries) ==> ValidEntries(sorted)
    ensures (forall i :: 0 <= i < |entries| ==> !entries[i].placed) ==>
              forall i :: 0 <= i < |sorted| ==> !sorted[i].placed
  {
    forall i | 0 <= i < |sorted|
      ensures sorted[i] in entries
    {
      assert sorted[i] in multiset(sorted);
    }
  }

  /** The last 32-bit value is odd; rounded up to even it wraps to zero. */
  lemma {:induction false} WrappedLayout(e: Entry)
    requires e == Entry("x", true, true, false, 1, 2, false, 0)
    ensures Layout([e], 0xFFFF_FFFF, 1) == Lay([Placed(e, 0)], 2, 2, 2)
  {
    var base: u32 := 0xFFFF_FFFF;
    assert InitialAlignment(base) == 1;
    var start, end := Lay([e], base, 1, 1), Lay([Placed(e, 0)], 2, 2, 2);
    assert LayStep(start, 0, false) == start && LayRest(start, 0, false) == LayRest(start, 1, false) == start;
    assert Spot(e, true, base) == 0 && AlignUp(1, 2) == 2;
    assert LayStep(start, 0, true) == end && LayRest(end, 1, true) == end;
  }

  /** Beyond 16 bits an offset can wrap: with the base at the last 32-bit value, an extension of
      alignment two gets through both passes, and a layout is assigned that has it at offset zero. */
  method WrappedExample() returns (extensions: ExtensionSet, ok: bool, size: u32)
    ensures fresh(extensions) && ok && extensions.layoutAssigned && |extensions.entries| == 1
    ensures extensions.entries[0].enabled && extensions.entries[0].placed && extensions.entries[0].offset == 0
    ensures size == 2 && !LaidOut(extensions.entries, 0xFFFF_FFFF, size)
  {
    var e := Entry("x", true, true, false, 1, 2, false, 0);
    assert IsAlignment(2) by {
      assert Pow2(1) == 2;
    }
    assert IsAlignment(1) by {
      assert Pow2(0) == 1;
    }
    extensions := new ExtensionSet([e]);
    var alignment;
    ghost var sorted;
    ok, size, alignment, sorted := extensions.AssignLayout(0xFFFF_FFFF, 1);
    SortedOne(sorted, e);
    WrappedLayout(e);
    assert AlignUp(2, 2) == 2;
  }

  lemma {:induction false} SortedOne(sorted: seq<Entry>, e: Entry)
    requires multiset(sorted) == multiset{e}
    ensures sorted == [e]
  {
    assert |sorted| == |multiset(sorted)| == 1;
    assert sorted[0] in multiset(sorted);
  }
}
