/**
 Shared single-producer, single-consumer rings. Both ends run free 32-bit indexes that wrap, keep a
 stale copy of the other end's index, and address elements by masking. `Fifo` is what such a ring
 stands for: a bounded queue whose free slots rotate. Every operation of either end, in any order,
 does to the ring exactly what it does to the queue; that copies may be stale cannot be observed.
 */
module Ring {
  import opened Words

  // ---- The bounded queue ----

  /** `queue` is submitted and unread; `free` holds the other slots in the order they will be used.
      The producer may write the first `granted` free slots, the consumer read the first `peeked`
      queued ones. */
  datatype Fifo<T> = Fifo(queue: seq<T>, free: seq<T>, granted: nat, peeked: nat) {

    ghost predicate Valid() {
      granted <= |free| && peeked <= |queue|
    }

    function Reserve(count: nat): (r: (nat, Fifo<T>)) {
      var n := Min(count, |free|);
      (n, this.(granted := if granted < n then n else granted))
    }

    function Write(k: nat, value: T): (q: Fifo<T>)
      requires k < granted <= |free|
    {
      this.(free := free[k := value])
    }

    function Submit(n: nat): (q: Fifo<T>)
      requires n <= granted <= |free|
    {
      Fifo(queue + free[..n], free[n..], granted - n, peeked)
    }

    function Peek(count: nat): (r: (nat, Fifo<T>)) {
      var n := Min(count, |queue|);
      (n, this.(peeked := if peeked < n then n else peeked))
    }

    function Release(n: nat): (q: Fifo<T>)
      requires n <= peeked <= |queue|
    {
      Fifo(queue[n..], free + queue[..n], granted, peeked - n)
    }
  }

  // ---- Runs ----

  /** One operation of either end; a ring's producer is the kernel or the user, and its consumer the other. */
  datatype Op<T> =
    | OpReserve(count: u32, user: bool)
    | OpWrite(k: u32, value: T)
    | OpSubmit(n: u32)
    | OpPeek(count: u32, user: bool)
    | OpRead(k: u32)
    | OpRelease(n: u32)

  /** What an operation answers. */
  datatype Answer<T> = Counted(n: nat) | Element(value: T)

  /** The producer keeps to what it was granted, the consumer to what it was shown. */
  ghost predicate Allowed<T>(q: Fifo<T>, op: Op<T>) {
    match op
    case OpWrite(k, _) => k < q.granted
    case OpSubmit(n) => n <= q.granted
    case OpRead(k) => k < q.peeked
    case OpRelease(n) => n <= q.peeked
    case _ => true
  }

  ghost function Apply<T>(q: Fifo<T>, op: Op<T>): (next: Fifo<T>)
    requires q.Valid() && Allowed(q, op)
    ensures next.Valid() && |next.queue| + |next.free| == |q.queue| + |q.free|
  {
    match op
    case OpReserve(count, _) => q.Reserve(count).1
    case OpWrite(k, value) => q.Write(k, value)
    case OpSubmit(n) => q.Submit(n)
    case OpPeek(count, _) => q.Peek(count).1
    case OpRead(k) => q
    case OpRelease(n) => q.Release(n)
  }

  ghost function AnswerTo<T>(q: Fifo<T>, op: Op<T>): seq<Answer<T>>
    requires q.Valid() && Allowed(q, op)
  {
    match op
    case OpReserve(count, _) => [Counted(q.Reserve(count).0)]
    case OpPeek(count, _) => [Counted(q.Peek(count).0)]
    case OpRead(k) => [Element(q.queue[k])]
    case _ => []
  }

  ghost predicate AllowedRun<T>(q: Fifo<T>, ops: seq<Op<T>>)
    requires q.Valid()
    decreases |ops|
  {
    ops == [] || (Allowed(q, ops[0]) && AllowedRun(Apply(q, ops[0]), ops[1..]))
  }

  ghost function ApplyAll<T>(q: Fifo<T>, ops: seq<Op<T>>): (next: Fifo<T>)
    requires q.Valid() && AllowedRun(q, ops)
    ensures next.Valid() && |next.queue| + |next.free| == |q.queue| + |q.free|
    decreases |ops|
  {
    if ops == [] then q else ApplyAll(Apply(q, ops[0]), ops[1..])
  }

  /** Everything the queue answers during a run, in order. */
  ghost function Answers<T>(q: Fifo<T>, ops: seq<Op<T>>): seq<Answer<T>>
    requires q.Valid() && AllowedRun(q, ops)
    decreases |ops|
  {
    if ops == [] then [] else AnswerTo(q, ops[0]) + Answers(Apply(q, ops[0]), ops[1..])
  }

  /** Everything submitted during a run, in order. */
  ghost function Submitted<T>(q: Fifo<T>, ops: seq<Op<T>>): seq<T>
    requires q.Valid() && AllowedRun(q, ops)
    decreases |ops|
  {
    if ops == [] then []
    else (if ops[0].OpSubmit? then q.free[..ops[0].n] else []) + Submitted(Apply(q, ops[0]), ops[1..])
  }

  /** Everything released during a run, in order. */
  ghost function Released<T>(q: Fifo<T>, ops: seq<Op<T>>): seq<T>
    requires q.Valid() && AllowedRun(q, ops)
    decreases |ops|
  {
    if ops == [] then []
    else (if ops[0].OpRelease? then q.queue[..ops[0].n] else []) + Released(Apply(q, ops[0]), ops[1..])
  }

  lemma {:induction false} StepInOrder<T>(q: Fifo<T>, op: Op<T>)
    requires q.Valid() && Allowed(q, op)
    ensures q.queue + (if op.OpSubmit? then q.free[..op.n] else [])
         == (if op.OpRelease? then q.queue[..op.n] else []) + Apply(q, op).queue
  {
  }

  /** First in, first out, over every run: what was queued and submitted is what was released and
      is still queued, each element once and in order. */
  lemma {:induction false} FirstInFirstOut<T>(q: Fifo<T>, ops: seq<Op<T>>)
    requires q.Valid() && AllowedRun(q, ops)
    ensures q.queue + Submitted(q, ops) == Released(q, ops) + ApplyAll(q, ops).queue
    decreases |ops|
  {
    if ops != [] {
      var op, next := ops[0], Apply(q, ops[0]);
      FirstInFirstOut(next, ops[1..]);
      StepInOrder(q, op);
      var put := if op.OpSubmit? then q.free[..op.n] else [];
      var got := if op.OpRelease? then q.queue[..op.n] else [];
      InOrder(q.queue, put, got, next.queue, Submitted(next, ops[1..]), Released(next, ops[1..]),
              ApplyAll(next, ops[1..]).queue);
    }
  }

  lemma {:induction false} InOrder<T>(
    a: seq<T>, put: seq<T>, got: seq<T>, b: seq<T>, more: seq<T>, released: seq<T>, c: seq<T>)
    requires a + put == got + b && b + more == released + c
    ensures a + (put + more) == (got + released) + c
  {
    assert a + (put + more) == (got + b) + more == got + (b + more) == (got + released) + c;
  }

  // ---- Windows of slots ----

  /** The contents of `len` slots from a counter on. */
  ghost function Window<T>(s: seq<T>, from: nat, len: nat): (w: seq<T>)
    requires |s| > 0
    ensures |w| == len
    decreases len
  {
    if len == 0 then [] else Window(s, from, len - 1) + [s[(from + len - 1) % |s|]]
  }

  lemma {:induction false} WindowAt<T>(s: seq<T>, from: nat, len: nat, i: nat)
    requires |s| > 0 && i < len
    ensures Window(s, from, len)[i] == s[(from + i) % |s|]
    decreases len
  {
    if i < len - 1 {
      WindowAt(s, from, len - 1, i);
    }
  }

  lemma {:induction false} WindowSplit<T>(s: seq<T>, from: nat, a: nat, b: nat)
    requires |s| > 0
    ensures Window(s, from, a + b) == Window(s, from, a) + Window(s, from + a, b)
    decreases b
  {
    if b > 0 {
      WindowSplit(s, from, a, b - 1);
    }
  }

  /** The slots one lap ahead are the same slots. */
  lemma {:induction false} WindowLap<T>(s: seq<T>, from: nat, len: nat)
    requires |s| > 0
    ensures Window(s, from + |s|, len) == Window(s, from, len)
    decreases len
  {
    if len > 0 {
      WindowLap(s, from, len - 1);
      var a := from + len - 1;
      assert a + |s| == |s| * (a / |s| + 1) + a % |s| by {
        assert |s| * (a / |s| + 1) == |s| * (a / |s|) + |s|;
      }
      ModUnique(a + |s|, |s|, a / |s| + 1, a % |s|);
    }
  }

  /** Masked indexes of a live window, wrapped or not, name distinct slots. */
  lemma {:induction false} LiveSlotsDistinct(size: nat, counter: nat, i: u32, j: u32)
    requires RingSize(size) && i < j < size
    ensures BitAnd(Add(Low(counter), i), size - 1) != BitAnd(Add(Low(counter), j), size - 1)
  {
    LowAdd(counter, i);
    LowAdd(counter, j);
    SlotOfWord(counter + i, size);
    SlotOfWord(counter + j, size);
    SlotsDistinct(counter + i, counter + j, size);
  }

  /** Writing a slot changes a window only where the slot lies in it. */
  lemma {:induction false} WindowWrite<T>(s: seq<T>, from: nat, len: nat, at: nat, value: T)
    requires |s| > 0
    requires from <= at < from + |s| && len <= |s|
    ensures Window(s[at % |s| := value], from, len)
         == if at < from + len then Window(s, from, len)[at - from := value] else Window(s, from, len)
    decreases len
  {
    if len > 0 {
      WindowWrite(s, from, len - 1, at, value);
      var last := from + len - 1;
      if last < at {
        SlotsDistinct(last, at, |s|);
      } else if at < last {
        SlotsDistinct(at, last, |s|);
      }
    }
  }

  /** The queue that starts at counter `consumed`, with the free slots behind it. */
  ghost function Rotation<T>(s: seq<T>, consumed: nat, produced: nat, granted: nat, peeked: nat): (q: Fifo<T>)
    requires |s| > 0 && consumed <= produced <= consumed + |s|
    ensures |q.queue| == produced - consumed && |q.free| == |s| - |q.queue|
  {
    Fifo(Window(s, consumed, produced - consumed), Window(s, produced, |s| - (produced - consumed)), granted, peeked)
  }

  lemma {:induction false} RotationWrite<T>(
    s: seq<T>, consumed: nat, produced: nat, granted: nat, peeked: nat, k: nat, value: T)
    requires |s| > 0 && consumed <= produced && produced + granted <= consumed + |s| && k < granted
    ensures Rotation(s[(produced + k) % |s| := value], consumed, produced, granted, peeked)
         == Rotation(s, consumed, produced, granted, peeked).Write(k, value)
  {
    WindowWrite(s, consumed, produced - consumed, produced + k, value);
    WindowWrite(s, produced, |s| - (produced - consumed), produced + k, value);
  }

  lemma {:induction false} RotationSubmit<T>(s: seq<T>, consumed: nat, produced: nat, granted: nat, peeked: nat, n: nat)
    requires |s| > 0 && consumed <= produced && produced + granted <= consumed + |s| && n <= granted
    ensures Rotation(s, consumed, produced + n, granted - n, peeked)
         == Rotation(s, consumed, produced, granted, peeked).Submit(n)
  {
    WindowSplit(s, produced, n, |s| - (produced - consumed) - n);
    WindowSplit(s, consumed, produced - consumed, n);
  }

  lemma {:induction false} RotationRelease<T>(
    s: seq<T>, consumed: nat, produced: nat, granted: nat, peeked: nat, n: nat)
    requires |s| > 0 && consumed + peeked <= produced <= consumed + |s| && n <= peeked
    ensures Rotation(s, consumed + n, produced, granted, peeked - n)
         == Rotation(s, consumed, produced, granted, peeked).Release(n)
  {
    var queued, free := produced - consumed, |s| - (produced - consumed);
    assert n + (queued - n) == queued;
    WindowSplit(s, consumed, n, queued - n);
    assert produced + free == consumed + |s|;
    WindowSplit(s, produced, free, n);
    WindowLap(s, consumed, n);
    assert Window(s, produced, free + n) == Window(s, produced, free) + Window(s, consumed, n);
  }

  // ---- What a stale copy can do ----

  /** Free slots as the producer computes them, from a copy of the consumer index. */
  function FreeSlots(size: nat, producerIndex: u32, consumerIndex: u32): u32
    requires size < WORD
  {
    Sub(size, Sub(producerIndex, consumerIndex))
  }

  /** The copy lags, so the free slots it shows are some of those there are. */
  lemma {:induction false} StaleFreeSlots(size: nat, produced: nat, consumed: nat, seen: nat)
    requires size <= 0x8000_0000
    requires seen <= consumed <= produced <= seen + size
    ensures FreeSlots(size, Low(produced), Low(seen)) == size - (produced - seen)
    ensures FreeSlots(size, Low(produced), Low(seen)) <= size - (produced - consumed)
  {
    LowSub(produced, seen);
    LowSub(size, produced - seen);
  }

  lemma {:induction false} StaleFilledSlots(size: nat, produced: nat, consumed: nat, seen: nat)
    requires size <= 0x8000_0000
    requires consumed <= seen <= produced <= consumed + size
    ensures Sub(Low(seen), Low(consumed)) == seen - consumed <= produced - consumed
  {
    LowSub(seen, consumed);
  }

  // ---- The ring ----

  class Ring<T> {
    const size: nat
    const elements: array<T>
    var producerIndex: u32
    var consumerIndex: u32
    var cachedConsumerIndex: u32
    var cachedProducerIndex: u32
    ghost var produced: nat
    ghost var consumed: nat
    ghost var seenConsumed: nat
    ghost var seenProduced: nat
    ghost var granted: nat
    ghost var peeked: nat

    ghost predicate Valid()
      reads this
    {
      && elements.Length == size && RingSize(size) && 0 < size <= 0x8000_0000
      && producerIndex == Low(produced) && consumerIndex == Low(consumed)
      && cachedConsumerIndex == Low(seenConsumed) && cachedProducerIndex == Low(seenProduced)
      && seenConsumed <= consumed <= seenProduced <= produced
      && produced + granted <= seenConsumed + size
      && consumed + peeked <= seenProduced
    }

    /** The queue the ring stands for. */
    ghost function View(): (q: Fifo<T>)
      requires Valid()
      reads this, elements
      ensures q.Valid()
      ensures |q.queue| + |q.free| == size
    {
      Rotation(elements[..], consumed, produced, granted, peeked)
    }

    constructor (elements: array<T>)
      requires RingSize(elements.Length)
      ensures Valid() && this.elements == elements
      ensures View().queue == [] && View().granted == 0 && View().peeked == 0
    {
      this.elements, size := elements, elements.Length;
      producerIndex, consumerIndex, cachedConsumerIndex, cachedProducerIndex := 0, 0, 0, 0;
      produced, consumed, seenConsumed, seenProduced, granted, peeked := 0, 0, 0, 0, 0, 0;
      RingSizeBounds(elements.Length);
    }

    /** Kernel producer: how many of `count` slots may be written. */
    method ProdReserve(count: u32) returns (n: u32)
      requires Valid()
      modifies this`cachedConsumerIndex, this`seenConsumed, this`granted
      ensures Valid()
      ensures n == old(View()).Reserve(count).0 && View() == old(View()).Reserve(count).1
    {
      StaleFreeSlots(size, produced, consumed, seenConsumed);
      var available := FreeSlots(size, producerIndex, cachedConsumerIndex);
      if available >= count {
        granted := if granted < count then count else granted;
        return count;
      }
      cachedConsumerIndex, seenConsumed := consumerIndex, consumed;
      StaleFreeSlots(size, produced, consumed, seenConsumed);
      available := FreeSlots(size, producerIndex, cachedConsumerIndex);
      n := Min(available, count);
      granted := if granted < n then n else granted;
    }

    /** All slots are free: what the kernel asks of a ring it fills. */
    method ProdIsEmpty() returns (empty: bool)
      requires Valid()
      modifies this`cachedConsumerIndex, this`seenConsumed, this`granted
      ensures Valid()
      ensures empty <==> old(View()).queue == []
      ensures View() == old(View()).Reserve(size).1
    {
      var n := ProdReserve(size);
      empty := n == size;
    }

    /** User producer: the same question, answered with the index to start writing at. */
    method ProducerReserve(maxCount: u32) returns (n: u32, index: u32)
      requires Valid()
      modifies this`cachedConsumerIndex, this`seenConsumed, this`granted
      ensures Valid()
      ensures n == old(View()).Reserve(maxCount).0 && View() == old(View()).Reserve(maxCount).1
      ensures index == Low(produced)
    {
      index := producerIndex;
      StaleFreeSlots(size, produced, consumed, seenConsumed);
      var available := FreeSlots(size, index, cachedConsumerIndex);
      if available >= maxCount {
        granted := if granted < maxCount then maxCount else granted;
        return maxCount, index;
      }
      cachedConsumerIndex, seenConsumed := consumerIndex, consumed;
      StaleFreeSlots(size, produced, consumed, seenConsumed);
      available := FreeSlots(size, index, cachedConsumerIndex);
      n := if available < maxCount then available else maxCount;
      granted := if granted < n then n else granted;
    }

    /** Writes the element `k` slots past the producer index. */
    method Write(k: u32, value: T)
      requires Valid() && k < granted
      modifies elements
      ensures Valid() && View() == old(View()).Write(k, value)
    {
      LowAdd(produced, k);
      SlotOfWord(produced + k, size);
      var slot := BitAnd(Add(producerIndex, k), size - 1);
      ghost var before := elements[..];
      elements[slot] := value;
      assert elements[..] == before[slot := value];
      RotationWrite(before, consumed, produced, granted, peeked, k, value);
    }

    method ProdSubmit(count: u32)
      requires Valid() && count <= granted
      modifies this`producerIndex, this`produced, this`granted
      ensures Valid() && View() == old(View()).Submit(count)
    {
      LowAdd(produced, count);
      RotationSubmit(elements[..], consumed, produced, granted, peeked, count);
      producerIndex := Add(producerIndex, count);
      produced, granted := produced + count, granted - count;
    }

    /** Kernel consumer: how many of `count` elements may be read. */
    method ConsPeek(count: u32) returns (n: u32)
      requires Valid()
      modifies this`cachedProducerIndex, this`seenProduced, this`peeked
      ensures Valid()
      ensures n == old(View()).Peek(count).0 && View() == old(View()).Peek(count).1
    {
      StaleFilledSlots(size, produced, consumed, seenProduced);
      var available := Sub(cachedProducerIndex, consumerIndex);
      if available >= count {
        peeked := if peeked < count then count else peeked;
        return count;
      }
      cachedProducerIndex, seenProduced := producerIndex, produced;
      StaleFilledSlots(size, produced, consumed, seenProduced);
      available := Sub(cachedProducerIndex, consumerIndex);
      n := Min(available, count);
      peeked := if peeked < n then n else peeked;
    }

    /** User consumer: the same question, answered with the index to start reading at. */
    method ConsumerReserve(maxCount: u32) returns (n: u32, index: u32)
      requires Valid()
      modifies this`cachedProducerIndex, this`seenProduced, this`peeked
      ensures Valid()
      ensures n == old(View()).Peek(maxCount).0 && View() == old(View()).Peek(maxCount).1
      ensures index == Low(consumed)
    {
      index := consumerIndex;
      StaleFilledSlots(size, produced, consumed, seenProduced);
      var available := Sub(cachedProducerIndex, index);
      if available >= maxCount {
        peeked := if peeked < maxCount then maxCount else peeked;
        return maxCount, index;
      }
      cachedProducerIndex, seenProduced := producerIndex, produced;
      StaleFilledSlots(size, produced, consumed, seenProduced);
      available := Sub(cachedProducerIndex, index);
      n := if available < maxCount then available else maxCount;
      peeked := if peeked < n then n else peeked;
    }

    /** Reads the element `k` slots past the consumer index. */
    method Read(k: u32) returns (value: T)
      requires Valid() && k < peeked
      ensures value == View().queue[k]
    {
      LowAdd(consumed, k);
      SlotOfWord(consumed + k, size);
      WindowAt(elements[..], consumed, produced - consumed, k);
      value := elements[BitAnd(Add(consumerIndex, k), size - 1)];
    }

    method ConsRelease(count: u32)
      requires Valid() && count <= peeked
      modifies this`consumerIndex, this`consumed, this`peeked
      ensures Valid() && View() == old(View()).Release(count)
    {
      LowAdd(consumed, count);
      RotationRelease(elements[..], consumed, produced, granted, peeked, count);
      consumerIndex := Add(consumerIndex, count);
      consumed, peeked := consumed + count, peeked - count;
    }
  }

  method Perform<T>(ring: Ring<T>, op: Op<T>) returns (answer: seq<Answer<T>>)
    requires ring.Valid() && Allowed(ring.View(), op)
    modifies ring, ring.elements
    ensures ring.Valid() && ring.View() == Apply(old(ring.View()), op) && answer == AnswerTo(old(ring.View()), op)
  {
    answer := [];
    match op {
      case OpReserve(count, user) =>
        var n, index := 0, 0;
        if user {
          n, index := ring.ProducerReserve(count);
        } else {
          n := ring.ProdReserve(count);
        }
        answer := [Counted(n)];
      case OpWrite(k, value) =>
        ring.Write(k, value);
      case OpSubmit(n) =>
        ring.ProdSubmit(n);
      case OpPeek(count, user) =>
        var n, index := 0, 0;
        if user {
          n, index := ring.ConsumerReserve(count);
        } else {
          n := ring.ConsPeek(count);
        }
        answer := [Counted(n)];
      case OpRead(k) =>
        var value := ring.Read(k);
        answer := [Element(value)];
      case OpRelease(n) =>
        ring.ConsRelease(n);
    }
  }

  /** Any interleaving of the two ends' operations, of the kernel's and of the user's kind, does to the
      ring what it does to the queue, and is answered as by the queue. */
  method Run<T>(ring: Ring<T>, ops: seq<Op<T>>) returns (answers: seq<Answer<T>>)
    requires ring.Valid() && AllowedRun(ring.View(), ops)
    modifies ring, ring.elements
    ensures ring.Valid() && ring.View() == ApplyAll(old(ring.View()), ops)
    ensures answers == Answers(old(ring.View()), ops)
    decreases |ops|
  {
    if ops == [] {
      return [];
    }
    answers := Perform(ring, ops[0]);
    var more := Run(ring, ops[1..]);
    answers := answers + more;
  }
}
